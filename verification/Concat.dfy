/** Strings, or blocks of entries, end to end. */
module Concat {

  function Flat<T>(ss: seq<seq<T>>): seq<T> {
    if ss == [] then [] else Flat(ss[..|ss| - 1]) + ss[|ss| - 1]
  }

  /** Where string `i` begins. */
  function Ends<T>(ss: seq<seq<T>>, i: nat): nat
    requires i <= |ss|
  {
    |Flat(ss[..i])|
  }

  lemma FlatNext<T>(ss: seq<seq<T>>, i: nat)
    requires i < |ss|
    ensures Flat(ss[..i + 1]) == Flat(ss[..i]) + ss[i] && ss[..|ss|] == ss && Flat(ss[..0]) == []
  {
    assert ss[..i + 1][..i] == ss[..i];
  }

  lemma {:induction false} FlatPrefix<T>(ss: seq<seq<T>>, i: nat, j: nat)
    requires i <= j <= |ss|
    ensures Flat(ss[..i]) <= Flat(ss[..j]) && ss[..|ss|] == ss
    decreases j
  {
    if i < j {
      FlatPrefix(ss, i, j - 1);
      FlatNext(ss, j - 1);
    }
  }

  /** A string is found between where it begins and where it ends. */
  lemma FlatAt<T>(ss: seq<seq<T>>, i: nat)
    requires i < |ss|
    ensures Ends(ss, i) + |ss[i]| == Ends(ss, i + 1) <= |Flat(ss)|
    ensures Flat(ss)[Ends(ss, i)..Ends(ss, i + 1)] == ss[i]
  {
    FlatNext(ss, i);
    FlatPrefix(ss, i + 1, |ss|);
    var whole := Flat(ss);
    assert whole[..Ends(ss, i + 1)] == Flat(ss[..i]) + ss[i];
    assert whole[Ends(ss, i)..Ends(ss, i + 1)] == whole[..Ends(ss, i + 1)][Ends(ss, i)..];
  }

  lemma FlatElem<T>(ss: seq<seq<T>>, i: nat, j: nat)
    requires i < |ss| && j < |ss[i]|
    ensures Ends(ss, i) + j < |Flat(ss)| && Flat(ss)[Ends(ss, i) + j] == ss[i][j]
  {
    FlatAt(ss, i);
    assert Flat(ss)[Ends(ss, i)..Ends(ss, i + 1)][j] == Flat(ss)[Ends(ss, i) + j];
  }

  /** Every place in the whole is a place in one of the strings. */
  lemma {:induction false} FlatFind<T>(ss: seq<seq<T>>, n: nat, k: nat) returns (i: nat, j: nat)
    requires n <= |ss| && k < Ends(ss, n)
    ensures i < n && j < |ss[i]| && k == Ends(ss, i) + j
    decreases n
  {
    FlatNext(ss, n - 1);
    if k < Ends(ss, n - 1) {
      i, j := FlatFind(ss, n - 1, k);
    } else {
      i, j := n - 1, k - Ends(ss, n - 1);
    }
  }

  lemma EndsGrow<T>(ss: seq<seq<T>>, i: nat, j: nat)
    requires i <= j <= |ss|
    ensures Ends(ss, i) <= Ends(ss, j) <= |Flat(ss)| && Ends(ss, |ss|) == |Flat(ss)|
    ensures i < j ==> Ends(ss, i) + |ss[i]| <= Ends(ss, j)
  {
    FlatPrefix(ss, i, j);
    FlatPrefix(ss, j, |ss|);
    if i < j {
      FlatNext(ss, i);
      FlatPrefix(ss, i + 1, j);
    }
  }
}
