/** MergingIterator (`table/merger.cc`): children over sorted runs with distinct
    keys, walked as one cursor over their sorted merge, in both directions. */
module Merger {
  import opened Keys
  import opened Cursor

  datatype Direction = Forward | Reverse

  /** `merged` is the sorted merge of the runs, which share no key. */
  ghost predicate IsMerge(runs: seq<seq<Entry>>, merged: seq<Entry>) {
    && Sorted(merged) && (forall i :: 0 <= i < |runs| ==> Sorted(runs[i]))
    && (forall i, e :: 0 <= i < |runs| && e in runs[i] ==> e in merged)
    && (forall e :: e in merged ==> exists i :: 0 <= i < |runs| && e in runs[i])
    && (forall i, j, a, b :: 0 <= i < |runs| && 0 <= j < |runs| && i != j && a in runs[i] && b in runs[j] ==> a.key != b.key)
  }

  /** How many entries of `run` come before position `q` of the merge. */
  ghost function Cut(run: seq<Entry>, merged: seq<Entry>, q: nat): (c: nat)
    requires q <= |merged|
    ensures c <= |run|
  {
    if q == |merged| then |run| else SeekIndex(run, merged[q].key)
  }

  /** Where a child stands that was moved to just before a cut. */
  ghost function JustBefore(run: seq<Entry>, cut: nat): nat
    requires cut <= |run|
  {
    if cut == 0 then |run| else cut - 1
  }

  lemma PlaceInMerge(runs: seq<seq<Entry>>, merged: seq<Entry>, i: nat, e: Entry) returns (t: nat)
    requires IsMerge(runs, merged) && i < |runs| && e in runs[i]
    ensures t < |merged| && merged[t] == e
  {
    assert e in merged;
    t :| 0 <= t < |merged| && merged[t] == e;
  }

  /** An entry of a run is before the cut exactly when it is before the position. */
  lemma CutSplits(runs: seq<seq<Entry>>, merged: seq<Entry>, i: nat, q: nat, j: nat)
    requires IsMerge(runs, merged) && i < |runs| && q <= |merged| && j < |runs[i]|
    ensures j < Cut(runs[i], merged, q) <==> q == |merged| || Before(runs[i][j].key, merged[q].key)
  {
    var c := Cut(runs[i], merged, q);
    if q < |merged| && c < j {
      assert Before(runs[i][c].key, runs[i][j].key);
    }
  }

  /** The entry at position `q` sits at the cut of the run that owns it. */
  lemma OwnerAtCut(runs: seq<seq<Entry>>, merged: seq<Entry>, i: nat, q: nat)
    requires IsMerge(runs, merged) && i < |runs| && q < |merged| && merged[q] in runs[i]
    ensures var c := Cut(runs[i], merged, q); c < |runs[i]| && runs[i][c] == merged[q]
    ensures Cut(runs[i], merged, q + 1) == Cut(runs[i], merged, q) + 1
  {
    var j :| 0 <= j < |runs[i]| && runs[i][j] == merged[q];
    CutIs(runs, merged, i, q, j);
    if j + 1 < |runs[i]| {
      AfterPosition(runs, merged, i, q, j + 1);
    }
    CutIs(runs, merged, i, q + 1, j + 1);
  }

  /** An entry of a run that comes after position `q` does not come before position `q + 1`. */
  lemma AfterPosition(runs: seq<seq<Entry>>, merged: seq<Entry>, i: nat, q: nat, j: nat)
    requires IsMerge(runs, merged) && i < |runs| && q < |merged| && j < |runs[i]|
    requires Before(merged[q].key, runs[i][j].key)
    ensures q + 1 < |merged| && !Before(runs[i][j].key, merged[q + 1].key)
  {
    var t := PlaceInMerge(runs, merged, i, runs[i][j]);
    if q + 1 < t {
      assert Before(merged[q + 1].key, merged[t].key);
    }
  }

  /** The cut of a run that does not own position `q` is the same one further on. */
  lemma OthersStay(runs: seq<seq<Entry>>, merged: seq<Entry>, i: nat, q: nat)
    requires IsMerge(runs, merged) && i < |runs| && q < |merged| && merged[q] !in runs[i]
    ensures Cut(runs[i], merged, q + 1) == Cut(runs[i], merged, q)
  {
    var c := Cut(runs[i], merged, q);
    if c < |runs[i]| {
      OrderIsTotal(runs[i][c].key, merged[q].key);
      if runs[i][c].key == merged[q].key {
        KeyDecides(runs, merged, i, q, runs[i][c]);
      }
      AfterPosition(runs, merged, i, q, c);
    }
    if c > 0 && q + 1 < |merged| {
      assert Before(merged[q].key, merged[q + 1].key);
    }
    CutIs(runs, merged, i, q + 1, c);
  }

  /** Within a merge, the key decides the entry. */
  lemma KeyDecides(runs: seq<seq<Entry>>, merged: seq<Entry>, i: nat, q: nat, e: Entry)
    requires IsMerge(runs, merged) && i < |runs| && q < |merged| && e in runs[i] && e.key == merged[q].key
    ensures e == merged[q]
  {
    var t := PlaceInMerge(runs, merged, i, e);
  }

  /** A count that splits the run at the position is the cut. */
  lemma CutIs(runs: seq<seq<Entry>>, merged: seq<Entry>, i: nat, q: nat, j: nat)
    requires IsMerge(runs, merged) && i < |runs| && q <= |merged| && j <= |runs[i]|
    requires j > 0 ==> q == |merged| || Before(runs[i][j - 1].key, merged[q].key)
    requires j < |runs[i]| ==> q < |merged| && !Before(runs[i][j].key, merged[q].key)
    ensures Cut(runs[i], merged, q) == j
  {
    var c := Cut(runs[i], merged, q);
    if j < c {
      CutSplits(runs, merged, i, q, j);
    }
  }

  lemma InOrder(runs: seq<seq<Entry>>, merged: seq<Entry>, q: nat, t: nat)
    requires IsMerge(runs, merged) && q < t < |merged|
    ensures Before(merged[q].key, merged[t].key)
  {
  }

  /** Seeking every run to a key puts each at its cut for where the merge would stop. */
  lemma SeekCuts(runs: seq<seq<Entry>>, merged: seq<Entry>, i: nat, target: IKey)
    requires IsMerge(runs, merged) && i < |runs|
    ensures SeekIndex(runs[i], target) == Cut(runs[i], merged, SeekIndex(merged, target))
  {
    hide IsMerge;
    var q := SeekIndex(merged, target);
    var j := SeekIndex(runs[i], target);
    if j > 0 {
      var t := PlaceInMerge(runs, merged, i, runs[i][j - 1]);
    }
    if j < |runs[i]| {
      var t := PlaceInMerge(runs, merged, i, runs[i][j]);
      assert q <= t;
      if q < t {
        InOrder(runs, merged, q, t);
      }
    }
    CutIs(runs, merged, i, q, j);
  }

  lemma FirstCut(runs: seq<seq<Entry>>, merged: seq<Entry>, i: nat)
    requires IsMerge(runs, merged) && i < |runs|
    ensures Cut(runs[i], merged, 0) == 0
  {
    if |runs[i]| > 0 {
      var t := PlaceInMerge(runs, merged, i, runs[i][0]);
      if t > 0 {
        assert Before(merged[0].key, merged[t].key);
      }
    }
    CutIs(runs, merged, i, 0, 0);
  }

  lemma Owner(runs: seq<seq<Entry>>, merged: seq<Entry>, q: nat) returns (o: nat)
    requires IsMerge(runs, merged) && q < |merged|
    ensures o < |runs| && merged[q] in runs[o]
  {
    assert merged[q] in merged;
    o :| 0 <= o < |runs| && merged[q] in runs[o];
  }

  lemma OnlyOwner(runs: seq<seq<Entry>>, merged: seq<Entry>, q: nat, c: nat, i: nat)
    requires IsMerge(runs, merged) && q < |merged| && c < |runs| && i < |runs| && i != c && merged[q] in runs[c]
    ensures merged[q] !in runs[i]
  {
    if merged[q] in runs[i] {
      RunsApart(runs, merged, i, c, merged[q], merged[q]);
    }
  }

  lemma RunsApart(runs: seq<seq<Entry>>, merged: seq<Entry>, i: nat, j: nat, a: Entry, b: Entry)
    requires IsMerge(runs, merged) && i < |runs| && j < |runs| && i != j && a in runs[i] && b in runs[j]
    ensures a.key != b.key
  {
  }

  /** The least entry at the cuts is the one at the position. */
  lemma LeastAtCuts(runs: seq<seq<Entry>>, merged: seq<Entry>, q: nat, c: nat)
    requires IsMerge(runs, merged) && q < |merged| && c < |runs| && Cut(runs[c], merged, q) < |runs[c]|
    requires forall k :: 0 <= k < |runs| && Cut(runs[k], merged, q) < |runs[k]| ==>
               !Before(runs[k][Cut(runs[k], merged, q)].key, runs[c][Cut(runs[c], merged, q)].key)
    ensures runs[c][Cut(runs[c], merged, q)] == merged[q]
  {
    var o := Owner(runs, merged, q);
    OwnerAtCut(runs, merged, o, q);
    var e := runs[c][Cut(runs[c], merged, q)];
    assert !Before(runs[o][Cut(runs[o], merged, q)].key, e.key);
    CutSplits(runs, merged, c, q, Cut(runs[c], merged, q));
    OrderIsTotal(e.key, merged[q].key);
    KeyDecides(runs, merged, c, q, e);
  }

  /** The greatest entry just before the cuts is the one before the position. */
  lemma GreatestBeforeCuts(runs: seq<seq<Entry>>, merged: seq<Entry>, q: nat, c: nat)
    requires IsMerge(runs, merged) && 0 < q <= |merged| && c < |runs| && Cut(runs[c], merged, q) > 0
    requires forall k :: 0 <= k < |runs| && Cut(runs[k], merged, q) > 0 ==>
               !Before(runs[c][Cut(runs[c], merged, q) - 1].key, runs[k][Cut(runs[k], merged, q) - 1].key)
    ensures runs[c][Cut(runs[c], merged, q) - 1] == merged[q - 1]
  {
    hide IsMerge;
    var o := Owner(runs, merged, q - 1);
    OwnerAtCut(runs, merged, o, q - 1);
    var e := runs[c][Cut(runs[c], merged, q) - 1];
    assert !Before(e.key, runs[o][Cut(runs[o], merged, q) - 1].key);
    CutSplits(runs, merged, c, q, Cut(runs[c], merged, q) - 1);
    var t := PlaceInMerge(runs, merged, c, e);
    if t < q - 1 {
      InOrder(runs, merged, t, q - 1);
    } else if t > q {
      InOrder(runs, merged, q, t);
    }
  }

  /** Where a seek to `key` that steps over an equal key stops. */
  function Past(run: seq<Entry>, key: IKey): (i: nat)
    ensures i <= |run|
  {
    var i := SeekIndex(run, key);
    if i < |run| && run[i].key == key then i + 1 else i
  }

  /** With distinct keys there is never an equal key to step over. */
  lemma PastIsCut(runs: seq<seq<Entry>>, merged: seq<Entry>, q: nat, c: nat, i: nat)
    requires IsMerge(runs, merged) && q < |merged| && c < |runs| && i < |runs| && i != c && merged[q] in runs[c]
    ensures Past(runs[i], merged[q].key) == Cut(runs[i], merged, q)
  {
    hide IsMerge;
    OnlyOwner(runs, merged, q, c, i);
    var k := SeekIndex(runs[i], merged[q].key);
    if k < |runs[i]| && runs[i][k].key == merged[q].key {
      KeyDecides(runs, merged, i, q, runs[i][k]);
    }
  }

  /** A run that stands at the entry of position `q` stands at its cut. */
  lemma AtOwnEntry(runs: seq<seq<Entry>>, merged: seq<Entry>, c: nat, q: nat, pos: nat)
    requires IsMerge(runs, merged) && c < |runs| && q < |merged| && pos < |runs[c]| && runs[c][pos] == merged[q]
    ensures pos == Cut(runs[c], merged, q) && merged[q] in runs[c]
  {
    CutIs(runs, merged, c, q, pos);
  }

  class MergingIterator {
    const children: seq<Iterator>
    ghost const runs: seq<seq<Entry>>
    ghost const merged: seq<Entry>
    var current: Option<nat>
    var direction: Direction
    ghost var at: nat    // position in the merge; |merged| when not valid

    ghost predicate Children()
      reads this, children
    {
      && |runs| == |children|
      && (forall i, j :: 0 <= i < j < |children| ==> children[i] != children[j])
      && (forall i :: 0 <= i < |children| ==> children[i].Ok() && children[i].run == runs[i])
    }

    ghost predicate Shape()
      reads this, children
    {
      IsMerge(runs, merged) && at <= |merged| && Children()
    }

    /** The first `n` children, but not child `but`, stand at their cuts for position `q`. */
    ghost predicate AtCuts(q: nat, n: nat, but: Option<nat>)
      requires Shape() && q <= |merged| && n <= |children|
      reads this, children
    {
      forall i :: 0 <= i < n && but != Some(i) ==> children[i].pos == Cut(runs[i], merged, q)
    }

    /** The same, one entry before the cuts. */
    ghost predicate BeforeCuts(q: nat, n: nat, but: Option<nat>)
      requires Shape() && q <= |merged| && n <= |children|
      reads this, children
    {
      forall i :: 0 <= i < n && but != Some(i) ==> children[i].pos == JustBefore(runs[i], Cut(runs[i], merged, q))
    }

    /** Child `c` holds the entry at `at`. */
    ghost predicate Holds(c: nat)
      reads this, children
    {
      c < |children| && at < |merged| && children[c].Valid() && children[c].Current() == merged[at]
    }

    ghost predicate Ok()
      reads this, children
    {
      && Shape() && (current.Some? <==> at < |merged|) && (current.Some? ==> Holds(current.value))
      && if direction == Forward then AtCuts(at, |children|, None)
         else current.Some? ==> BeforeCuts(at, |children|, current)
    }

    constructor (children: seq<Iterator>, ghost runs: seq<seq<Entry>>, ghost merged: seq<Entry>)
      requires IsMerge(runs, merged) && |runs| == |children|
      requires forall i, j :: 0 <= i < j < |children| ==> children[i] != children[j]
      requires forall i :: 0 <= i < |children| ==> children[i].Ok() && children[i].run == runs[i] && !children[i].Valid()
      ensures Ok() && this.children == children && this.runs == runs && this.merged == merged && at == |merged|
    {
      hide IsMerge;
      this.children := children;
      this.runs := runs;
      this.merged := merged;
      current := None;
      direction := Forward;
      at := |merged|;
    }

    predicate Valid()
      reads this
    {
      current.Some?
    }

    lemma OkFacts()
      requires Ok()
      ensures Shape() && Sorted(merged) && at <= |merged| && (Valid() <==> at < |merged|)
    {
    }

    method Current() returns (e: Entry)
      requires Ok() && Valid()
      ensures at < |merged| && e == merged[at]
    {
      hide IsMerge;
      e := children[current.value].Current();
    }

    /** The scan of FindSmallest: the first valid child whose key no other undercuts. */
    method SmallestChild() returns (c: Option<nat>)
      ensures c.Some? ==> c.value < |children| && children[c.value].Valid()
      ensures c == None ==> forall k :: 0 <= k < |children| ==> !children[k].Valid()
      ensures c.Some? ==> forall k :: 0 <= k < |children| && children[k].Valid() ==>
                !Before(children[k].Current().key, children[c.value].Current().key)
    {
      hide IsMerge;
      c := None;
      for i := 0 to |children|
        invariant c.Some? ==> c.value < i && children[c.value].Valid()
        invariant c == None ==> forall k :: 0 <= k < i ==> !children[k].Valid()
        invariant c.Some? ==> forall k :: 0 <= k < i && children[k].Valid() ==>
                    !Before(children[k].Current().key, children[c.value].Current().key)
      {
        if children[i].Valid() {
          if c == None || Before(children[i].Current().key, children[c.value].Current().key) {
            c := Some(i);
          }
        }
      }
    }

    /** The scan of FindLargest, from the last child down. */
    method LargestChild() returns (c: Option<nat>)
      ensures c.Some? ==> c.value < |children| && children[c.value].Valid()
      ensures c == None ==> forall k :: 0 <= k < |children| ==> !children[k].Valid()
      ensures c.Some? ==> forall k :: 0 <= k < |children| && children[k].Valid() ==>
                !Before(children[c.value].Current().key, children[k].Current().key)
    {
      hide IsMerge;
      c := None;
      for i := |children| downto 0
        invariant c.Some? ==> i <= c.value < |children| && children[c.value].Valid()
        invariant c == None ==> forall k :: i <= k < |children| ==> !children[k].Valid()
        invariant c.Some? ==> forall k :: i <= k < |children| && children[k].Valid() ==>
                    !Before(children[c.value].Current().key, children[k].Current().key)
      {
        if children[i].Valid() {
          if c == None || Before(children[c.value].Current().key, children[i].Current().key) {
            c := Some(i);
          }
        }
      }
    }

    /** FindSmallest: with every child at its cut, the current child becomes the
        one that holds the entry at `at`. */
    method FindSmallest()
      requires Shape() && AtCuts(at, |children|, None)
      modifies this`current
      ensures Shape() && AtCuts(at, |children|, None)
      ensures (current.Some? <==> at < |merged|) && (current.Some? ==> Holds(current.value))
    {
      hide IsMerge;
      current := SmallestChild();
      if at < |merged| {
        ghost var o := Owner(runs, merged, at);
        OwnerAtCut(runs, merged, o, at);
        assert children[o].Valid();
        LeastAtCuts(runs, merged, at, current.value);
      }
    }

    /** FindLargest: with every child just before its cut for `q`, the current
        child becomes the one that holds the entry before `q`. */
    method FindLargest(ghost q: nat)
      requires Shape() && q <= |merged| && BeforeCuts(q, |children|, None)
      modifies this`current, this`at
      ensures Shape() && at == if q == 0 then |merged| else q - 1
      ensures (current.Some? <==> at < |merged|) && (current.Some? ==> Holds(current.value) && BeforeCuts(at, |children|, current))
    {
      hide IsMerge, Cut, SeekIndex, Sorted;
      current := LargestChild();
      at := if q == 0 then |merged| else q - 1;
      if q > 0 {
        ghost var o := Owner(runs, merged, q - 1);
        OwnerAtCut(runs, merged, o, q - 1);
        assert children[o].Valid();
        GreatestBeforeCuts(runs, merged, q, current.value);
        OthersUnmoved(current.value, q - 1);
      } else {
        forall i | 0 <= i < |children|
          ensures !children[i].Valid()
        {
          FirstCut(runs, merged, i);
        }
      }
    }

    lemma OthersUnmoved(c: nat, q: nat)
      requires IsMerge(runs, merged) && q < |merged| && c < |runs| && merged[q] in runs[c]
      ensures forall i :: 0 <= i < |runs| && i != c ==> Cut(runs[i], merged, q + 1) == Cut(runs[i], merged, q)
    {
      hide IsMerge;
      forall i | 0 <= i < |runs| && i != c
        ensures Cut(runs[i], merged, q + 1) == Cut(runs[i], merged, q)
      {
        OnlyOwner(runs, merged, q, c, i);
        OthersStay(runs, merged, i, q);
      }
    }

    method SeekToFirst()
      requires Shape()
      modifies this, children
      ensures Ok() && at == 0
    {
      hide IsMerge;
      for i := 0 to |children|
        invariant Shape()
        invariant forall k :: 0 <= k < i ==> children[k].pos == 0
      {
        children[i].SeekToFirst();
      }
      at := 0;
      forall i | 0 <= i < |children|
        ensures Cut(runs[i], merged, 0) == 0
      {
        FirstCut(runs, merged, i);
      }
      FindSmallest();
      direction := Forward;
    }

    method SeekToLast()
      requires Shape()
      modifies this, children
      ensures Ok() && at == if |merged| == 0 then 0 else |merged| - 1
    {
      hide IsMerge;
      for i := 0 to |children|
        invariant Shape()
        invariant forall k :: 0 <= k < i ==> children[k].pos == JustBefore(runs[k], |runs[k]|)
      {
        children[i].SeekToLast();
      }
      FindLargest(|merged|);
      direction := Reverse;
    }

    method Seek(target: IKey)
      requires Shape()
      modifies this, children
      ensures Ok() && at == SeekIndex(merged, target)
    {
      hide IsMerge, SeekIndex, Cut;
      SeekChildren(target);
      at := SeekIndex(merged, target);
      forall i | 0 <= i < |children|
        ensures SeekIndex(runs[i], target) == Cut(runs[i], merged, at)
      {
        SeekCuts(runs, merged, i, target);
      }
      FindSmallest();
      direction := Forward;
    }

    method SeekChildren(target: IKey)
      requires Children()
      modifies children
      ensures Children() && forall i :: 0 <= i < |children| ==> children[i].pos == SeekIndex(runs[i], target)
    {
      hide SeekIndex, Sorted;
      for i := 0 to |children|
        invariant Children()
        invariant forall k :: 0 <= k < i ==> children[k].pos == SeekIndex(runs[k], target)
      {
        children[i].Seek(target);
      }
    }

    /** Moves every child but the current one strictly past the current key. */
    method PositionAfter(c: nat)
      requires Children() && c < |children| && children[c].Valid()
      modifies set i | 0 <= i < |children| && i != c :: children[i]
      ensures Children()
      ensures forall i :: 0 <= i < |children| && i != c ==> children[i].pos == Past(runs[i], children[c].Current().key)
    {
      hide IsMerge;
      var key := children[c].Current().key;
      for i := 0 to |children|
        invariant Children() && children[c].Valid() && children[c].Current().key == key
        invariant forall k :: 0 <= k < i && k != c ==> children[k].pos == Past(runs[k], key)
      {
        if i != c {
          children[i].Seek(key);
          if children[i].Valid() && children[i].Current().key == key {
            children[i].Next();
          }
        }
      }
    }

    lemma PositionedAfter(c: nat)
      requires Shape() && Holds(c) && c < |runs|
      requires forall i :: 0 <= i < |children| && i != c ==> children[i].pos == Past(runs[i], children[c].Current().key)
      ensures AtCuts(at, |children|, None)
    {
      hide IsMerge;
      AtOwnEntry(runs, merged, c, at, children[c].pos);
      forall i | 0 <= i < |children| && i != c
        ensures children[i].pos == Cut(runs[i], merged, at)
      {
        PastIsCut(runs, merged, at, c, i);
      }
    }

    /** Moves every child but the current one to its last entry before the current key. */
    method PositionBefore(c: nat)
      requires Children() && c < |children| && children[c].Valid()
      modifies set i | 0 <= i < |children| && i != c :: children[i]
      ensures Children()
      ensures forall i :: 0 <= i < |children| && i != c ==>
                children[i].pos == JustBefore(runs[i], SeekIndex(runs[i], children[c].Current().key))
    {
      hide IsMerge;
      var key := children[c].Current().key;
      for i := 0 to |children|
        invariant Children() && children[c].Valid() && children[c].Current().key == key
        invariant forall k :: 0 <= k < i && k != c ==> children[k].pos == JustBefore(runs[k], SeekIndex(runs[k], key))
      {
        if i != c {
          children[i].Seek(key);
          if children[i].Valid() {
            children[i].Prev();
          } else {
            children[i].SeekToLast();
          }
        }
      }
    }

    method Next()
      requires Ok() && Valid()
      modifies this, children
      ensures Ok() && at == old(at) + 1
    {
      hide IsMerge;
      var c := current.value;
      if direction != Forward {
        PositionAfter(c);
        PositionedAfter(c);
        direction := Forward;
      }
      Advance(c);
    }

    /** The current child steps to its next entry; all children are then at the next cuts. */
    method Advance(c: nat)
      requires Shape() && Holds(c) && AtCuts(at, |children|, None) && direction == Forward
      modifies this`current, this`at, children
      ensures Ok() && at == old(at) + 1
    {
      hide IsMerge;
      StepOverCurrent(c);
      children[c].Next();
      at := at + 1;
      FindSmallest();
    }

    lemma StepOverCurrent(c: nat)
      requires Shape() && Holds(c)
      ensures children[c].pos + 1 == Cut(runs[c], merged, at + 1)
      ensures forall i :: 0 <= i < |runs| && i != c ==> Cut(runs[i], merged, at + 1) == Cut(runs[i], merged, at)
    {
      hide IsMerge;
      AtOwnEntry(runs, merged, c, at, children[c].pos);
      OwnerAtCut(runs, merged, c, at);
      OthersUnmoved(c, at);
    }

    method Prev()
      requires Ok() && Valid()
      modifies this, children
      ensures Ok() && at == if old(at) == 0 then |merged| else old(at) - 1
    {
      hide IsMerge;
      var c := current.value;
      if direction != Reverse {
        PositionBefore(c);
        assert BeforeCuts(at, |children|, current);
        direction := Reverse;
      }
      AtOwnEntry(runs, merged, c, at, children[c].pos);
      children[c].Prev();
      FindLargest(at);
    }
  }
}
