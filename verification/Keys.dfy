/** Internal keys and their order (`db/dbformat.h`, `db/dbformat.cc`).

    The levels and the cursors of the engine touch a user key only through the
    Comparator, so here a user key is its place in the comparator's order.
    Module Comparator proves that byte strings under the built-in bytewise
    comparator embed into that order, and works with the bytes themselves. */
module Keys {

  /** A user key, as its place in the comparator's total order. */
  type UserKey = real

  type Byte = b: int | 0 <= b < 256

  type Bytes = seq<Byte>

  lemma ConcatAssoc(a: Bytes, b: Bytes, c: Bytes)
    ensures a + b + c == a + (b + c)
  {
  }

  lemma SliceOfSlice(s: Bytes, a: nat, b: nat, c: nat, d: nat)
    requires c <= d && a + d <= b <= |s|
    ensures s[a..b][c..d] == s[a + c..a + d]
  {
    forall i | 0 <= i < d - c
      ensures s[a..b][c..d][i] == s[a + c..a + d][i]
    {
      assert s[a..b][c + i] == s[a + c + i];
    }
  }

  ghost predicate NoRepeats<T>(s: seq<T>) {
    forall i, j :: 0 <= i < j < |s| ==> s[i] != s[j]
  }

  datatype Option<+T> = None | Some(value: T)

  datatype ValueType = Deletion | Value

  /** A parsed internal key. */
  datatype IKey = IKey(user: UserKey, seqno: nat, kind: ValueType)

  /** One stored entry. A deletion stores an empty value. */
  datatype Entry = Entry(key: IKey, value: Bytes)

  const MAX_SEQUENCE: nat := 0xFF_FFFF_FFFF_FFFF

  const NUM_LEVELS: nat := 7

  /** The sequence number and the type, packed as the last eight bytes store them. */
  function Tag(k: IKey): nat {
    k.seqno * 256 + (if k.kind == Value then 1 else 0)
  }

  /** Increasing user key, then decreasing packed sequence number and type. */
  predicate Before(a: IKey, b: IKey) {
    a.user < b.user || (a.user == b.user && Tag(a) > Tag(b))
  }

  predicate AtOrBefore(a: IKey, b: IKey) {
    a == b || Before(a, b)
  }

  /** The key a read of `u` at sequence number `s` seeks to. */
  function SeekKey(u: UserKey, s: nat): IKey {
    IKey(u, s, Value)
  }

  /** Two keys are the same key exactly when neither comes before the other. */
  lemma OrderIsTotal(a: IKey, b: IKey)
    ensures Before(a, b) || Before(b, a) || a == b
    ensures !(Before(a, b) && Before(b, a)) && !Before(a, a)
  {
    if a.user == b.user && Tag(a) == Tag(b) {
      assert a.seqno == b.seqno;
    }
  }

  /** Strictly increasing in the internal key order. */
  ghost predicate Sorted(es: seq<Entry>) {
    forall i, j :: 0 <= i < j < |es| ==> Before(es[i].key, es[j].key)
  }

  ghost function Elems(es: seq<Entry>): set<Entry> {
    set e | e in es
  }

  /** The entry `e` can be seen by a read of `u` at sequence number `s`. */
  predicate Sees(e: Entry, u: UserKey, s: nat) {
    e.key.user == u && e.key.seqno <= s
  }

  /** What a read must find among `es`: the visible entry with the greatest tag. */
  ghost predicate IsNewest(es: set<Entry>, u: UserKey, s: nat, r: Option<Entry>) {
    match r
    case None => forall e :: e in es ==> !Sees(e, u, s)
    case Some(n) =>
      && n in es && Sees(n, u, s)
      && forall e :: e in es && Sees(e, u, s) ==> Tag(e.key) <= Tag(n.key)
  }

  /** Some answer is always the newest one. */
  lemma {:induction false} NewestExists(es: set<Entry>, u: UserKey, s: nat) returns (r: Option<Entry>)
    ensures IsNewest(es, u, s, r)
    decreases |es|
  {
    if e :| e in es {
      var rest := NewestExists(es - {e}, u, s);
      if !Sees(e, u, s) || (rest.Some? && Tag(e.key) <= Tag(rest.value.key)) {
        r := rest;
      } else {
        r := Some(e);
      }
      assert forall x :: x in es ==> x == e || x in es - {e};
    } else {
      r := None;
    }
  }

  /** No two different entries share an internal key. */
  ghost predicate DistinctKeys(es: set<Entry>) {
    forall a, b :: a in es && b in es && a.key == b.key ==> a == b
  }

  /** With distinct keys the newest entry is unique. */
  lemma NewestIsUnique(es: set<Entry>, u: UserKey, s: nat, r: Option<Entry>, r': Option<Entry>)
    requires DistinctKeys(es) && IsNewest(es, u, s, r) && IsNewest(es, u, s, r')
    ensures r == r'
  {
    if r.Some? && r'.Some? {
      OrderIsTotal(r.value.key, r'.value.key);
    }
  }

  /** What the caller of Get learns: a value, or nothing. */
  function Answer(r: Option<Entry>): Option<Bytes> {
    if r.Some? && r.value.key.kind == Value then Some(r.value.value) else None
  }

  /** For each user key, everything in `a` is newer than everything in `b`. */
  ghost predicate Newer(a: set<Entry>, b: set<Entry>) {
    forall x, y :: x in a && y in b && x.key.user == y.key.user ==> Tag(x.key) > Tag(y.key)
  }

  /** Reading the newer part first and falling back to the older part reads the union. */
  lemma NewestOfUnion(a: set<Entry>, b: set<Entry>, u: UserKey, s: nat, ra: Option<Entry>, rb: Option<Entry>)
    requires Newer(a, b)
    requires IsNewest(a, u, s, ra) && IsNewest(b, u, s, rb)
    ensures IsNewest(a + b, u, s, if ra.Some? then ra else rb)
  {
  }

  /** In a sorted run the first entry at or after the seek key, if it has the
      user key sought, is the newest visible one; if it has not, none is visible. */
  lemma SeekFindsNewest(es: seq<Entry>, u: UserKey, s: nat, i: nat)
    requires Sorted(es) && i <= |es|
    requires forall k :: 0 <= k < i ==> Before(es[k].key, SeekKey(u, s))
    requires i < |es| ==> !Before(es[i].key, SeekKey(u, s))
    ensures IsNewest(Elems(es), u, s,
                     if i < |es| && es[i].key.user == u then Some(es[i]) else None)
  {
    forall e | e in es && Sees(e, u, s)
      ensures i < |es| && es[i].key.user == u && Tag(e.key) <= Tag(es[i].key)
    {
      var j :| 0 <= j < |es| && es[j] == e;
      assert !Before(e.key, SeekKey(u, s));
      assert i <= j;
      if i < j {
        assert Before(es[i].key, es[j].key);
      }
    }
  }

  /** A read of one run, a memtable or a table: seek to the lookup key, and keep the
      entry if the user key matches. */
  function RunGet(es: seq<Entry>, u: UserKey, s: nat): Option<Entry> {
    var i := SeekIndex(es, SeekKey(u, s));
    if i < |es| && es[i].key.user == u then Some(es[i]) else None
  }

  lemma RunGetIsNewest(es: seq<Entry>, u: UserKey, s: nat)
    requires Sorted(es)
    ensures IsNewest(Elems(es), u, s, RunGet(es, u, s))
  {
    SeekFindsNewest(es, u, s, SeekIndex(es, SeekKey(u, s)));
  }

  /** Where a seek in a run stops: the first entry that is not before `k`. */
  function SeekIndex(es: seq<Entry>, k: IKey): (i: nat)
    ensures i <= |es|
    ensures forall j :: 0 <= j < i ==> Before(es[j].key, k)
    ensures i < |es| ==> !Before(es[i].key, k)
  {
    if es == [] || !Before(es[0].key, k) then 0 else 1 + SeekIndex(es[1..], k)
  }

  /** A sorted run with one entry put where a seek to its key stops. */
  function Inserted(es: seq<Entry>, e: Entry): seq<Entry> {
    var i := SeekIndex(es, e.key);
    es[..i] + [e] + es[i..]
  }

  lemma InsertedElems(es: seq<Entry>, e: Entry)
    ensures Elems(Inserted(es, e)) == Elems(es) + {e}
  {
    var i := SeekIndex(es, e.key);
    assert es == es[..i] + es[i..];
    assert forall x :: x in es <==> x in es[..i] || x in es[i..];
  }

  lemma InsertedIsSorted(es: seq<Entry>, e: Entry)
    requires Sorted(es) && forall x :: x in es ==> x.key != e.key
    ensures Sorted(Inserted(es, e))
  {
    var i := SeekIndex(es, e.key);
    forall j | i <= j < |es|
      ensures Before(e.key, es[j].key)
    {
      OrderIsTotal(es[i].key, e.key);
      if i < j {
        assert Before(es[i].key, es[j].key);
      }
    }
    var r := Inserted(es, e);
    assert forall j :: 0 <= j < |r| ==> r[j] == if j < i then es[j] else if j == i then e else es[j - 1];
  }

  /** A set of entries with distinct keys has a sorted listing. */
  lemma {:induction false} SortedListing(es: set<Entry>) returns (r: seq<Entry>)
    requires DistinctKeys(es)
    ensures Sorted(r) && Elems(r) == es
    decreases |es|
  {
    if e :| e in es {
      var rest := SortedListing(es - {e});
      forall x | x in rest
        ensures x.key != e.key
      {
        assert x in Elems(rest);
      }
      InsertedIsSorted(rest, e);
      InsertedElems(rest, e);
      r := Inserted(rest, e);
      assert es == (es - {e}) + {e};
    } else {
      r := [];
      assert Elems(r) == {};
    }
  }

  /** Sorted runs with the same entries are the same. */
  lemma {:induction false} SortedSame(a: seq<Entry>, b: seq<Entry>)
    requires Sorted(a) && Sorted(b) && Elems(a) == Elems(b)
    ensures a == b
  {
    EmptyElems(a);
    EmptyElems(b);
    if a != [] {
      FirstOfSorted(a, b);
      FirstOfSorted(b, a);
      RestOfSorted(a);
      RestOfSorted(b);
      SortedSame(a[1..], b[1..]);
      assert a == [a[0]] + a[1..] && b == [b[0]] + b[1..];
    }
  }

  lemma EmptyElems(s: seq<Entry>)
    ensures s == [] <==> Elems(s) == {}
  {
    if s != [] {
      assert s[0] in Elems(s);
    }
  }

  lemma FirstOfSorted(a: seq<Entry>, b: seq<Entry>)
    requires Sorted(a) && Sorted(b) && Elems(a) == Elems(b) && a != [] && b != []
    ensures a[0] == b[0]
  {
    assert a[0] in Elems(b) && b[0] in Elems(a);
    var i :| 0 <= i < |b| && b[i] == a[0];
    var j :| 0 <= j < |a| && a[j] == b[0];
    OrderIsTotal(a[0].key, b[0].key);
  }

  lemma RestOfSorted(a: seq<Entry>)
    requires Sorted(a) && a != []
    ensures Sorted(a[1..]) && Elems(a[1..]) == Elems(a) - {a[0]}
  {
    forall x
      ensures x in Elems(a[1..]) <==> x in Elems(a) && x != a[0]
    {
      if x in a && x != a[0] {
        var k :| 0 <= k < |a| && a[k] == x;
        assert a[1..][k - 1] == x;
      }
      if x in a[1..] {
        var k :| 0 <= k < |a[1..]| && a[1..][k] == x;
        OrderIsTotal(a[0].key, a[k + 1].key);
      }
    }
  }
}
