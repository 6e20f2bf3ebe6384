/** The work of a compaction: what it drops, what it writes, and the level
    cursors of IsBaseLevelForKey (`db/db_impl.cc`, `db/version_set.cc`). */
module Compaction {
  import opened Keys
  import opened Versions
  import Concat

  /** No file of a level past the output level has `u` in its range. */
  ghost predicate IsBase(v: Version, level: nat, u: UserKey) {
    forall l, f :: level + 2 <= l < |v| && f in v[l] ==> !(f.smallest.user <= u <= f.largest.user)
  }

  /** Rule (A): the entry just before has the same user key and every snapshot sees it. */
  predicate Hidden(input: seq<Entry>, snap: nat, i: nat)
    requires i < |input|
  {
    i > 0 && input[i - 1].key.user == input[i].key.user && input[i - 1].key.seqno <= snap
  }

  /** Rule (B): a deletion every snapshot sees, with no data for its key deeper down. */
  ghost predicate Obsolete(v: Version, level: nat, e: Entry, snap: nat) {
    e.key.kind == Deletion && e.key.seqno <= snap && IsBase(v, level, e.key.user)
  }

  ghost predicate Dropped(v: Version, level: nat, input: seq<Entry>, snap: nat, i: nat)
    requires i < |input|
  {
    Hidden(input, snap, i) || Obsolete(v, level, input[i], snap)
  }

  /** What is left of the first `n` input entries. */
  ghost function Kept(v: Version, level: nat, input: seq<Entry>, snap: nat, n: nat): seq<Entry>
    requires n <= |input|
  {
    if n == 0 then []
    else if Dropped(v, level, input, snap, n - 1) then Kept(v, level, input, snap, n - 1)
    else Kept(v, level, input, snap, n - 1) + [input[n - 1]]
  }

  /** The entries of the files, file after file. */
  function EntriesOf(fs: seq<File>): seq<Entry> {
    Concat.Flat(Runs(fs))
  }

  lemma EntriesNext(fs: seq<File>, f: File)
    ensures EntriesOf([]) == [] && EntriesOf(fs + [f]) == EntriesOf(fs) + f.entries
  {
    assert Runs(fs + [f])[..|fs|] == Runs(fs);
  }

  ghost predicate Bounded(f: File) {
    f.entries != [] && f.smallest == f.entries[0].key && f.largest == f.entries[|f.entries| - 1].key
  }

  ghost predicate Numbered(fs: seq<File>, from: nat) {
    forall i :: 0 <= i < |fs| ==> fs[i].number == from + i
  }

  class Compaction {
    const version: Version
    const level: nat
    const levelPtrs: array<nat>

    ghost predicate Valid()
      reads this, levelPtrs
    {
      && Shape(version) && level + 1 < NUM_LEVELS && levelPtrs.Length == NUM_LEVELS
      && forall l :: 0 <= l < NUM_LEVELS ==> levelPtrs[l] <= |version[l]|
    }

    /** The files the cursors have passed all end before `u`. */
    ghost predicate CursorsBefore(u: UserKey)
      requires Valid()
      reads this, levelPtrs
    {
      forall l, k :: level + 2 <= l < NUM_LEVELS && 0 <= k < levelPtrs[l] ==> version[l][k].largest.user < u
    }

    constructor (version: Version, level: nat)
      requires Shape(version) && level + 1 < NUM_LEVELS
      ensures Valid() && fresh(levelPtrs) && this.version == version && this.level == level
      ensures forall l :: 0 <= l < NUM_LEVELS ==> levelPtrs[l] == 0
    {
      this.version := version;
      this.level := level;
      levelPtrs := new nat[NUM_LEVELS](_ => 0);
    }

    /** Cursors that only move forward agree with a full scan, as long as the
        user keys asked about never go back. */
    method IsBaseLevelForKey(u: UserKey) returns (b: bool)
      requires Valid() && CursorsBefore(u)
      modifies levelPtrs
      ensures Valid() && CursorsBefore(u)
      ensures b <==> IsBase(version, level, u)
    {
      for lvl := level + 2 to NUM_LEVELS
        invariant Valid() && CursorsBefore(u)
        invariant forall l, f :: level + 2 <= l < lvl && f in version[l] ==> !(f.smallest.user <= u <= f.largest.user)
      {
        var fs := version[lvl];
        while levelPtrs[lvl] < |fs|
          invariant Valid() && CursorsBefore(u)
          invariant levelPtrs[lvl] == |fs| ==> NoneHolds(fs, u)
          decreases |fs| - levelPtrs[lvl]
        {
          var f := fs[levelPtrs[lvl]];
          if u <= f.largest.user {
            if u >= f.smallest.user {
              assert f in version[lvl];
              return false;
            }
            LaterFilesStartAfter(fs, levelPtrs[lvl], u);
            break;
          }
          levelPtrs[lvl] := levelPtrs[lvl] + 1;
          if levelPtrs[lvl] == |fs| {
            LaterFilesStartAfter(fs, |fs|, u);
          }
        }
        assert NoneHolds(fs, u);
      }
      return true;
    }

    /** The decision for entry `i`, from the key and sequence number remembered
        of the entry before it. */
    method ShouldDrop(input: seq<Entry>, i: nat, snap: nat, currentUserKey: Option<UserKey>, lastSequence: nat)
      returns (drop: bool)
      requires Valid() && i < |input| && Sorted(input) && snap < MAX_SEQUENCE
      requires i > 0 ==> currentUserKey == Some(input[i - 1].key.user) && lastSequence == input[i - 1].key.seqno
      requires i == 0 ==> currentUserKey == None
      requires CursorsBefore(input[i].key.user)
      modifies levelPtrs
      ensures Valid() && CursorsBefore(input[i].key.user)
      ensures drop <==> Dropped(version, level, input, snap, i)
    {
      var e := input[i];
      var lastSequenceForKey := lastSequence;
      if currentUserKey != Some(e.key.user) {
        lastSequenceForKey := MAX_SEQUENCE;
      }
      drop := false;
      if lastSequenceForKey <= snap {
        drop := true;
      } else if e.key.kind == Deletion && e.key.seqno <= snap {
        drop := IsBaseLevelForKey(e.key.user);
      }
    }

    /** The drop loop. `stopBefore` and `full` say where ShouldStopBefore and the
        size limit close an output file; they can be anything. */
    method DoCompactionWork(input: seq<Entry>, snap: nat, nextFile: nat,
                            stopBefore: nat -> bool, full: nat -> bool, sizeOf: seq<Entry> -> nat)
      returns (outs: seq<File>)
      requires Valid() && forall l :: 0 <= l < NUM_LEVELS ==> levelPtrs[l] == 0
      requires Sorted(input) && snap < MAX_SEQUENCE
      modifies levelPtrs
      ensures EntriesOf(outs) == Kept(version, level, input, snap, |input|)
      ensures forall e :: e in EntriesOf(outs) <==> e in input && Needed(version, level, Elems(input), snap, e)
      ensures (forall f :: f in outs ==> Bounded(f)) && Numbered(outs, nextFile)
    {
      var w := Output([], None);
      var currentUserKey: Option<UserKey> := None;
      var lastSequenceForKey := MAX_SEQUENCE;
      for i := 0 to |input|
        invariant Valid()
        invariant i > 0 ==> currentUserKey == Some(input[i - 1].key.user) && lastSequenceForKey == input[i - 1].key.seqno
        invariant i == 0 ==> currentUserKey == None
        invariant i < |input| ==> CursorsBefore(input[i].key.user)
        invariant w.Written() == Kept(version, level, input, snap, i)
        invariant w.Ok(nextFile)
      {
        if stopBefore(i) {
          w := w.Finish(nextFile, sizeOf);
        }
        var drop := ShouldDrop(input, i, snap, currentUserKey, lastSequenceForKey);
        currentUserKey, lastSequenceForKey := Some(input[i].key.user), input[i].key.seqno;
        if !drop {
          w := w.Add(nextFile, input[i]);
          if full(i) {
            w := w.Finish(nextFile, sizeOf);
          }
        }
        if i + 1 < |input| {
          assert Before(input[i].key, input[i + 1].key);
        }
      }
      w := w.Finish(nextFile, sizeOf);
      outs := w.outs;
      forall e
        ensures e in EntriesOf(outs) <==> e in input && Needed(version, level, Elems(input), snap, e)
      {
        KeptExactly(version, level, input, snap, e);
      }
    }
  }

  /** The output files written so far and the one still open. */
  datatype Output = Output(outs: seq<File>, builder: Option<File>) {

    function Written(): seq<Entry> {
      EntriesOf(outs) + if builder.Some? then builder.value.entries else []
    }

    ghost predicate Ok(nextFile: nat) {
      && Numbered(outs, nextFile) && (forall f :: f in outs ==> Bounded(f))
      && (builder.Some? ==> Bounded(builder.value) && builder.value.number == nextFile + |outs|)
    }

    /** Opens an output when there is none, and appends the entry to it. */
    function Add(nextFile: nat, e: Entry): (w: Output)
      requires Ok(nextFile)
      ensures w.Ok(nextFile) && w.Written() == Written() + [e]
    {
      match builder
      case None => Output(outs, Some(File(nextFile + |outs|, 0, e.key, e.key, [e])))
      case Some(f) => Output(outs, Some(f.(largest := e.key, entries := f.entries + [e])))
    }

    /** FinishCompactionOutputFile, when there is an open output. */
    function Finish(nextFile: nat, sizeOf: seq<Entry> -> nat): (w: Output)
      requires Ok(nextFile)
      ensures w.Ok(nextFile) && w.Written() == Written() && w.builder == None
    {
      match builder
      case None => this
      case Some(f) =>
        EntriesNext(outs, f.(size := sizeOf(f.entries)));
        Output(outs + [f.(size := sizeOf(f.entries))], None)
    }
  }

  ghost predicate NoneHolds(fs: seq<File>, u: UserKey) {
    forall f :: f in fs ==> !(f.smallest.user <= u <= f.largest.user)
  }

  /** Past files ended before `u` and the file at the cursor starts after it. */
  lemma LaterFilesStartAfter(fs: seq<File>, k: nat, u: UserKey)
    requires WfFiles(fs) && Disjoint(fs) && k <= |fs|
    requires forall j :: 0 <= j < k ==> fs[j].largest.user < u
    requires k < |fs| ==> u < fs[k].smallest.user
    ensures NoneHolds(fs, u)
  {
    forall j | k < j < |fs|
      ensures u < fs[j].smallest.user
    {
      BoundsOrdered(fs[k]);
      assert Before(fs[k].largest, fs[j].smallest);
    }
  }

  // ----- what the drop loop keeps

  lemma {:induction false} KeptHolds(v: Version, level: nat, input: seq<Entry>, snap: nat, n: nat, e: Entry)
    requires n <= |input|
    ensures e in Kept(v, level, input, snap, n)
       <==> exists i :: 0 <= i < n && input[i] == e && !Dropped(v, level, input, snap, i)
  {
    if n > 0 {
      KeptHolds(v, level, input, snap, n - 1, e);
    }
  }

  lemma {:induction false} KeptIsSorted(v: Version, level: nat, input: seq<Entry>, snap: nat, n: nat)
    requires Sorted(input) && n <= |input|
    ensures Sorted(Kept(v, level, input, snap, n))
  {
    if n > 0 {
      KeptIsSorted(v, level, input, snap, n - 1);
      var before := Kept(v, level, input, snap, n - 1);
      forall k | 0 <= k < |before|
        ensures Before(before[k].key, input[n - 1].key)
      {
        KeptHolds(v, level, input, snap, n - 1, before[k]);
      }
    }
  }

  /** Between two entries of one user key there are only entries of that key. */
  lemma SameUserBetween(input: seq<Entry>, i: nat, k: nat, j: nat)
    requires Sorted(input) && i <= k <= j < |input| && input[i].key.user == input[j].key.user
    ensures input[k].key.user == input[i].key.user && input[k].key.seqno <= input[i].key.seqno
  {
    if i < k {
      assert Before(input[i].key, input[k].key);
    }
    if k < j {
      assert Before(input[k].key, input[j].key);
    }
  }

  /** Every read at or above the snapshot sees, among the inputs, the same newest
      entry before and after the drop loop, unless that entry is an obsolete
      deletion: then it sees nothing afterwards. */
  lemma DropLoopKeepsReads(v: Version, level: nat, input: seq<Entry>, snap: nat, u: UserKey, s: nat, m: Option<Entry>)
    requires Sorted(input) && snap <= s && IsNewest(Elems(input), u, s, m)
    ensures var kept := Elems(Kept(v, level, input, snap, |input|));
            if m.Some? && m.value !in kept then Obsolete(v, level, m.value, snap) && IsNewest(kept, u, s, None)
            else IsNewest(kept, u, s, m)
  {
    var kept := Elems(Kept(v, level, input, snap, |input|));
    forall e | e in kept
      ensures e in input
    {
      KeptHolds(v, level, input, snap, |input|, e);
    }
    if m.Some? && m.value !in kept {
      var i :| 0 <= i < |input| && input[i] == m.value;
      KeptHolds(v, level, input, snap, |input|, m.value);
      if i > 0 {
        assert Before(input[i - 1].key, input[i].key);
      }
      assert Obsolete(v, level, m.value, snap);
      forall e | e in kept
        ensures !Sees(e, u, s)
      {
        KeptHolds(v, level, input, snap, |input|, e);
        var j :| 0 <= j < |input| && input[j] == e && !Dropped(v, level, input, snap, j);
        if Sees(e, u, s) {
          OlderIsHidden(input, snap, i, j);
        }
      }
    }
  }

  /** An entry that comes after one of its user key that every snapshot sees is hidden. */
  lemma OlderIsHidden(input: seq<Entry>, snap: nat, i: nat, j: nat)
    requires Sorted(input) && i < |input| && j < |input|
    requires input[i].key.user == input[j].key.user && input[i].key.seqno <= snap
    requires Tag(input[j].key) <= Tag(input[i].key) && i != j
    ensures Hidden(input, snap, j)
  {
    if i < j {
      SameUserBetween(input, i, j - 1, j);
    }
  }

  // ----- exactly what the outputs hold

  /** Some file past the output level has `u` in its range. */
  ghost predicate HeldDeeper(v: Version, level: nat, u: UserKey) {
    exists l, f :: level + 2 <= l < |v| && f in v[l] && f.smallest.user <= u <= f.largest.user
  }

  /** No newer input entry of its user key is visible to all readers, and it is not a
      deletion that is visible to all readers and hides nothing deeper down. */
  ghost predicate Needed(v: Version, level: nat, es: set<Entry>, snap: nat, e: Entry) {
    && (forall x :: x in es && x.key.user == e.key.user && Tag(x.key) > Tag(e.key) ==> x.key.seqno > snap)
    && (e.key.kind == Deletion ==> e.key.seqno > snap || HeldDeeper(v, level, e.key.user))
  }

  /** The outputs hold exactly the input entries that are needed. */
  lemma KeptExactly(v: Version, level: nat, input: seq<Entry>, snap: nat, e: Entry)
    requires Sorted(input)
    ensures e in Kept(v, level, input, snap, |input|) <==> e in input && Needed(v, level, Elems(input), snap, e)
  {
    KeptHolds(v, level, input, snap, |input|, e);
    if e in input {
      var i :| 0 <= i < |input| && input[i] == e;
      HiddenExactly(input, snap, i);
      forall j | 0 <= j < |input| && input[j] == e
        ensures j == i
      {
        assert j < i ==> Before(input[j].key, input[i].key);
        assert i < j ==> Before(input[i].key, input[j].key);
      }
      assert Obsolete(v, level, e, snap) <==> e.key.kind == Deletion && e.key.seqno <= snap && !HeldDeeper(v, level, e.key.user);
    }
  }

  /** Rule (A), which looks at the entry just before, speaks of all newer ones. */
  lemma HiddenExactly(input: seq<Entry>, snap: nat, i: nat)
    requires Sorted(input) && i < |input|
    ensures Hidden(input, snap, i)
       <==> exists x :: x in input && x.key.user == input[i].key.user && Tag(x.key) > Tag(input[i].key) && x.key.seqno <= snap
  {
    if Hidden(input, snap, i) {
      assert Before(input[i - 1].key, input[i].key) && input[i - 1] in input;
    }
    if x :| x in input && x.key.user == input[i].key.user && Tag(x.key) > Tag(input[i].key) && x.key.seqno <= snap {
      var j :| 0 <= j < |input| && input[j] == x;
      OlderIsHidden(input, snap, j, i);
    }
  }

  /** Two entries of a user key do not share a sequence number. */
  ghost predicate NumberedOnce(es: set<Entry>) {
    forall x, y :: x in es && y in es && x.key.user == y.key.user && x.key.seqno == y.key.seqno ==> x == y
  }

  /** A reader at some number from the snapshot on finds this entry. */
  ghost predicate FoundFrom(es: set<Entry>, snap: nat, e: Entry) {
    exists s: nat :: snap <= s && IsNewest(es, e.key.user, s, Some(e))
  }

  /** The same by reads: an input entry is written if and only if some reader from the
      oldest snapshot on finds it among the inputs, and it is not a deletion that all
      of them see while no file deeper down can hold its user key. */
  lemma KeptByReads(v: Version, level: nat, input: seq<Entry>, snap: nat, e: Entry)
    requires Sorted(input) && NumberedOnce(Elems(input))
    ensures e in Kept(v, level, input, snap, |input|)
       <==> e in input && FoundFrom(Elems(input), snap, e)
            && !(e.key.kind == Deletion && (forall s: nat :: snap <= s ==> Sees(e, e.key.user, s))
                 && forall l, f :: level + 2 <= l < |v| && f in v[l] ==> !(f.smallest.user <= e.key.user <= f.largest.user))
  {
    KeptExactly(v, level, input, snap, e);
    FoundExactly(Elems(input), snap, e);
    assert (forall s: nat :: snap <= s ==> Sees(e, e.key.user, s)) <==> e.key.seqno <= snap by {
      assert Sees(e, e.key.user, snap) <==> e.key.seqno <= snap;
    }
  }

  lemma FoundExactly(es: set<Entry>, snap: nat, e: Entry)
    requires NumberedOnce(es)
    ensures FoundFrom(es, snap, e)
       <==> e in es && forall x :: x in es && x.key.user == e.key.user && Tag(x.key) > Tag(e.key) ==> x.key.seqno > snap
  {
    if e in es && forall x :: x in es && x.key.user == e.key.user && Tag(x.key) > Tag(e.key) ==> x.key.seqno > snap {
      var s := if e.key.seqno < snap then snap else e.key.seqno;
      assert IsNewest(es, e.key.user, s, Some(e));
    }
  }

  // ----- the files written

  lemma {:induction false} EntriesHold(fs: seq<File>, e: Entry)
    ensures e in EntriesOf(fs) <==> exists f :: f in fs && e in f.entries
  {
    if fs != [] {
      var init, last := fs[..|fs| - 1], fs[|fs| - 1];
      assert fs == init + [last];
      EntriesNext(init, last);
      EntriesHold(init, e);
    }
  }

  /** Cutting a sorted run into nonempty files gives well-formed, disjoint files. */
  lemma {:induction false} CutIsDisjoint(fs: seq<File>)
    requires (forall f :: f in fs ==> Bounded(f)) && Sorted(EntriesOf(fs))
    requires forall e :: e in EntriesOf(fs) ==> e.key.seqno <= MAX_SEQUENCE
    ensures WfFiles(fs) && Disjoint(fs)
  {
    if fs != [] {
      var init, last := fs[..|fs| - 1], fs[|fs| - 1];
      assert fs == init + [last];
      EntriesNext(init, last);
      SortedParts(EntriesOf(init), last.entries);
      CutIsDisjoint(init);
      forall i | 0 <= i < |init|
        ensures Before(init[i].largest, last.smallest)
      {
        EndsBeforeLast(init, last, init[i]);
      }
    }
  }

  lemma EndsBeforeLast(init: seq<File>, last: File, f: File)
    requires f in init && Bounded(f) && Bounded(last) && Sorted(EntriesOf(init) + last.entries)
    ensures Before(f.largest, last.smallest)
  {
    var e := f.entries[|f.entries| - 1];
    EntriesHold(init, e);
    var all := EntriesOf(init) + last.entries;
    var k :| 0 <= k < |EntriesOf(init)| && EntriesOf(init)[k] == e;
    assert all[k] == e && all[|EntriesOf(init)|] == last.entries[0];
  }

  lemma EntriesElems(fs: seq<File>)
    ensures LevelElems(fs) == Elems(EntriesOf(fs))
  {
    forall e
      ensures e in LevelElems(fs) <==> e in Elems(EntriesOf(fs))
    {
      EntriesHold(fs, e);
    }
  }

  lemma SortedParts(a: seq<Entry>, b: seq<Entry>)
    requires Sorted(a + b)
    ensures Sorted(a) && Sorted(b)
  {
    assert forall i :: 0 <= i < |a| ==> (a + b)[i] == a[i];
    assert forall i :: 0 <= i < |b| ==> (a + b)[|a| + i] == b[i];
  }
}
