/** DBImpl (`db/db_impl.cc`): the methods that change the store. Each one takes a
    step of the state machine of module Lsm, so module LsmTheorem speaks about
    every run of them. */
module DbImpl {
  import opened Keys
  import opened Versions
  import opened VersionBuilder
  import opened InputSelection
  import opened CompactionInputs
  import opened CompactionStep
  import opened CompactionTheorem
  import opened Lsm
  import opened LsmTheorem
  import Replay
  import Compaction
  import Cursor
  import Merger

  // ----- flushing

  /** What one new file does to each level. */
  lemma LevelAfterAdding(v: Version, level: nat, f: File, l: nat)
    requires level < |v| && l < |v|
    ensures ApplyEdit(v, Edit({}, [(level, f)]))[l] == SavedLevel(v[l], AddAll(LevelState({}, []), if l == level then [f] else []))
  {
    hide SavedLevel, AddAll, Adds;
    var edit := Edit({}, [(level, f)]);
    assert edit.added == Additions(level, [f]);
    AddsOfAdditions(level, [f], l);
    assert Deletes(edit, l) == {};
    assert LevelState({}, []).(deleted := {} + {}) == LevelState({}, []);
  }

  /** Installing one new file puts it into its level and changes nothing else. */
  lemma AddingJoins(v: Version, level: nat, f: File)
    requires Inv(v) && level < |v| && NumbersBelow(v, f.number)
    ensures Joined(v, ApplyEdit(v, Edit({}, [(level, f)])), level, f)
  {
    hide ApplyEdit, SavedLevel, BySmallest;
    forall l | 0 <= l < |v| && l != level
      ensures ApplyEdit(v, Edit({}, [(level, f)]))[l] == v[l]
    {
      LevelAfterAdding(v, level, f, l);
      SavedAsItWas(v[l]);
    }
    LevelAfterAdding(v, level, f, level);
    assert Numbers([]) == {};
    SavedWithNew(v[level], [], [f]);
  }

  lemma SavedAsItWas(fs: seq<File>)
    ensures SavedLevel(fs, AddAll(LevelState({}, []), [])) == fs
  {
    NothingToSave(fs, 0);
  }

  // ----- merging the inputs of a compaction

  /** Different files of one level share no internal key. */
  lemma FilesOfLevelShareNoKey(fs: seq<File>, f: File, g: File, a: Entry, b: Entry)
    requires WfFiles(fs) && (Disjoint(fs) || NumberedByAge(fs)) && f in fs && g in fs && f != g
    requires a in f.entries && b in g.entries
    ensures a.key != b.key
  {
    if Disjoint(fs) {
      FilesApart(fs, f, g, a, b);
    } else {
      assert f.number != g.number;
      assert a in Elems(f.entries) && b in Elems(g.entries);
      assert Newer(Elems(f.entries), Elems(g.entries)) || Newer(Elems(g.entries), Elems(f.entries));
    }
  }

  lemma FilesApart(fs: seq<File>, f: File, g: File, a: Entry, b: Entry)
    requires WfFiles(fs) && Disjoint(fs) && f in fs && g in fs && f != g && a in f.entries && b in g.entries
    ensures a.key != b.key
  {
    var i :| 0 <= i < |fs| && fs[i] == f;
    var j :| 0 <= j < |fs| && fs[j] == g;
    InBounds(f, a);
    InBounds(g, b);
    if i < j {
      assert Before(f.largest, g.smallest);
    } else {
      assert Before(g.largest, f.smallest);
    }
  }

  /** Different input files share no internal key. */
  lemma InputsShareNoKey(fs0: seq<File>, fs1: seq<File>, in0: seq<File>, in1: seq<File>, i: nat, j: nat, a: Entry, b: Entry)
    requires WfFiles(fs0) && WfFiles(fs1) && (Disjoint(fs0) || NumberedByAge(fs0)) && Disjoint(fs1)
    requires Newer(LevelElems(fs0), LevelElems(fs1))
    requires (forall f :: f in in0 ==> f in fs0) && (forall f :: f in in1 ==> f in fs1) && NoRepeats(in0) && NoRepeats(in1)
    requires i < j < |in0 + in1| && a in (in0 + in1)[i].entries && b in (in0 + in1)[j].entries
    ensures a.key != b.key
  {
    if j < |in0| {
      FilesOfLevelShareNoKey(fs0, in0[i], in0[j], a, b);
    } else if |in0| <= i {
      assert in1[i - |in0|] in in1 && in1[j - |in0|] in in1;
      FilesOfLevelShareNoKey(fs1, in1[i - |in0|], in1[j - |in0|], a, b);
    } else {
      assert in0[i] in in0 && in1[j - |in0|] in in1;
      InLevel(fs0, in0[i], a);
      InLevel(fs1, in1[j - |in0|], b);
    }
  }

  lemma InputsDistinct(v: Version, level: nat, in0: seq<File>, in1: seq<File>)
    requires Inv(v) && level + 1 < |v| && FromLevels(v, level, in0, in1)
    ensures DistinctKeys(Inputs(in0, in1))
  {
    VersionKeysDistinct(v);
    forall e | e in Inputs(in0, in1)
      ensures e in VersionElems(v)
    {
      InputInVersion(v, level, in0, in1, e);
    }
    hide *;
    FewerDistinct(Inputs(in0, in1), VersionElems(v));
  }

  lemma InputInVersion(v: Version, level: nat, in0: seq<File>, in1: seq<File>, e: Entry)
    requires level + 1 < |v| && FromLevels(v, level, in0, in1) && e in Inputs(in0, in1)
    ensures e in VersionElems(v)
  {
    assert e in LevelElems(v[level]) || e in LevelElems(v[level + 1]);
  }

  lemma FewerDistinct(a: set<Entry>, b: set<Entry>)
    requires DistinctKeys(b) && forall e :: e in a ==> e in b
    ensures DistinctKeys(a)
  {
  }

  /** The inputs can be merged: sorted runs that share no key. */
  lemma InputsMerge(v: Version, level: nat, in0: seq<File>, in1: seq<File>) returns (merged: seq<Entry>)
    requires Inv(v) && level + 1 < |v| && FromLevels(v, level, in0, in1) && NoRepeats(in0) && NoRepeats(in1)
    ensures Merger.IsMerge(Runs(in0 + in1), merged) && Sorted(merged) && Elems(merged) == Inputs(in0, in1)
  {
    InputsDistinct(v, level, in0, in1);
    assert Newer(LevelElems(v[level]), LevelElems(v[level + 1]));
    merged := SortedListing(Inputs(in0, in1));
    var fs := in0 + in1;
    forall i, j, a, b | 0 <= i < j < |fs| && a in fs[i].entries && b in fs[j].entries
      ensures a.key != b.key
    {
      InputsShareNoKey(v[level], v[level + 1], in0, in1, i, j, a, b);
    }
    assert WfFiles(fs);
    ListingMerges(in0, in1, merged);
  }

  /** A sorted listing of what the files hold is their merge. */
  lemma ListingMerges(in0: seq<File>, in1: seq<File>, merged: seq<Entry>)
    requires Sorted(merged) && Elems(merged) == Inputs(in0, in1) && WfFiles(in0 + in1)
    requires forall i, j, a, b :: 0 <= i < j < |in0 + in1| && a in (in0 + in1)[i].entries && b in (in0 + in1)[j].entries ==>
               a.key != b.key
    ensures Merger.IsMerge(Runs(in0 + in1), merged)
  {
    var fs, runs := in0 + in1, Runs(in0 + in1);
    assert forall i :: 0 <= i < |fs| ==> runs[i] == fs[i].entries && WfFile(fs[i]);
    forall e
      ensures e in merged <==> exists i :: 0 <= i < |runs| && e in runs[i]
    {
      InputFile(in0, in1, e);
      assert e in merged <==> e in Elems(merged);
    }
    forall i, j, a: Entry, b: Entry | 0 <= i < |runs| && 0 <= j < |runs| && i != j && a in runs[i] && b in runs[j]
      ensures a.key != b.key
    {
      if i < j {
        assert a in fs[i].entries && b in fs[j].entries;
      } else {
        assert b in fs[j].entries && a in fs[i].entries;
      }
    }
    assert Merger.IsMerge(runs, merged);
  }

  lemma InputFile(in0: seq<File>, in1: seq<File>, e: Entry)
    ensures e in Inputs(in0, in1) <==> exists i :: 0 <= i < |in0 + in1| && e in (in0 + in1)[i].entries
  {
    var fs := in0 + in1;
    if e in LevelElems(in0) {
      var f :| f in in0 && e in f.entries;
      var i :| 0 <= i < |in0| && in0[i] == f;
      assert e in fs[i].entries;
    }
    if e in LevelElems(in1) {
      var f :| f in in1 && e in f.entries;
      var i :| 0 <= i < |in1| && in1[i] == f;
      assert fs[|in0| + i] == f;
    }
  }

  /** One cursor per input file. */
  method NewIterators(fs: seq<File>) returns (its: seq<Cursor.Iterator>)
    requires WfFiles(fs)
    ensures |its| == |fs| && (forall i :: 0 <= i < |its| ==> fresh(its[i]))
    ensures forall i, j :: 0 <= i < j < |its| ==> its[i] != its[j]
    ensures forall i :: 0 <= i < |its| ==> its[i].Ok() && its[i].run == fs[i].entries && !its[i].Valid()
  {
    hide DbInv;
    its := [];
    for k := 0 to |fs|
      invariant |its| == k && forall i :: 0 <= i < k ==> fresh(its[i])
      invariant forall i, j :: 0 <= i < j < k ==> its[i] != its[j]
      invariant forall i :: 0 <= i < k ==> its[i].Ok() && its[i].run == fs[i].entries && !its[i].Valid()
    {
      assert WfFile(fs[k]);
      var it := new Cursor.Iterator(fs[k].entries);
      its := its + [it];
    }
  }

  /** Reads a merging iterator from its first entry to its last. */
  method Drain(it: Merger.MergingIterator) returns (input: seq<Entry>)
    requires it.Ok()
    modifies it, it.children
    ensures input == it.merged
  {
    hide Merger.IsMerge;
    it.OkFacts();
    hide Merger.MergingIterator.Ok, Merger.MergingIterator.Shape;
    input := [];
    it.SeekToFirst();
    it.OkFacts();
    while it.Valid()
      invariant it.Ok() && (it.Valid() <==> it.at < |it.merged|) && it.at <= |it.merged|
      invariant input == it.merged[..it.at]
      decreases |it.merged| - it.at
    {
      var e := it.Current();
      input := input + [e];
      it.Next();
      it.OkFacts();
    }
  }

  /** MakeInputIterator, and the scan of it. */
  method ReadInputs(fs: seq<File>, ghost merged: seq<Entry>) returns (input: seq<Entry>)
    requires WfFiles(fs) && Merger.IsMerge(Runs(fs), merged)
    ensures input == merged
  {
    var its := NewIterators(fs);
    var it := new Merger.MergingIterator(its, Runs(fs), merged);
    input := Drain(it);
  }

  // ----- the engine

  /** A step of the machine; a compaction may still meet the hazard of CompactionTheorem. */
  ghost predicate Takes(d: Db, d': Db, step: Action) {
    match step
    case Compact(level, in0, in1, outs, input, snap) => CompactStep(d, d', level, in0, in1, outs, input, snap)
    case _ => Next(d, d', step)
  }

  /** Free of the hazard, when the step is a compaction. */
  ghost predicate Safe(d: Db, step: Action) {
    step.Compact? && step.level + 1 < |d.version| ==> HazardFree(d, step.level, step.in0, step.in1, step.snap)
  }

  ghost predicate DbOk(d: Db) {
    |d.version| == NUM_LEVELS && DbInv(d)
  }

  /** The smallest snapshot is the least number a client can read at. */
  lemma SmallestIsLeast(d: Db, snap: nat)
    requires DbOk(d) && IsSmallestSnapshot(d, snap)
    ensures Live(d, snap) && forall s :: Live(d, s) ==> snap <= s
  {
    hide Layered, Agrees, StampedBy, NumbersBelow;
    forall s | Live(d, s)
      ensures snap <= s
    {
      SmallestSnapshotIsOldest(d, snap, s);
    }
  }

  lemma StepKeepsOk(d: Db, d': Db, step: Action)
    requires DbOk(d) && Takes(d, d', step)
    ensures Safe(d, step) <==> DbOk(d')
  {
    hide DbInv, HazardFree, CompactionRun;
    match step
    case Compact(level, in0, in1, outs, input, snap) =>
      CompactKeepsInv(d, d', level, in0, in1, outs, input, snap);
      VersionKeepsLevels(d, d', level, in0, in1, outs, input, snap);
    case _ =>
      OtherStepKeepsOk(d, d', step);
  }

  lemma OtherStepKeepsOk(d: Db, d': Db, step: Action)
    requires DbOk(d) && !step.Compact? && Next(d, d', step)
    ensures DbOk(d')
  {
    hide DbInv;
    NextKeepsInv(d, d', step);
    InvHasLevels(d');
  }

  lemma VersionKeepsLevels(d: Db, d': Db, level: nat, in0: seq<File>, in1: seq<File>, outs: seq<File>, input: seq<Entry>, snap: nat)
    requires CompactStep(d, d', level, in0, in1, outs, input, snap)
    ensures |d'.version| == |d.version|
  {
  }

  lemma InvHasLevels(d: Db)
    requires DbInv(d)
    ensures |d.version| == NUM_LEVELS
  {
  }

  /** The first `i` operations of a batch are in the memtable. */
  ghost predicate InsertedUpTo(base: set<Entry>, mem: seq<Entry>, ops: seq<Op>, last: nat, i: nat) {
    && i <= |ops| && Sorted(mem) && Elems(mem) == base + Elems(Stamped(ops, last)[..i])
    && forall x :: x in mem ==> x.key.seqno <= last + i
  }

  lemma InsertedNone(mem: seq<Entry>, ops: seq<Op>, last: nat)
    requires Sorted(mem) && forall x :: x in mem ==> x.key.seqno <= last
    ensures InsertedUpTo(Elems(mem), mem, ops, last, 0)
  {
  }

  lemma InsertedNext(base: set<Entry>, mem: seq<Entry>, ops: seq<Op>, last: nat, i: nat)
    requires i < |ops| && InsertedUpTo(base, mem, ops, last, i)
    ensures InsertedUpTo(base, Inserted(mem, EntryOf(ops[i], last + 1 + i)), ops, last, i + 1)
  {
    hide Inserted, Sorted;
    var e := EntryOf(ops[i], last + 1 + i);
    InsertedIsSorted(mem, e);
    InsertedElems(mem, e);
    assert Stamped(ops, last)[..i + 1] == Stamped(ops, last)[..i] + [e];
    forall x | x in Inserted(mem, e)
      ensures x.key.seqno <= last + i + 1
    {
      assert x in Elems(Inserted(mem, e));
      assert x in Elems(mem) || x == e;
    }
  }

  lemma InsertedAll(base: set<Entry>, mem: seq<Entry>, ops: seq<Op>, last: nat)
    requires InsertedUpTo(base, mem, ops, last, |ops|)
    ensures Sorted(mem) && Elems(mem) == base + Elems(Stamped(ops, last))
  {
    assert Stamped(ops, last)[..|ops|] == Stamped(ops, last);
  }

  class DBImpl {
    var mem: seq<Entry>
    var imm: Option<seq<Entry>>
    var version: Version
    var lastSequence: nat
    var nextFile: nat
    var snapshots: seq<nat>    // the sequence numbers of the SnapshotList, oldest first
    ghost var history: set<Entry>

    ghost function State(): Db
      reads this
    {
      Db(mem, imm, version, lastSequence, nextFile, multiset(snapshots), history)
    }

    ghost predicate Valid()
      reads this
    {
      DbOk(State()) && forall i, j :: 0 <= i < j < |snapshots| ==> snapshots[i] <= snapshots[j]
    }

    constructor ()
      ensures Valid() && Init(State())
    {
      mem, imm := [], None;
      version := seq(NUM_LEVELS, _ => []);
      lastSequence, nextFile, snapshots := 0, 2, [];
      history := {};
      new;
      InitHasInv(State());
      assert DbInv(State());
    }

    /** The memtable, then the one being flushed, then the version. A read at a
        live sequence number returns what the whole history of writes says. */
    method Get(u: UserKey, s: nat, ghost h: Option<Entry>) returns (value: Option<Bytes>)
      requires Valid() && Live(State(), s) && IsNewest(history, u, s, h)
      ensures value == Answer(h) && Replay.Finds(State(), u, s, value)
    {
      var r := RunGet(mem, u, s);
      RunGetIsNewest(mem, u, s);
      if r == None && imm.Some? {
        r := RunGet(imm.value, u, s);
      }
      RunGetIsNewest(ImmOf(State()), u, s);
      NewestOfUnion(Elems(mem), Elems(ImmOf(State())), u, s, RunGet(mem, u, s), RunGet(ImmOf(State()), u, s));
      ghost var recent := r;
      if r == None {
        r := Versions.Get(version, u, s);
        NewestOfUnion(Recent(State()), VersionElems(version), u, s, recent, r);
      } else {
        ghost var below := NewestExists(VersionElems(version), u, s);
        NewestOfUnion(Recent(State()), VersionElems(version), u, s, recent, below);
      }
      value := Answer(r);
    }

    /** WriteBatch::InsertInto: the operations go into the memtable one by one. */
    method InsertInto(ops: seq<Op>)
      requires Sorted(mem) && forall x :: x in mem ==> x.key.seqno <= lastSequence
      modifies this`mem
      ensures Sorted(mem) && Elems(mem) == old(Elems(mem)) + Elems(Stamped(ops, lastSequence))
    {
      ghost var base := Elems(mem);
      hide *;
      InsertedNone(mem, ops, lastSequence);
      for i := 0 to |ops|
        invariant InsertedUpTo(base, mem, ops, lastSequence, i)
      {
        InsertedNext(base, mem, ops, lastSequence, i);
        mem := Inserted(mem, EntryOf(ops[i], lastSequence + 1 + i));
      }
      InsertedAll(base, mem, ops, lastSequence);
    }

    /** Stamps the operations of a batch with the next sequence numbers, and applies
        them unless writing them to the log failed. A read then finds, for each user key,
        what the last operation on it says, and what it found before if there is none. */
    method Write(ops: seq<Op>, logged: bool)
      requires Valid() && lastSequence + |ops| <= MAX_SEQUENCE
      modifies this
      ensures Valid() && Next(old(State()), State(), if logged then Action.Write(ops) else FailedWrite(|ops|))
      ensures forall u, before :: Replay.Finds(old(State()), u, old(lastSequence), before) ==>
                Replay.Finds(State(), u, lastSequence, if logged then Replay.AfterOps(ops, u, before) else before)
    {
      hide DbInv, Replay.Finds, Replay.AfterOps;
      if logged {
        MemIsStamped(State());
        InsertInto(ops);
        history := history + Elems(Stamped(ops, lastSequence));
      }
      lastSequence := lastSequence + |ops|;
      OtherStepKeepsOk(old(State()), State(), if logged then Action.Write(ops) else FailedWrite(|ops|));
      forall u, before | Replay.Finds(old(State()), u, old(lastSequence), before)
        ensures Replay.Finds(State(), u, lastSequence, if logged then Replay.AfterOps(ops, u, before) else before)
      {
        if logged {
          Replay.WriteIsRead(old(State()), State(), ops, u, before);
        } else {
          Replay.FailedIsNotRead(old(State()), State(), |ops|, u, before);
        }
      }
    }

    /** The end of MakeRoomForWrite: the memtable is set aside for flushing; a
        file number goes to the new log. */
    method SwitchMemTable()
      requires Valid() && imm == None
      modifies this
      ensures Valid() && Next(old(State()), State(), Switch)
    {
      hide DbInv;
      nextFile := nextFile + 1;
      imm := Some(mem);
      mem := [];
      OtherStepKeepsOk(old(State()), State(), Switch);
    }

    /** WriteLevel0Table: the entries become one file, which goes as deep as it may. */
    method WriteLevel0Table(number: nat, size: nat, maxGrandparentBytes: nat) returns (v: Version, level: nat, f: File)
      requires Inv(version) && NumbersBelow(version, number)
      requires imm.Some? && imm.value != [] && Sorted(imm.value)
      requires forall e :: e in imm.value ==> e.key.seqno <= MAX_SEQUENCE
      ensures WfFile(f) && f.entries == imm.value && f.number == number
      ensures FlushLevelOk(version, level, f) && Joined(version, v, level, f)
    {
      VersionFacts(version);
      hide Inv, Shape, WfFile, Sorted, NumbersBelow, FlushLevelOk, Joined, ApplyEdit, NoneMeets;
      var entries := imm.value;
      f := File(number, size, entries[0].key, entries[|entries| - 1].key, entries);
      FlushedIsWf(f);
      level := PickLevelForMemTableOutput(version, f.smallest.user, f.largest.user, maxGrandparentBytes);
      LevelIsOk(version, level, f);
      AddingJoins(version, level, f);
      v := LogAndApply(version, Edit({}, [(level, f)]));
    }

    /** Flushes the set-aside memtable; an empty one leaves no file. */
    method CompactMemTable(size: nat, maxGrandparentBytes: nat) returns (ghost step: Action)
      requires Valid() && imm.Some?
      modifies this
      ensures Valid() && step.Flush? && Next(old(State()), State(), step)
    {
      hide DbInv;
      ImmCanFlush(State());
      var number := nextFile;
      nextFile := nextFile + 1;
      if imm.value == [] {
        step := Flush(0, File(0, 0, SeekKey(0.0, 0), SeekKey(0.0, 0), []));
      } else {
        var v, level, f := WriteLevel0Table(number, size, maxGrandparentBytes);
        version := v;
        step := Flush(level, f);
      }
      imm := None;
      StepKeepsOk(old(State()), State(), step);
    }

    method GetSnapshot() returns (s: nat)
      requires Valid()
      modifies this
      ensures Valid() && Next(old(State()), State(), Action.GetSnapshot)
      ensures s == lastSequence && Live(State(), s)
    {
      s := lastSequence;
      forall i | 0 <= i < |snapshots|
        ensures snapshots[i] <= s
      {
        assert snapshots[i] in multiset(snapshots);
      }
      snapshots := snapshots + [s];
      OtherStepKeepsOk(old(State()), State(), Action.GetSnapshot);
    }

    method ReleaseSnapshot(i: nat)
      requires Valid() && i < |snapshots|
      modifies this
      ensures Valid() && Next(old(State()), State(), Action.ReleaseSnapshot(old(snapshots[i])))
    {
      hide DbOk, Next;
      ghost var d := State();
      RemoveOne(snapshots, i);
      Released(d, snapshots, i);
      snapshots := snapshots[..i] + snapshots[i + 1..];
      OtherStepKeepsOk(d, State(), Action.ReleaseSnapshot(old(snapshots[i])));
    }

    method SmallestSnapshot() returns (s: nat)
      requires Valid()
      ensures IsSmallestSnapshot(State(), s)
      ensures Live(State(), s) && forall t :: Live(State(), t) ==> s <= t
    {
      hide DbInv;
      if snapshots == [] {
        s := lastSequence;
      } else {
        s := snapshots[0];
        assert s in multiset(snapshots);
      }
      SmallestIsLeast(State(), s);
    }

    /** What one compaction will do: a manual range, or the files the pointer picks. */
    method ChooseInputs(level: nat, manual: Option<Range>, pointer: Option<IKey>, sizeLimit: nat, expandedLimit: nat)
      returns (c: Option<(seq<File>, seq<File>)>)
      requires Valid() && level + 1 < NUM_LEVELS
      ensures c.Some? ==> Selected(version, level, c.value.0, c.value.1) && NoRepeats(c.value.0) && NoRepeats(c.value.1)
      ensures c == None <==> if manual.Some? then NoneMeets(version[level], manual.value) else version[level] == []
    {
      LevelsHaveNoRepeats(version, level);
      LevelsHaveNoRepeats(version, level + 1);
      if manual.Some? {
        c := CompactRange(version, level, manual.value, sizeLimit, expandedLimit);
      } else if version[level] == [] {
        c := None;
      } else {
        var in0, in1 := PickCompaction(version, level, pointer, expandedLimit);
        c := Some((in0, in1));
      }
    }

    /** IsTrivialMove: one input file and little of the level after next in its range. */
    method IsTrivialMove(level: nat, in0: seq<File>, in1: seq<File>, maxGrandparentBytes: nat) returns (b: bool)
      requires Valid() && level + 1 < NUM_LEVELS && Selected(version, level, in0, in1)
      ensures b <==> |in0| == 1 && in1 == []
                     && (level + 2 < NUM_LEVELS ==>
                           TotalFileSize(Meeting(version[level + 2], Range(Some(in0[0].smallest.user), Some(in0[0].largest.user))))
                           <= maxGrandparentBytes)
    {
      VersionHasInv(State());
      LevelCount(State());
      assert Inv(version) && |version| == NUM_LEVELS == 7;
      hide *;
      SelectedFiles(version, level, in0, in1);
      var grandparents := [];
      if level + 2 < NUM_LEVELS {
        var smallest, largest := GetRange(in0 + in1);
        ghost var r;
        grandparents, r := GetOverlappingInputs(level + 2, version[level + 2], Range(Some(smallest.user), Some(largest.user)));
        if |in0| == 1 && in1 == [] {
          RangeOfOne(in0 + in1, smallest, largest);
        }
      } else {
        NoFilesNoSize();
      }
      b := |in0| == 1 && in1 == [] && TotalFileSize(grandparents) <= maxGrandparentBytes;
    }

    /** BackgroundCompaction: a flush when there is one to do, otherwise a move or a compaction. */
    method BackgroundCompaction(level: nat, manual: Option<Range>, pointer: Option<IKey>, sizeLimit: nat, expandedLimit: nat,
                                maxGrandparentBytes: nat, size: nat,
                                stopBefore: nat -> bool, full: nat -> bool, sizeOf: seq<Entry> -> nat)
      returns (ghost step: Option<Action>)
      requires Valid() && level + 1 < NUM_LEVELS && lastSequence < MAX_SEQUENCE
      modifies this
      ensures step.Some? ==> Takes(old(State()), State(), step.value)
      ensures step == None <==> old(imm) == None && (if manual.Some? then NoneMeets(old(version)[level], manual.value)
                                                    else old(version)[level] == [])
      ensures step == None ==> State() == old(State())
      ensures step.Some? ==> (step.value.Flush? <==> old(imm).Some?) && (manual.Some? ==> !step.value.Move?)
      ensures Valid() <==> (step.Some? ==> Safe(old(State()), step.value))
    {
      hide DbInv;
      if imm.Some? {
        ghost var flush := CompactMemTable(size, maxGrandparentBytes);
        return Some(flush);
      }
      var c := ChooseInputs(level, manual, pointer, sizeLimit, expandedLimit);
      if c == None {
        return None;
      }
      var in0, in1 := c.value.0, c.value.1;
      var trivial := IsTrivialMove(level, in0, in1, maxGrandparentBytes);
      if manual == None && trivial {
        assert in0 == [in0[0]];
        Move(level, in0[0]);
        step := Some(Action.Move(level, in0[0]));
      } else {
        ghost var compact := Compact(level, in0, in1, stopBefore, full, sizeOf);
        step := Some(compact);
      }
    }

    method Move(level: nat, f: File)
      requires Valid() && level + 1 < NUM_LEVELS && Selected(version, level, [f], [])
      modifies this
      ensures Valid() && Next(old(State()), State(), Action.Move(level, f))
    {
      version := InstallCompactionResults(version, level, [f], [], [f]);
      OtherStepKeepsOk(old(State()), State(), Action.Move(level, f));
    }

    /** DoCompactionWork over the merged inputs. */
    method Work(level: nat, in0: seq<File>, in1: seq<File>, snap: nat,
                stopBefore: nat -> bool, full: nat -> bool, sizeOf: seq<Entry> -> nat)
      returns (outs: seq<File>, ghost input: seq<Entry>)
      requires Valid() && level + 1 < NUM_LEVELS && snap < MAX_SEQUENCE
      requires FromLevels(version, level, in0, in1) && NoRepeats(in0) && NoRepeats(in1)
      ensures Ready(State(), level, in0, in1, outs, input, snap)
    {
      input := InputsMerge(version, level, in0, in1);
      assert WfFiles(in0 + in1);
      var merged := ReadInputs(in0 + in1, input);
      var c := new Compaction.Compaction(version, level);
      outs := c.DoCompactionWork(merged, snap, nextFile, stopBefore, full, sizeOf);
      OutputsAreReady(State(), level, in0, in1, outs, input, snap);
    }

    /** InstallCompactionResults: the outputs take the place of the inputs. */
    method InstallOutputs(level: nat, in0: seq<File>, in1: seq<File>, outs: seq<File>, ghost input: seq<Entry>, ghost snap: nat)
      requires Inv(version) && Ready(State(), level, in0, in1, outs, input, snap) && IsSmallestSnapshot(State(), snap)
      requires level + 1 < NUM_LEVELS && Selected(version, level, in0, in1)
      modifies this`version, this`nextFile
      ensures Takes(old(State()), State(), Action.Compact(level, in0, in1, outs, input, snap))
    {
      hide DbInv, Ready;
      ReadyGives(State(), level, in0, in1, outs, input, snap);
      hide Inv, Ready, Selected, Replaced, Takes, NumbersFree, FromLevels, IsSmallestSnapshot;
      version := InstallCompactionResults(version, level, in0, in1, outs);
      nextFile := nextFile + |outs|;
      ReadyInstalls(old(State()), State(), level, in0, in1, outs, input, snap);
    }

    /** A compaction from its inputs to the installed version. */
    method Compact(level: nat, in0: seq<File>, in1: seq<File>,
                   stopBefore: nat -> bool, full: nat -> bool, sizeOf: seq<Entry> -> nat)
      returns (ghost step: Action)
      requires Valid() && level + 1 < NUM_LEVELS && lastSequence < MAX_SEQUENCE
      requires Selected(version, level, in0, in1) && NoRepeats(in0) && NoRepeats(in1)
      modifies this
      ensures step.Compact? && Takes(old(State()), State(), step)
      ensures Valid() <==> Safe(old(State()), step)
    {
      hide DbInv;
      assert FromLevels(version, level, in0, in1);
      hide DbOk, Inv, Ready, Selected, FromLevels, Takes, Safe, IsSmallestSnapshot, NoRepeats;
      var snap := SmallestSnapshot();
      SnapshotsBelowLast(State(), snap);
      ghost var input;
      var outs;
      outs, input := Work(level, in0, in1, snap, stopBefore, full, sizeOf);
      VersionHasInv(State());
      InstallOutputs(level, in0, in1, outs, input, snap);
      step := Action.Compact(level, in0, in1, outs, input, snap);
      StepKeepsOk(old(State()), State(), step);
    }
  }

  /** A flushed memtable is a well-formed file. */
  lemma FlushedIsWf(f: File)
    requires f.entries != [] && Sorted(f.entries) && forall e :: e in f.entries ==> e.key.seqno <= MAX_SEQUENCE
    requires f.smallest == f.entries[0].key && f.largest == f.entries[|f.entries| - 1].key
    ensures WfFile(f)
  {
  }

  lemma VersionFacts(v: Version)
    requires Inv(v)
    ensures Shape(v) && |v| == NUM_LEVELS > MAX_MEM_COMPACT_LEVEL
  {
  }

  lemma LevelIsOk(v: Version, level: nat, f: File)
    requires level <= MAX_MEM_COMPACT_LEVEL < |v|
    requires level > 0 ==> forall l :: 0 <= l <= level ==> NoneMeets(v[l], Range(Some(f.smallest.user), Some(f.largest.user)))
    ensures FlushLevelOk(v, level, f)
  {
  }

  lemma ReadyGives(d: Db, level: nat, in0: seq<File>, in1: seq<File>, outs: seq<File>, input: seq<Entry>, snap: nat)
    requires Ready(d, level, in0, in1, outs, input, snap) && level + 1 < NUM_LEVELS
    ensures |d.version| == NUM_LEVELS && NumbersFree(d.version, level, in0, outs)
    ensures Selected(d.version, level, in0, in1) ==> FromLevels(d.version, level, in0, in1)
  {
  }

  lemma LevelCount(d: Db)
    requires DbOk(d)
    ensures |d.version| == NUM_LEVELS == 7
  {
  }

  lemma SelectedFiles(v: Version, level: nat, in0: seq<File>, in1: seq<File>)
    requires Inv(v) && level + 1 < |v| && Selected(v, level, in0, in1)
    ensures WfFiles(in0 + in1) && in0 != []
  {
  }

  lemma RangeOfOne(inputs: seq<File>, smallest: IKey, largest: IKey)
    requires |inputs| == 1 && (exists f :: f in inputs && f.smallest == smallest) && exists f :: f in inputs && f.largest == largest
    ensures smallest == inputs[0].smallest && largest == inputs[0].largest
  {
  }

  lemma NoFilesNoSize()
    ensures TotalFileSize([]) == 0
  {
  }

  lemma MultisetWithout(s: seq<nat>, i: nat)
    requires i < |s|
    ensures multiset(s[..i] + s[i + 1..]) == multiset(s) - multiset{s[i]}
  {
    assert s == s[..i] + [s[i]] + s[i + 1..];
  }

  lemma RemoveOne(s: seq<nat>, i: nat)
    requires i < |s| && forall j, k :: 0 <= j < k < |s| ==> s[j] <= s[k]
    ensures multiset(s[..i] + s[i + 1..]) == multiset(s) - multiset{s[i]}
    ensures var r := s[..i] + s[i + 1..]; forall j, k :: 0 <= j < k < |r| ==> r[j] <= r[k]
  {
    MultisetWithout(s, i);
  }

  lemma Released(d: Db, snapshots: seq<nat>, i: nat)
    requires i < |snapshots| && d.snapshots == multiset(snapshots)
    ensures Next(d, d.(snapshots := multiset(snapshots) - multiset{snapshots[i]}), Action.ReleaseSnapshot(snapshots[i]))
  {
    assert snapshots[i] in multiset(snapshots);
  }

  lemma VersionHasInv(d: Db)
    requires DbOk(d)
    ensures Inv(d.version)
  {
  }

  lemma ImmCanFlush(d: Db)
    requires DbOk(d) && d.imm.Some?
    ensures Inv(d.version) && NumbersBelow(d.version, d.nextFile) && Sorted(d.imm.value)
    ensures forall e :: e in d.imm.value ==> e.key.seqno <= MAX_SEQUENCE
  {
    forall e | e in d.imm.value
      ensures e.key.seqno <= MAX_SEQUENCE
    {
      assert e in AllElems(d);
    }
  }

  lemma MemIsStamped(d: Db)
    requires DbOk(d)
    ensures Sorted(d.mem) && forall x :: x in d.mem ==> x.key.seqno <= d.lastSequence
  {
    forall x | x in d.mem
      ensures x.key.seqno <= d.lastSequence
    {
      assert x in AllElems(d);
    }
  }

  lemma SnapshotsBelowLast(d: Db, snap: nat)
    requires DbOk(d) && IsSmallestSnapshot(d, snap)
    ensures snap <= d.lastSequence
  {
  }

  /** The outputs of a compaction can be installed. */
  ghost predicate Ready(d: Db, level: nat, in0: seq<File>, in1: seq<File>, outs: seq<File>, input: seq<Entry>, snap: nat) {
    && |d.version| == NUM_LEVELS && level + 1 < NUM_LEVELS
    && NumbersFree(d.version, level, in0, outs) && WfFiles(outs) && Disjoint(outs) && Compaction.Numbered(outs, d.nextFile)
    && Sorted(input) && Elems(input) == Inputs(in0, in1)
    && LevelElems(outs) == Elems(Compaction.Kept(d.version, level, input, snap, |input|))
    && LevelElems(outs) <= Inputs(in0, in1)
  }

  /** What the drop loop writes can be installed. */
  lemma OutputsAreReady(d: Db, level: nat, in0: seq<File>, in1: seq<File>, outs: seq<File>, input: seq<Entry>, snap: nat)
    requires DbOk(d) && level + 1 < NUM_LEVELS && FromLevels(d.version, level, in0, in1)
    requires Sorted(input) && Elems(input) == Inputs(in0, in1)
    requires Compaction.EntriesOf(outs) == Compaction.Kept(d.version, level, input, snap, |input|)
    requires (forall f :: f in outs ==> Compaction.Bounded(f)) && Compaction.Numbered(outs, d.nextFile)
    ensures Ready(d, level, in0, in1, outs, input, snap)
  {
    Compaction.EntriesElems(outs);
    Compaction.KeptIsSorted(d.version, level, input, snap, |input|);
    forall e | e in Compaction.EntriesOf(outs)
      ensures e in Inputs(in0, in1) && e.key.seqno <= MAX_SEQUENCE
    {
      Compaction.KeptHolds(d.version, level, input, snap, |input|, e);
      assert e in Elems(input);
      InputIsStamped(d, level, in0, in1, e);
    }
    Compaction.CutIsDisjoint(outs);
    NewNumbersFree(d, level, in0, outs);
  }

  lemma InputIsStamped(d: Db, level: nat, in0: seq<File>, in1: seq<File>, e: Entry)
    requires DbOk(d) && level + 1 < NUM_LEVELS && FromLevels(d.version, level, in0, in1) && e in Inputs(in0, in1)
    ensures e.key.seqno <= MAX_SEQUENCE
  {
    assert e in LevelElems(d.version[level]) || e in LevelElems(d.version[level + 1]);
    assert e in AllElems(d);
  }

  lemma NewNumbersFree(d: Db, level: nat, in0: seq<File>, outs: seq<File>)
    requires NumbersBelow(d.version, d.nextFile) && Compaction.Numbered(outs, d.nextFile)
    ensures NumbersFree(d.version, level, in0, outs)
  {
  }

  lemma ReadyInstalls(d: Db, d': Db, level: nat, in0: seq<File>, in1: seq<File>, outs: seq<File>, input: seq<Entry>, snap: nat)
    requires Ready(d, level, in0, in1, outs, input, snap) && IsSmallestSnapshot(d, snap)
    requires |d.version| == NUM_LEVELS && level + 1 < NUM_LEVELS
    requires Selected(d.version, level, in0, in1) && Replaced(d.version, d'.version, level, in0, in1, outs)
    requires d' == d.(version := d'.version, nextFile := d.nextFile + |outs|)
    ensures Takes(d, d', Action.Compact(level, in0, in1, outs, input, snap))
  {
    assert Installed(d.version, d'.version, level, in0, in1, outs);
    assert CompactStep(d, d', level, in0, in1, outs, input, snap);
  }

  lemma LevelsHaveNoRepeats(v: Version, level: nat)
    requires Inv(v) && level < NUM_LEVELS
    ensures NoRepeats(v[level])
  {
    assert BySmallest(v[level]);
    forall i, j | 0 <= i < j < |v[level]|
      ensures v[level][i] != v[level][j]
    {
      assert FileBefore(v[level][i], v[level][j]);
    }
  }
}
