/** A compaction as it goes on in the background: it is begun, writes its outputs while
    the mutex is free, and is installed. Writes, memtable switches, flushes and snapshots
    come in between; the flushes put files into the version the compaction is installed
    into (`db/db_impl.cc`). */
module LongCompaction {
  import opened Keys
  import opened Versions
  import VersionBuilder
  import opened InputSelection
  import opened CompactionInputs
  import opened CompactionStep
  import opened CompactionTheorem
  import opened Compaction
  import opened Lsm
  import LsmTheorem

  /** A file that was flushed while the compaction was under way, and its level. */
  datatype Flushed = Flushed(level: nat, file: File)

  /** A compaction under way: the version and inputs it was begun with, the numbers its
      outputs have taken so far, and the files flushed since. */
  datatype Job = Job(base: Version, level: nat, in0: seq<File>, in1: seq<File>, input: seq<Entry>, snap: nat,
                     numbers: set<nat>, flushed: set<Flushed>)

  datatype State = State(d: Db, job: Option<Job>)

  datatype Act =
    | Begin(level: nat, in0: seq<File>, in1: seq<File>, input: seq<Entry>, snap: nat)
    | NewOutput
    | Install(outs: seq<File>)
    | GiveUp
    | Other(step: Lsm.Action)

  // ----- the steps

  ghost predicate BeginStep(st: State, st': State, level: nat, in0: seq<File>, in1: seq<File>, input: seq<Entry>, snap: nat) {
    && st.job == None && |st.d.version| == NUM_LEVELS && level + 1 < NUM_LEVELS && IsSmallestSnapshot(st.d, snap)
    && Selected(st.d.version, level, in0, in1) && Sorted(input) && Elems(input) == Inputs(in0, in1)
    && st' == State(st.d, Some(Job(st.d.version, level, in0, in1, input, snap, {}, {})))
  }

  /** OpenCompactionOutputFile takes a file number. */
  predicate OutputStep(st: State, st': State) {
    && st.job.Some?
    && st' == State(st.d.(nextFile := st.d.nextFile + 1), Some(st.job.value.(numbers := st.job.value.numbers + {st.d.nextFile})))
  }

  /** The outputs hold what the drop rules keep, by the version the compaction was begun with. */
  ghost predicate Made(j: Job, outs: seq<File>) {
    && WfFiles(outs) && Disjoint(outs) && (forall o :: o in outs ==> o.number in j.numbers)
    && (forall i, k :: 0 <= i < k < |outs| ==> outs[i].number != outs[k].number)
    && LevelElems(outs) == Elems(Kept(j.base, j.level, j.input, j.snap, |j.input|))
  }

  /** The edit is applied to the version there is now. */
  ghost predicate InstallStep(st: State, st': State, outs: seq<File>) {
    && st.job.Some? && Made(st.job.value, outs)
    && var j := st.job.value;
    && j.level + 1 < |st.d.version| && Replaced(st.d.version, st'.d.version, j.level, j.in0, j.in1, outs)
    && st' == State(st.d.(version := st'.d.version), None)
  }

  /** While a compaction is under way there is no other one, and no move. */
  ghost predicate OtherStep(st: State, st': State, step: Lsm.Action) {
    && Lsm.Next(st.d, st'.d, step) && !step.Compact? && (st.job.Some? ==> !step.Move?)
    && st'.job == match st.job
                  case None => None
                  case Some(j) => Some(Noted(j, st.d, step))
  }

  function Noted(j: Job, d: Db, step: Lsm.Action): Job {
    if step.Flush? && ImmOf(d) != [] then j.(flushed := j.flushed + {Flushed(step.level, step.file)}) else j
  }

  function RangeOf(f: File): Range {
    Range(Some(f.smallest.user), Some(f.largest.user))
  }

  /** No output meets a file that was flushed into its level meanwhile. */
  ghost predicate Apart(j: Job, outs: seq<File>) {
    forall x :: x in j.flushed && x.level == j.level + 1 ==> NoneMeets(outs, RangeOf(x.file))
  }

  ghost function FlushedElems(fl: set<Flushed>): set<Entry> {
    set x, e | x in fl && e in x.file.entries :: e
  }

  /** No live read that the memtables and the files flushed meanwhile leave open meets the hazard. */
  ghost predicate NoHazard(d: Db, j: Job)
    requires j.level + 1 < |j.base|
  {
    forall u, s: nat :: Live(d, s) && IsNewest(Recent(d) + FlushedElems(j.flushed), u, s, None)
                        ==> !Resurrects(j.base, j.level, j.in0, j.in1, j.snap, u, s)
  }

  // ----- what holds while a compaction is under way

  /** `v` is `w` with flushed files in it. */
  ghost predicate Grown(w: Version, v: Version, fl: set<Flushed>) {
    && |w| == |v| && (forall x :: x in fl ==> x.level < |w|)
    && forall l, g :: 0 <= l < |w| ==> (g in v[l] <==> g in w[l] || Flushed(l, g) in fl)
  }

  /** A flushed file is newer than all that was there, and past level 0 met nothing. */
  ghost predicate FlushedOk(base: Version, x: Flushed) {
    && x.level < |base| && WfFile(x.file) && NumbersBelow(base, x.file.number)
    && Newer(Elems(x.file.entries), VersionElems(base))
    && (x.level > 0 ==> forall l :: 0 <= l <= x.level ==> NoneMeets(base[l], RangeOf(x.file)))
  }

  ghost predicate NumbersTaken(v: Version, numbers: set<nat>, next: nat) {
    && (forall n :: n in numbers ==> n < next)
    && forall l, f :: 0 <= l < |v| && f in v[l] ==> f.number !in numbers
  }

  ghost predicate Begun(j: Job) {
    && Inv(j.base) && j.level + 1 < NUM_LEVELS && Selected(j.base, j.level, j.in0, j.in1)
    && Sorted(j.input) && Elems(j.input) == Inputs(j.in0, j.in1)
  }

  ghost predicate Oldest(d: Db, snap: nat) {
    forall s: nat :: Live(d, s) ==> snap <= s
  }

  ghost predicate JobOk(d: Db, j: Job) {
    && Begun(j) && Oldest(d, j.snap)
    && Grown(j.base, d.version, j.flushed) && (forall x :: x in j.flushed ==> FlushedOk(j.base, x))
    && NumbersTaken(d.version, j.numbers, d.nextFile)
  }

  ghost predicate StateInv(st: State) {
    DbInv(st.d) && (st.job.Some? ==> JobOk(st.d, st.job.value))
  }

  // ----- beginning, and what comes in between

  lemma BeginKeepsInv(st: State, st': State, level: nat, in0: seq<File>, in1: seq<File>, input: seq<Entry>, snap: nat)
    requires DbInv(st.d) && BeginStep(st, st', level, in0, in1, input, snap)
    ensures StateInv(st')
  {
    forall s: nat | Live(st.d, s)
      ensures snap <= s
    {
      LsmTheorem.SmallestSnapshotIsOldest(st.d, snap, s);
    }
  }

  lemma OutputKeepsInv(st: State, st': State)
    requires StateInv(st) && OutputStep(st, st')
    ensures StateInv(st')
  {
    OutputKeepsDb(st.d, st'.d);
    OutputKeepsJob(st.d, st'.d, st.job.value);
  }

  lemma OutputKeepsDb(d: Db, d': Db)
    requires DbInv(d) && d' == d.(nextFile := d.nextFile + 1)
    ensures DbInv(d')
  {
    assert AllElems(d') == AllElems(d) && Recent(d') == Recent(d) && ImmOf(d') == ImmOf(d);
    LsmTheorem.SameElemsAgree(d, d');
  }

  lemma OutputKeepsJob(d: Db, d': Db, j: Job)
    requires DbInv(d) && JobOk(d, j) && d' == d.(nextFile := d.nextFile + 1)
    ensures JobOk(d', j.(numbers := j.numbers + {d.nextFile}))
  {
    hide Layered, Agrees, Begun, Grown, FlushedOk, Oldest;
    SameLives(d, d', j.snap);
    SameBegin(j, j.(numbers := j.numbers + {d.nextFile}));
    assert NumbersTaken(d'.version, j.numbers + {d.nextFile}, d'.nextFile);
  }

  /** Live numbers only grow. */
  lemma LiveGrows(d: Db, d': Db, step: Lsm.Action, snap: nat)
    requires Lsm.Next(d, d', step) && Oldest(d, snap)
    ensures Oldest(d', snap)
  {
    assert Live(d, d.lastSequence);
    forall s: nat | Live(d', s)
      ensures snap <= s
    {
      assert s < d.lastSequence ==> s in d.snapshots && Live(d, s);
    }
  }

  lemma SameVersion(d: Db, d': Db, step: Lsm.Action)
    requires Lsm.Next(d, d', step) && !step.Compact? && !step.Move? && (step.Flush? ==> ImmOf(d) == [])
    ensures d'.version == d.version && d.nextFile <= d'.nextFile
  {
  }

  /** A flush as the compaction under way sees it. */
  lemma FlushFacts(d: Db, d': Db, level: nat, f: File)
    requires DbInv(d) && FlushStep(d, d', level, f) && ImmOf(d) != []
    ensures WfFile(f) && f.number == d.nextFile && d'.nextFile == d.nextFile + 1 && level < |d.version|
    ensures d'.lastSequence == d.lastSequence && d'.snapshots == d.snapshots
    ensures FlushLevelOk(d.version, level, f) && Joined(d.version, d'.version, level, f)
    ensures Newer(Elems(f.entries), VersionElems(d.version)) && NumbersBelow(d.version, d.nextFile)
  {
    LsmTheorem.NewerOfUnion(Elems(d.mem), Elems(f.entries), VersionElems(d.version));
  }

  lemma GrownHolds(w: Version, v: Version, fl: set<Flushed>)
    requires Grown(w, v, fl)
    ensures VersionElems(v) == VersionElems(w) + FlushedElems(fl)
  {
    forall e
      ensures e in VersionElems(v) <==> e in VersionElems(w) || e in FlushedElems(fl)
    {
      if e in VersionElems(v) {
        var l :| 0 <= l < |v| && e in LevelElems(v[l]);
        var g :| g in v[l] && e in g.entries;
        assert g in w[l] || Flushed(l, g) in fl;
        assert g in w[l] ==> e in LevelElems(w[l]);
      }
      if e in VersionElems(w) {
        var l :| 0 <= l < |w| && e in LevelElems(w[l]);
        var g :| g in w[l] && e in g.entries;
        assert g in v[l];
        assert e in LevelElems(v[l]);
      }
      if e in FlushedElems(fl) {
        var x :| x in fl && e in x.file.entries;
        assert x == Flushed(x.level, x.file) && x.file in v[x.level];
        assert e in LevelElems(v[x.level]);
      }
    }
  }

  lemma FlushedIsOk(base: Version, v: Version, fl: set<Flushed>, level: nat, f: File)
    requires Grown(base, v, fl) && FlushLevelOk(v, level, f) && WfFile(f)
    requires Newer(Elems(f.entries), VersionElems(v)) && NumbersBelow(v, f.number)
    ensures FlushedOk(base, Flushed(level, f))
  {
    GrownHolds(base, v, fl);
  }

  lemma FlushGrows(base: Version, v: Version, v': Version, fl: set<Flushed>, level: nat, f: File)
    requires Grown(base, v, fl) && level < |v| && Joined(v, v', level, f)
    ensures Grown(base, v', fl + {Flushed(level, f)})
  {
  }

  lemma FlushTakesOther(v: Version, v': Version, level: nat, f: File, numbers: set<nat>, next: nat)
    requires NumbersTaken(v, numbers, next) && level < |v| && Joined(v, v', level, f) && f.number == next
    ensures NumbersTaken(v', numbers, next + 1)
  {
    forall l, g | 0 <= l < |v'| && g in v'[l]
      ensures g.number !in numbers
    {
      assert g in v[l] || g == f;
    }
  }

  lemma SameLives(d: Db, d': Db, snap: nat)
    requires d'.lastSequence == d.lastSequence && d'.snapshots == d.snapshots && Oldest(d, snap)
    ensures Oldest(d', snap)
  {
    forall s: nat | Live(d', s)
      ensures snap <= s
    {
      assert Live(d, s);
    }
  }

  lemma SameBegin(j: Job, j': Job)
    requires Begun(j) && j' == j.(numbers := j'.numbers, flushed := j'.flushed)
    ensures Begun(j')
  {
  }

  lemma FlushKeepsJob(d: Db, d': Db, j: Job, level: nat, f: File)
    requires DbInv(d) && JobOk(d, j) && FlushStep(d, d', level, f) && ImmOf(d) != []
    ensures JobOk(d', j.(flushed := j.flushed + {Flushed(level, f)}))
  {
    hide DbInv, FlushStep, Begun, Oldest, Grown, FlushedOk, NumbersTaken, Joined, FlushLevelOk;
    FlushFacts(d, d', level, f);
    SameLives(d, d', j.snap);
    FlushedIsOk(j.base, d.version, j.flushed, level, f);
    FlushGrows(j.base, d.version, d'.version, j.flushed, level, f);
    FlushTakesOther(d.version, d'.version, level, f, j.numbers, d.nextFile);
    SameBegin(j, j.(flushed := j.flushed + {Flushed(level, f)}));
  }

  lemma OtherKeepsJob(d: Db, d': Db, j: Job, step: Lsm.Action)
    requires DbInv(d) && JobOk(d, j) && Lsm.Next(d, d', step) && !step.Compact? && !step.Move?
    ensures JobOk(d', Noted(j, d, step))
  {
    hide DbInv, Begun, Oldest, Grown, FlushedOk;
    if step.Flush? && ImmOf(d) != [] {
      FlushKeepsJob(d, d', j, step.level, step.file);
    } else {
      SameVersion(d, d', step);
      LiveGrows(d, d', step, j.snap);
    }
  }

  lemma OtherKeepsInv(st: State, st': State, step: Lsm.Action)
    requires StateInv(st) && OtherStep(st, st', step)
    ensures StateInv(st')
  {
    LsmTheorem.NextKeepsInv(st.d, st'.d, step);
    if st.job.Some? {
      OtherKeepsJob(st.d, st'.d, st.job.value, step);
    }
  }

  // ----- installing

  /** The version the compaction would have made had nothing been flushed meanwhile. */
  ghost function Alone(j: Job, outs: seq<File>): Version {
    if Begun(j) then VersionBuilder.ApplyEdit(j.base, VersionBuilder.Edit(InputDeletions(j.level, j.in0, j.in1), Additions(j.level + 1, outs))) else j.base
  }

  lemma AloneIsRun(d: Db, j: Job, outs: seq<File>)
    requires JobOk(d, j) && Made(j, outs)
    ensures CompactionRun(j.base, Alone(j, outs), j.level, j.in0, j.in1, outs, j.input, j.snap) && Inv(Alone(j, outs))
  {
    AloneIsReplaced(d, j, outs);
    NumbersAreFree(d, j, outs);
    KeptAreInputs(j, outs);
    hide Alone, Inv, Selected, Replaced, NumbersFree, WfFiles, Disjoint, LevelElems, Elems, Grown, FlushedOk, Oldest, NumbersTaken;
    StepKeepsInv(j.base, Alone(j, outs), j.level, j.in0, j.in1, outs);
  }

  lemma AloneIsReplaced(d: Db, j: Job, outs: seq<File>)
    requires JobOk(d, j) && Made(j, outs)
    ensures |j.base| == NUM_LEVELS && j.level + 1 < NUM_LEVELS && Replaced(j.base, Alone(j, outs), j.level, j.in0, j.in1, outs)
  {
    hide Made, Inv, Selected, Replaced, NumbersFree, FromLevels, VersionBuilder.ApplyEdit, InputDeletions, Additions;
    NumbersAreFree(d, j, outs);
    InputsAreFiles(j);
    EditReplaces(j.base, j.level, j.in0, j.in1, outs);
  }

  lemma InputsAreFiles(j: Job)
    requires Begun(j)
    ensures FromLevels(j.base, j.level, j.in0, j.in1) && |j.base| == NUM_LEVELS && j.level + 1 < NUM_LEVELS
  {
    hide Selected, LevelsByAge, LevelsBySmallest, NumberedByAge, NumbersUnique;
    InputsInLevels(j.base, j.level, j.in0, j.in1);
  }

  lemma KeptAreInputs(j: Job, outs: seq<File>)
    requires Begun(j) && Made(j, outs)
    ensures LevelElems(outs) <= LevelElems(j.in0) + LevelElems(j.in1)
  {
    forall e | e in Elems(Kept(j.base, j.level, j.input, j.snap, |j.input|))
      ensures e in Elems(j.input)
    {
      KeptHolds(j.base, j.level, j.input, j.snap, |j.input|, e);
    }
  }

  lemma NumbersAreFree(d: Db, j: Job, outs: seq<File>)
    requires JobOk(d, j) && Made(j, outs)
    ensures NumbersFree(j.base, j.level, j.in0, outs)
  {
    forall o, l, g | o in outs && 0 <= l < |j.base| && g in j.base[l]
      ensures o.number != g.number
    {
      assert g in d.version[l];
    }
  }

  /** What is installed is what the compaction makes alone, grown by the flushed files. */
  lemma InstalledIsGrown(d: Db, j: Job, outs: seq<File>, v': Version)
    requires JobOk(d, j) && Made(j, outs) && |d.version| == NUM_LEVELS
    requires Replaced(d.version, v', j.level, j.in0, j.in1, outs)
    ensures Grown(Alone(j, outs), v', j.flushed)
  {
    AloneIsRun(d, j, outs);
    InputsAreFiles(j);
    hide Inv, CompactionTheorem.CompactionRun, Begun, Made, Alone;
    GrownOfReplaced(j.base, d.version, Alone(j, outs), v', j.flushed, j.level, j.in0, j.in1, outs);
  }

  lemma GrownOfReplaced(w: Version, v: Version, w': Version, v': Version, fl: set<Flushed>,
                        level: nat, in0: seq<File>, in1: seq<File>, outs: seq<File>)
    requires level + 1 < |w| && Grown(w, v, fl) && FromLevels(w, level, in0, in1)
    requires forall x :: x in fl ==> FlushedOk(w, x)
    requires Replaced(w, w', level, in0, in1, outs) && Replaced(v, v', level, in0, in1, outs)
    ensures Grown(w', v', fl)
  {
    forall l, g | 0 <= l < |w|
      ensures g in v'[l] <==> g in w'[l] || Flushed(l, g) in fl
    {
      assert g in v[l] <==> g in w[l] || Flushed(l, g) in fl;
      if Flushed(l, g) in fl {
        FlushedIsNew(w, Flushed(l, g));
        assert g !in in0 && g !in in1;
      }
      if l == level {
        assert g in v'[level] <==> g in v[level] && g !in in0;
        assert g in w'[level] <==> g in w[level] && g !in in0;
      } else if l == level + 1 {
        assert g in v'[level + 1] <==> (g in v[level + 1] && g !in in1) || g in outs;
        assert g in w'[level + 1] <==> (g in w[level + 1] && g !in in1) || g in outs;
      }
    }
  }

  lemma FlushedIsNew(w: Version, x: Flushed)
    requires FlushedOk(w, x)
    ensures forall l :: 0 <= l < |w| ==> x.file !in w[l]
  {
  }

  /** Each file of the installed version was there before, or is an output. */
  ghost predicate OldOrOutput(v: Version, v': Version, level: nat, outs: seq<File>) {
    |v'| == |v| && forall l, g :: 0 <= l < |v| && g in v'[l] ==> g in v[l] || (l == level + 1 && g in outs)
  }

  /** Entries of the outputs are entries of files of the input levels. */
  ghost predicate FromInputs(base: Version, level: nat, outs: seq<File>)
    requires level + 1 < |base|
  {
    forall o, e :: o in outs && e in o.entries ==> e in LevelElems(base[level]) || e in LevelElems(base[level + 1])
  }

  lemma OutputsFromInputs(j: Job, outs: seq<File>)
    requires Begun(j) && Made(j, outs)
    ensures j.level + 1 < |j.base| && FromInputs(j.base, j.level, outs)
  {
    KeptAreInputs(j, outs);
    InputsAreFiles(j);
    hide Begun, Made;
    FromFiles(j.base, j.level, j.in0, j.in1, outs);
  }

  lemma FromFiles(base: Version, level: nat, in0: seq<File>, in1: seq<File>, outs: seq<File>)
    requires level + 1 < |base| && FromLevels(base, level, in0, in1) && LevelElems(outs) <= LevelElems(in0) + LevelElems(in1)
    ensures FromInputs(base, level, outs)
  {
    forall o, e | o in outs && e in o.entries
      ensures e in LevelElems(base[level]) || e in LevelElems(base[level + 1])
    {
      assert e in LevelElems(outs);
    }
  }

  /** A flushed file that went as deep as the outputs, or deeper, shares no user key with them. */
  lemma OutputsShareNothing(base: Version, level: nat, outs: seq<File>, x: Flushed)
    requires Shape(base) && level + 1 < |base| && FlushedOk(base, x) && level < x.level && FromInputs(base, level, outs)
    ensures forall o, e, y :: o in outs && e in o.entries && y in x.file.entries ==> e.key.user != y.key.user
  {
    forall o, e, y | o in outs && e in o.entries && y in x.file.entries
      ensures e.key.user != y.key.user
    {
      var l := if e in LevelElems(base[level]) then level else level + 1;
      var g :| g in base[l] && e in g.entries;
      InBounds(g, e);
      InBounds(x.file, y);
      assert !Meets(g, RangeOf(x.file));
    }
  }

  // ----- the level invariants of what is installed

  /** What the invariants of the installed version come from. */
  ghost predicate Mixed(base: Version, v: Version, w': Version, v': Version, level: nat, outs: seq<File>, fl: set<Flushed>) {
    && |base| == NUM_LEVELS && level + 1 < NUM_LEVELS && Shape(base)
    && Inv(v) && Inv(w') && OldOrOutput(v, v', level, outs) && Grown(w', v', fl)
    && (forall o :: o in outs ==> o in w'[level + 1] && o in v'[level + 1]) && FromInputs(base, level, outs)
    && (forall x :: x in fl ==> FlushedOk(base, x)) && LevelsBySmallest(v')
    && (forall o, l, g :: o in outs && 0 <= l < |v| && g in v[l] ==> o.number != g.number)
    && VersionElems(w') <= VersionElems(base)
  }

  ghost predicate OutputsApart(level: nat, outs: seq<File>, fl: set<Flushed>) {
    forall x :: x in fl && x.level == level + 1 ==> NoneMeets(outs, RangeOf(x.file))
  }

  lemma MixedFrom(base: Version, v: Version, w': Version, v': Version, level: nat, outs: seq<File>, fl: set<Flushed>, l: nat, g: File)
    requires Mixed(base, v, w', v', level, outs, fl) && l < |v'| && g in v'[l]
    ensures |v| == |v'| == |w'| == |base| && (g in v[l] || (l == level + 1 && g in outs))
    ensures g in w'[l] || (Flushed(l, g) in fl && FlushedOk(base, Flushed(l, g)))
    ensures g !in v[l] ==> g in w'[l]
  {
  }

  lemma MixedShape(base: Version, v: Version, w': Version, v': Version, level: nat, outs: seq<File>, fl: set<Flushed>)
    requires Mixed(base, v, w', v', level, outs, fl) && OutputsApart(level, outs, fl)
    ensures Shape(v')
  {
    forall l | 0 <= l < |v'|
      ensures WfFiles(v'[l]) && (l >= 1 ==> Disjoint(v'[l]))
    {
      MixedFiles(base, v, w', v', level, outs, fl, l);
      if l >= 1 {
        MixedApart(base, v, w', v', level, outs, fl, l);
        SortedApartIsDisjoint(v'[l]);
      }
    }
  }

  lemma MixedFiles(base: Version, v: Version, w': Version, v': Version, level: nat, outs: seq<File>, fl: set<Flushed>, l: nat)
    requires Mixed(base, v, w', v', level, outs, fl) && l < |v'|
    ensures WfFiles(v'[l]) && BySmallest(v'[l])
  {
    forall g | g in v'[l]
      ensures WfFile(g)
    {
      assert g in w'[l] || Flushed(l, g) in fl;
    }
  }

  lemma MixedApart(base: Version, v: Version, w': Version, v': Version, level: nat, outs: seq<File>, fl: set<Flushed>, l: nat)
    requires Mixed(base, v, w', v', level, outs, fl) && OutputsApart(level, outs, fl) && 1 <= l < |v'|
    ensures forall a, b :: a in v'[l] && b in v'[l] && a != b ==> Before(a.largest, b.smallest) || Before(b.largest, a.smallest)
  {
    forall a, b | a in v'[l] && b in v'[l] && a != b
      ensures Before(a.largest, b.smallest) || Before(b.largest, a.smallest)
    {
      if a in v[l] && b in v[l] {
        DisjointFilesApart(v[l], a, b);
      } else if a in w'[l] && b in w'[l] {
        DisjointFilesApart(w'[l], a, b);
      } else {
        var o, f := if a in v[l] then b else a, if a in v[l] then a else b;
        assert o in outs && l == level + 1 && Flushed(l, f) in fl;
        assert !Meets(o, RangeOf(f));
      }
    }
  }

  lemma MixedNumbers(base: Version, v: Version, w': Version, v': Version, level: nat, outs: seq<File>, fl: set<Flushed>)
    requires Mixed(base, v, w', v', level, outs, fl)
    ensures NumbersUnique(v')
  {
    forall l, m, a, b | 0 <= l < |v'| && 0 <= m < |v'| && a in v'[l] && b in v'[m] && a.number == b.number
      ensures l == m && a == b
    {
      MixedFrom(base, v, w', v', level, outs, fl, l, a);
      MixedFrom(base, v, w', v', level, outs, fl, m, b);
      SameNumber(base, v, w', v', level, outs, fl, l, m, a, b);
    }
  }

  lemma SameNumber(base: Version, v: Version, w': Version, v': Version, level: nat, outs: seq<File>, fl: set<Flushed>,
                   l: nat, m: nat, a: File, b: File)
    requires Mixed(base, v, w', v', level, outs, fl) && l < |v| == |w'| && m < |v| && a.number == b.number
    requires (a in v[l] || (a in outs && a in w'[l])) && (b in v[m] || (b in outs && b in w'[m]))
    ensures l == m && a == b
  {
    hide Shape, LevelsByAge, LevelsBySmallest, NumberedByAge, Grown, FlushedOk, OldOrOutput, FromInputs;
    if a in v[l] {
      assert b in v[m];
    } else {
      assert b in w'[m];
    }
  }

  lemma MixedLevel0(base: Version, v: Version, w': Version, v': Version, level: nat, outs: seq<File>, fl: set<Flushed>)
    requires Mixed(base, v, w', v', level, outs, fl)
    ensures NumberedByAge(v'[0])
  {
    forall g | g in v'[0]
      ensures g in v[0]
    {
      MixedFrom(base, v, w', v', level, outs, fl, 0, g);
    }
    MixedNumbers(base, v, w', v', level, outs, fl);
    MixedFiles(base, v, w', v', level, outs, fl, 0);
    SortedDiffer(v', 0);
    assert NumberedByAge(v[0]);
  }

  lemma SortedDiffer(v: Version, l: nat)
    requires l < |v| && NumbersUnique(v) && BySmallest(v[l])
    ensures forall i, k :: 0 <= i < k < |v[l]| ==> v[l][i].number != v[l][k].number
  {
    forall i, k | 0 <= i < k < |v[l]|
      ensures v[l][i].number != v[l][k].number
    {
      assert FileBefore(v[l][i], v[l][k]);
    }
  }

  lemma MixedAge(base: Version, v: Version, w': Version, v': Version, level: nat, outs: seq<File>, fl: set<Flushed>)
    requires Mixed(base, v, w', v', level, outs, fl)
    ensures LevelsByAge(v')
  {
    forall l, m | 0 <= l < m < |v'|
      ensures Newer(LevelElems(v'[l]), LevelElems(v'[m]))
    {
      forall x, y | x in LevelElems(v'[l]) && y in LevelElems(v'[m]) && x.key.user == y.key.user
        ensures Tag(x.key) > Tag(y.key)
      {
        var g :| g in v'[l] && x in g.entries;
        var h :| h in v'[m] && y in h.entries;
        MixedPair(base, v, w', v', level, outs, fl, l, m, g, h, x, y);
      }
    }
  }

  lemma MixedPair(base: Version, v: Version, w': Version, v': Version, level: nat, outs: seq<File>, fl: set<Flushed>,
                  l: nat, m: nat, g: File, h: File, x: Entry, y: Entry)
    requires Mixed(base, v, w', v', level, outs, fl) && l < m < |v'|
    requires g in v'[l] && h in v'[m] && x in g.entries && y in h.entries && x.key.user == y.key.user
    ensures Tag(x.key) > Tag(y.key)
  {
    MixedFrom(base, v, w', v', level, outs, fl, l, g);
    MixedFrom(base, v, w', v', level, outs, fl, m, h);
    MixedFacts(base, v, w', v', level, outs, fl);
    hide Mixed, FlushedOk, LevelsByAge, FromInputs, Shape;
    if g in v[l] && h in v[m] {
      LevelsAge(v, l, m, g, h, x, y);
    } else if g in w'[l] && h in w'[m] {
      LevelsAge(w', l, m, g, h, x, y);
    } else if h in v[m] {
      OutputsShareNothing(base, level, outs, Flushed(m, h));
      assert false;
    } else {
      FlushedIsNewer(base, w', Flushed(l, g), x, m, h, y);
    }
  }

  lemma MixedFacts(base: Version, v: Version, w': Version, v': Version, level: nat, outs: seq<File>, fl: set<Flushed>)
    requires Mixed(base, v, w', v', level, outs, fl)
    ensures LevelsByAge(v) && LevelsByAge(w') && Shape(base) && level + 1 < |base| && FromInputs(base, level, outs)
    ensures VersionElems(w') <= VersionElems(base)
  {
  }

  lemma LevelsAge(v: Version, l: nat, m: nat, g: File, h: File, x: Entry, y: Entry)
    requires LevelsByAge(v) && l < m < |v| && g in v[l] && h in v[m] && x in g.entries && y in h.entries && x.key.user == y.key.user
    ensures Tag(x.key) > Tag(y.key)
  {
    assert Newer(LevelElems(v[l]), LevelElems(v[m]));
    assert x in LevelElems(v[l]) && y in LevelElems(v[m]);
  }

  lemma FlushedIsNewer(base: Version, w': Version, x: Flushed, e: Entry, m: nat, h: File, y: Entry)
    requires FlushedOk(base, x) && e in x.file.entries && m < |w'| && h in w'[m] && y in h.entries
    requires VersionElems(w') <= VersionElems(base) && e.key.user == y.key.user
    ensures Tag(e.key) > Tag(y.key)
  {
    assert y in LevelElems(w'[m]);
    assert y in VersionElems(w');
  }

  /** An output that meets a flushed file of its level overlaps it. */
  lemma MetIsNotDisjoint(base: Version, v: Version, w': Version, v': Version, level: nat, outs: seq<File>, fl: set<Flushed>)
    requires Mixed(base, v, w', v', level, outs, fl) && !OutputsApart(level, outs, fl)
    ensures !Shape(v')
  {
    hide Mixed, FlushedOk, FromInputs, WfFile, Disjoint, Meets;
    var x :| x in fl && x.level == level + 1 && !NoneMeets(outs, RangeOf(x.file));
    var o :| o in outs && Meets(o, RangeOf(x.file));
    MetFacts(base, v, w', v', level, outs, fl, x, o);
    OutputsShareNothing(base, level, outs, x);
    if Shape(v') {
      MetOverlaps(v'[level + 1], o, x.file);
    }
  }

  lemma MetFacts(base: Version, v: Version, w': Version, v': Version, level: nat, outs: seq<File>, fl: set<Flushed>, x: Flushed, o: File)
    requires Mixed(base, v, w', v', level, outs, fl) && x in fl && x.level == level + 1 && o in outs
    ensures level + 1 < |v'| == NUM_LEVELS && o in v'[level + 1] && x.file in v'[level + 1]
    ensures Shape(base) && |base| == NUM_LEVELS && FlushedOk(base, x) && FromInputs(base, level, outs)
  {
    assert x == Flushed(level + 1, x.file);
  }

  lemma MetOverlaps(fs: seq<File>, o: File, f: File)
    requires o in fs && f in fs && WfFile(o) && WfFile(f) && Meets(o, RangeOf(f))
    requires forall e, y :: e in o.entries && y in f.entries ==> e.key.user != y.key.user
    ensures !Disjoint(fs)
  {
    assert o.entries[0] in o.entries && f.entries[0] in f.entries;
    assert o.entries[|o.entries| - 1] in o.entries && f.entries[|f.entries| - 1] in f.entries;
    if Disjoint(fs) {
      DisjointFilesApart(fs, o, f);
    }
  }

  lemma InstalledIsMixed(d: Db, j: Job, outs: seq<File>, v': Version)
    requires Inv(d.version) && JobOk(d, j) && Made(j, outs) && |d.version| == NUM_LEVELS
    requires Replaced(d.version, v', j.level, j.in0, j.in1, outs)
    ensures Mixed(j.base, d.version, Alone(j, outs), v', j.level, outs, j.flushed)
  {
    hide JobOk, Made, Alone, Inv, Begun, Shape, Grown, FlushedOk, OldOrOutput, FromInputs, LevelsBySmallest, Replaced, VersionElems;
    InstalledIsGrown(d, j, outs, v');
    AloneFacts(d, j, outs);
    LevelsFacts(d.version);
    NumbersDiffer(d, j, outs);
    ReplacedIsOldOrOutput(d.version, v', j.level, j.in0, j.in1, outs);
  }

  lemma LevelsFacts(v: Version)
    requires Inv(v)
    ensures LevelsBySmallest(v)
  {
  }

  lemma AloneFacts(d: Db, j: Job, outs: seq<File>)
    requires JobOk(d, j) && Made(j, outs)
    ensures |j.base| == NUM_LEVELS && j.level + 1 < NUM_LEVELS && Shape(j.base) && |Alone(j, outs)| == NUM_LEVELS
    ensures Inv(Alone(j, outs)) && FromInputs(j.base, j.level, outs)
    ensures (forall x :: x in j.flushed ==> FlushedOk(j.base, x)) && VersionElems(Alone(j, outs)) <= VersionElems(j.base)
    ensures forall o :: o in outs ==> o in Alone(j, outs)[j.level + 1]
  {
    hide Made, Alone, LevelsByAge, NumbersUnique, NumberedByAge, LevelsBySmallest, Grown, FlushedOk, FromInputs, Selected, VersionElems;
    AloneIsRun(d, j, outs);
    OutputsFromInputs(j, outs);
    LsmTheorem.OutputsFromVersion(j.base, Alone(j, outs), j.level, j.in0, j.in1, outs);
    AloneHasOutputs(j.base, Alone(j, outs), j.level, j.in0, j.in1, outs);
  }

  lemma AloneHasOutputs(w: Version, w': Version, level: nat, in0: seq<File>, in1: seq<File>, outs: seq<File>)
    requires level + 1 < |w| && Replaced(w, w', level, in0, in1, outs)
    ensures forall o :: o in outs ==> o in w'[level + 1]
  {
  }

  lemma ReplacedIsOldOrOutput(v: Version, v': Version, level: nat, in0: seq<File>, in1: seq<File>, outs: seq<File>)
    requires level + 1 < |v| && LevelsBySmallest(v) && Replaced(v, v', level, in0, in1, outs)
    ensures OldOrOutput(v, v', level, outs) && LevelsBySmallest(v') && forall o :: o in outs ==> o in v'[level + 1]
  {
    forall l, g | 0 <= l < |v| && g in v'[l]
      ensures g in v[l] || (l == level + 1 && g in outs)
    {
      if l == level {
        assert g in v'[level];
      } else if l == level + 1 {
        assert g in v'[level + 1];
      }
    }
  }

  lemma NumbersDiffer(d: Db, j: Job, outs: seq<File>)
    requires JobOk(d, j) && Made(j, outs)
    ensures forall o, l, g :: o in outs && 0 <= l < |d.version| && g in d.version[l] ==> o.number != g.number
  {
  }

  /** The installed version keeps the level invariants if and only if no output meets
      a file that was flushed into its level meanwhile. */
  lemma InstallKeepsLevels(st: State, st': State, outs: seq<File>)
    requires StateInv(st) && InstallStep(st, st', outs)
    ensures Inv(st'.d.version) <==> Apart(st.job.value, outs)
  {
    var j, d := st.job.value, st.d;
    var v' := st'.d.version;
    InstalledIsMixed(d, j, outs, v');
    hide Mixed, NoneMeets, Made, Replaced, DbInv, JobOk;
    if Apart(j, outs) {
      MixedShape(j.base, d.version, Alone(j, outs), v', j.level, outs, j.flushed);
      MixedSorted(j.base, d.version, Alone(j, outs), v', j.level, outs, j.flushed);
      MixedNumbers(j.base, d.version, Alone(j, outs), v', j.level, outs, j.flushed);
      MixedLevel0(j.base, d.version, Alone(j, outs), v', j.level, outs, j.flushed);
      MixedAge(j.base, d.version, Alone(j, outs), v', j.level, outs, j.flushed);
    } else {
      MetIsNotDisjoint(j.base, d.version, Alone(j, outs), v', j.level, outs, j.flushed);
    }
  }

  lemma MixedSorted(base: Version, v: Version, w': Version, v': Version, level: nat, outs: seq<File>, fl: set<Flushed>)
    requires Mixed(base, v, w', v', level, outs, fl)
    ensures LevelsBySmallest(v') && |v'| == NUM_LEVELS
  {
  }

  // ----- what a reader finds

  /** Two stores with the same memtables and flushed files over what a compaction replaced. */
  ghost predicate Split(d: Db, d': Db, top: set<Entry>, below: set<Entry>, below': set<Entry>) {
    && AllElems(d) == top + below && AllElems(d') == top + below' && below' <= below
    && Newer(top, below) && d'.history == d.history && d'.lastSequence == d.lastSequence && d'.snapshots == d.snapshots
  }

  lemma InstalledIsSplit(st: State, st': State, outs: seq<File>)
    requires StateInv(st) && InstallStep(st, st', outs)
    ensures var d, j := st.d, st.job.value;
            Split(d, st'.d, Recent(d) + FlushedElems(j.flushed), VersionElems(j.base), VersionElems(Alone(j, outs)))
  {
    var d, j, d' := st.d, st.job.value, st'.d;
    hide StateInv, InstallStep, JobOk, DbInv, Newer, VersionElems, FlushedElems, Alone, Split, Recent;
    InstallFacts(st, st', outs);
    RecentIsNewer(d, j);
    SplitOf(d, d', FlushedElems(j.flushed), VersionElems(j.base), VersionElems(Alone(j, outs)));
  }

  lemma SplitOf(d: Db, d': Db, fl: set<Entry>, below: set<Entry>, below': set<Entry>)
    requires d' == d.(version := d'.version) && below' <= below && Newer(Recent(d) + fl, below)
    requires VersionElems(d.version) == below + fl && VersionElems(d'.version) == below' + fl
    ensures Split(d, d', Recent(d) + fl, below, below')
  {
    hide VersionElems, Newer, Elems;
    assert Recent(d') == Recent(d);
  }

  /** The entries before and after, in terms of what the compaction worked on. */
  lemma InstallFacts(st: State, st': State, outs: seq<File>)
    requires StateInv(st) && InstallStep(st, st', outs)
    ensures var d, j, d' := st.d, st.job.value, st'.d;
            && d' == d.(version := d'.version) && st'.job == None && JobOk(d, j) && DbInv(d)
            && VersionElems(d.version) == VersionElems(j.base) + FlushedElems(j.flushed)
            && VersionElems(d'.version) == VersionElems(Alone(j, outs)) + FlushedElems(j.flushed)
            && VersionElems(Alone(j, outs)) <= VersionElems(j.base)
  {
    var d, j, d' := st.d, st.job.value, st'.d;
    LevelsOf(d);
    hide DbInv, Made, Replaced, Alone, VersionElems, FlushedElems, Mixed;
    InstalledIsMixed(d, j, outs, d'.version);
    MixedElems(j.base, d.version, Alone(j, outs), d'.version, j.level, outs, j.flushed);
    GrownHolds(j.base, d.version, j.flushed);
  }

  lemma LevelsOf(d: Db)
    requires DbInv(d)
    ensures Inv(d.version) && |d.version| == NUM_LEVELS
  {
  }

  lemma MixedElems(base: Version, v: Version, w': Version, v': Version, level: nat, outs: seq<File>, fl: set<Flushed>)
    requires Mixed(base, v, w', v', level, outs, fl)
    ensures VersionElems(v') == VersionElems(w') + FlushedElems(fl) && VersionElems(w') <= VersionElems(base)
  {
    GrownHolds(w', v', fl);
  }

  lemma RecentIsNewer(d: Db, j: Job)
    requires DbInv(d) && JobOk(d, j)
    ensures Newer(Recent(d) + FlushedElems(j.flushed), VersionElems(j.base))
  {
    hide Grown, Agrees, StampedBy, NumbersBelow, Begun, Inv, FlushedElems, VersionElems, Elems;
    GrownHolds(j.base, d.version, j.flushed);
    assert Newer(Recent(d), VersionElems(d.version));
    FlushedAreNewer(j.base, j.flushed);
  }

  lemma FlushedAreNewer(base: Version, fl: set<Flushed>)
    requires forall x :: x in fl ==> FlushedOk(base, x)
    ensures Newer(FlushedElems(fl), VersionElems(base))
  {
    forall x, y | x in FlushedElems(fl) && y in VersionElems(base) && x.key.user == y.key.user
      ensures Tag(x.key) > Tag(y.key)
    {
      var f :| f in fl && x in f.file.entries;
      assert FlushedOk(base, f);
    }
  }

  /** Equal answers below give equal answers in all, and so agreement with the history. */
  lemma SplitAgrees(d: Db, d': Db, top: set<Entry>, below: set<Entry>, below': set<Entry>)
    requires Split(d, d', top, below, below') && Agrees(d) && DistinctKeys(top + below)
    requires forall u, s: nat, r, r' :: Live(d, s) && IsNewest(top, u, s, None) && IsNewest(below, u, s, r) && IsNewest(below', u, s, r')
                                        ==> Answer(r) == Answer(r')
    ensures Agrees(d')
  {
    forall u, s: nat, r', h | Live(d', s) && IsNewest(AllElems(d'), u, s, r') && IsNewest(d'.history, u, s, h)
      ensures Answer(r') == Answer(h)
    {
      var r := NewestExists(AllElems(d), u, s);
      assert Live(d, s);
      LsmTheorem.SameBelow(top, below, below', u, s, r, r');
    }
  }

  /** A live read that is answered otherwise below no longer agrees with the history. */
  lemma SplitBreaks(d: Db, d': Db, top: set<Entry>, below: set<Entry>, below': set<Entry>, u: UserKey, s: nat,
                    r: Option<Entry>, r': Option<Entry>)
    requires Split(d, d', top, below, below') && Agrees(d) && Live(d, s) && IsNewest(top, u, s, None)
    requires IsNewest(below, u, s, r) && IsNewest(below', u, s, r') && Answer(r) != Answer(r')
    ensures !Agrees(d')
  {
    var h := NewestExists(d.history, u, s);
    NewestOfUnion(top, below, u, s, None, r);
    NewestOfUnion(top, below', u, s, None, r');
    assert Live(d', s);
    assert IsNewest(AllElems(d), u, s, r) && IsNewest(AllElems(d'), u, s, r');
  }

  lemma BelowKeptExactly(d: Db, j: Job, outs: seq<File>, u: UserKey, s: nat, r: Option<Entry>, r': Option<Entry>)
    requires JobOk(d, j) && Made(j, outs) && Live(d, s)
    requires IsNewest(VersionElems(j.base), u, s, r) && IsNewest(VersionElems(Alone(j, outs)), u, s, r')
    ensures Answer(r) == Answer(r') <==> !Resurrects(j.base, j.level, j.in0, j.in1, j.snap, u, s)
  {
    AloneIsRun(d, j, outs);
    JobFacts(d, j, s);
    hide Made, JobOk, Live, CompactionTheorem.CompactionRun, Resurrects, Alone, Inv;
    ReadsKeptExactly(j.base, Alone(j, outs), j.level, j.in0, j.in1, outs, j.input, j.snap, u, s, r, r');
  }

  lemma JobFacts(d: Db, j: Job, s: nat)
    requires JobOk(d, j) && Live(d, s)
    ensures Inv(j.base) && j.level + 1 < NUM_LEVELS && |j.base| == NUM_LEVELS && j.snap <= s
  {
  }

  /** Installing keeps what live reads find if and only if none of them meets the hazard. */
  lemma InstallKeepsReads(st: State, st': State, outs: seq<File>)
    requires StateInv(st) && InstallStep(st, st', outs)
    ensures st.job.value.level + 1 < |st.job.value.base|
    ensures Agrees(st'.d) <==> NoHazard(st.d, st.job.value)
  {
    var d, j, d' := st.d, st.job.value, st'.d;
    var top, below, below' := Recent(d) + FlushedElems(j.flushed), VersionElems(j.base), VersionElems(Alone(j, outs));
    InstalledIsSplit(st, st', outs);
    KeysDistinct(d, top, below);
    JobFacts(d, j, d.lastSequence);
    assert JobOk(d, j) && Agrees(d);
    hide StateInv, JobOk, DbInv, Agrees, Split, Made, Replaced, Recent, FlushedElems, VersionElems, Alone, Resurrects, DistinctKeys, Inv, Live, IsNewest, Answer;
    if NoHazard(d, j) {
      forall u, s: nat, r, r' | Live(d, s) && IsNewest(top, u, s, None) && IsNewest(below, u, s, r) && IsNewest(below', u, s, r')
        ensures Answer(r) == Answer(r')
      {
        BelowKeptExactly(d, j, outs, u, s, r, r');
      }
      SplitAgrees(d, d', top, below, below');
    } else {
      var u, s: nat :| Live(d, s) && IsNewest(top, u, s, None) && Resurrects(j.base, j.level, j.in0, j.in1, j.snap, u, s);
      var r := NewestExists(below, u, s);
      var r' := NewestExists(below', u, s);
      BelowKeptExactly(d, j, outs, u, s, r, r');
      SplitBreaks(d, d', top, below, below', u, s, r, r');
    }
  }

  lemma KeysDistinct(d: Db, top: set<Entry>, below: set<Entry>)
    requires DbInv(d) && AllElems(d) == top + below
    ensures DistinctKeys(top + below)
  {
    LsmTheorem.AllKeysDistinct(d);
  }

  /** Installing a compaction keeps the store invariant if and only if no output meets a
      file that was flushed into its level meanwhile, and no live read meets the hazard. */
  lemma InstallKeepsInv(st: State, st': State, outs: seq<File>)
    requires StateInv(st) && InstallStep(st, st', outs)
    ensures st.job.value.level + 1 < |st.job.value.base|
    ensures StateInv(st') <==> Apart(st.job.value, outs) && NoHazard(st.d, st.job.value)
  {
    InstallKeepsLevels(st, st', outs);
    InstallKeepsReads(st, st', outs);
    InstallFacts(st, st', outs);
    NewNumbersOf(st, st', outs);
    hide StateInv, InstallStep, JobOk, Apart, NoHazard, VersionElems, FlushedElems, Alone;
    InstalledDb(st.d, st'.d);
    assert StateInv(st') <==> DbInv(st'.d) by {
      StateOf(st');
    }
  }

  lemma StateOf(st: State)
    requires st.job == None
    ensures StateInv(st) <==> DbInv(st.d)
  {
  }

  lemma InstalledDb(d: Db, d': Db)
    requires DbInv(d) && d' == d.(version := d'.version) && VersionElems(d'.version) <= VersionElems(d.version)
    requires NumbersBelow(d'.version, d.nextFile)
    ensures DbInv(d') <==> Inv(d'.version) && Agrees(d')
  {
    hide Inv, Agrees, VersionElems;
    assert Recent(d') == Recent(d) && ImmOf(d') == ImmOf(d);
    assert AllElems(d') <= AllElems(d);
  }

  lemma NewNumbersOf(st: State, st': State, outs: seq<File>)
    requires StateInv(st) && InstallStep(st, st', outs)
    ensures NumbersBelow(st'.d.version, st.d.nextFile)
  {
    NumbersOfOutputs(st.d, st.job.value, outs);
    hide JobOk, Made, Replaced, Layered, Agrees, NumbersBelow;
    var j := st.job.value;
    NewNumbersBelow(st.d.version, st'.d.version, j.level, j.in0, j.in1, outs, st.d.nextFile);
  }

  lemma NumbersOfOutputs(d: Db, j: Job, outs: seq<File>)
    requires JobOk(d, j) && Made(j, outs)
    ensures forall o :: o in outs ==> o.number < d.nextFile
  {
    hide Begun, Grown, FlushedOk, Oldest;
  }

  lemma NewNumbersBelow(v: Version, v': Version, level: nat, in0: seq<File>, in1: seq<File>, outs: seq<File>, next: nat)
    requires level + 1 < |v| && Replaced(v, v', level, in0, in1, outs) && NumbersBelow(v, next)
    requires forall o :: o in outs ==> o.number < next
    ensures NumbersBelow(v', next)
  {
    forall l, f | 0 <= l < |v'| && f in v'[l]
      ensures f.number < next
    {
      assert f in v[l] || f in outs;
    }
  }

  // ----- inputs without a gap

  /** Outputs of linked inputs meet no file that was flushed into their level: a flush
      only goes where it meets no input, so it ends before them or begins after them. */
  lemma LinkedInputsAreApart(d: Db, j: Job, outs: seq<File>)
    requires JobOk(d, j) && Made(j, outs) && Linked(j.in0 + j.in1)
    ensures Apart(j, outs)
  {
    forall x | x in j.flushed && x.level == j.level + 1
      ensures NoneMeets(outs, RangeOf(x.file))
    {
      forall o | o in outs
        ensures !Meets(o, RangeOf(x.file))
      {
        OutputBesideFlushed(d, j, outs, x, o);
      }
    }
  }

  lemma OutputBesideFlushed(d: Db, j: Job, outs: seq<File>, x: Flushed, o: File)
    requires JobOk(d, j) && Made(j, outs) && Linked(j.in0 + j.in1) && x in j.flushed && x.level == j.level + 1 && o in outs
    ensures !Meets(o, RangeOf(x.file))
  {
    WfOutput(j, outs, o);
    InputsMissFlushed(d, j, x);
    BoundsOrdered(x.file);
    BoundsOrdered(o);
    hide JobOk, Linked, Made, Begun, WfFile;
    var a := InputOf(d, j, outs, o, o.entries[0]);
    var b := InputOf(d, j, outs, o, o.entries[|o.entries| - 1]);
    if Meets(o, RangeOf(x.file)) {
      NoGapFor(j.in0 + j.in1, a, b, x.file);
    }
  }

  lemma WfOutput(j: Job, outs: seq<File>, o: File)
    requires Made(j, outs) && o in outs
    ensures WfFile(o) && o.entries != [] && o.entries[0].key == o.smallest && o.entries[|o.entries| - 1].key == o.largest
    ensures o.entries[0] in o.entries && o.entries[|o.entries| - 1] in o.entries
  {
  }

  /** The input an output's entry comes from. */
  lemma InputOf(d: Db, j: Job, outs: seq<File>, o: File, e: Entry) returns (g: File)
    requires JobOk(d, j) && Made(j, outs) && o in outs && e in o.entries
    ensures g in j.in0 + j.in1 && g.smallest.user <= e.key.user <= g.largest.user
  {
    KeptAreInputs(j, outs);
    WfInputs(j);
    hide JobOk, Begun, Made, WfFile;
    g := HolderOf(j.in0, j.in1, outs, o, e);
    InBounds(g, e);
  }

  lemma HolderOf(in0: seq<File>, in1: seq<File>, outs: seq<File>, o: File, e: Entry) returns (g: File)
    requires LevelElems(outs) <= LevelElems(in0) + LevelElems(in1) && o in outs && e in o.entries
    ensures g in in0 + in1 && e in g.entries
  {
    assert e in LevelElems(outs);
    g :| g in in0 + in1 && e in g.entries;
  }

  lemma WfInputs(j: Job)
    requires Begun(j)
    ensures WfFiles(j.in0 + j.in1)
  {
    InputsAreFiles(j);
    hide Selected, LevelsByAge, LevelsBySmallest, NumberedByAge, NumbersUnique, Disjoint, WfFile;
  }

  lemma InputsMissFlushed(d: Db, j: Job, x: Flushed)
    requires JobOk(d, j) && x in j.flushed && x.level == j.level + 1
    ensures WfFile(x.file) && forall g :: g in j.in0 + j.in1 ==> !Meets(g, RangeOf(x.file))
  {
    assert FlushedOk(j.base, x);
    InputsAreFiles(j);
  }

  lemma NoGapFor(fs: seq<File>, a: File, b: File, f: File)
    requires Linked(fs) && a in fs && b in fs && a.smallest.user <= a.largest.user && f.smallest.user <= f.largest.user
    requires a.smallest.user <= f.largest.user && f.smallest.user <= b.largest.user
    ensures exists g :: g in fs && Meets(g, RangeOf(f))
  {
    if !Meets(a, RangeOf(f)) {
      assert Spanned(fs, f.smallest.user);
      var g :| g in fs && Around(g, f.smallest.user);
      assert Meets(g, RangeOf(f));
    }
  }

  /** When the inputs have no gap, as PickCompaction's never have, the flushes meanwhile do not matter. */
  lemma LinkedInstallKeepsInv(st: State, st': State, outs: seq<File>)
    requires StateInv(st) && InstallStep(st, st', outs) && Linked(st.job.value.in0 + st.job.value.in1)
    ensures st.job.value.level + 1 < |st.job.value.base|
    ensures StateInv(st') <==> NoHazard(st.d, st.job.value)
  {
    InstallKeepsInv(st, st', outs);
    LinkedInputsAreApart(st.d, st.job.value, outs);
  }

  // ----- every run

  ghost predicate Next(st: State, st': State, act: Act) {
    match act
    case Begin(level, in0, in1, input, snap) => BeginStep(st, st', level, in0, in1, input, snap)
    case NewOutput => OutputStep(st, st')
    case Install(outs) =>
      && InstallStep(st, st', outs) && Apart(st.job.value, outs)
      && st.job.value.level + 1 < |st.job.value.base| && NoHazard(st.d, st.job.value)
    case GiveUp => st' == st.(job := None)
    case Other(step) => OtherStep(st, st', step)
  }

  lemma NextKeepsInv(st: State, st': State, act: Act)
    requires StateInv(st) && Next(st, st', act)
    ensures StateInv(st')
  {
    hide DbInv, JobOk, BeginStep, OutputStep, OtherStep, InstallStep;
    match act
    case Begin(level, in0, in1, input, snap) => BeginKeepsInv(st, st', level, in0, in1, input, snap);
    case NewOutput => OutputKeepsInv(st, st');
    case Install(outs) => InstallKeepsInv(st, st', outs);
    case GiveUp =>
    case Other(step) => OtherKeepsInv(st, st', step);
  }

  ghost predicate Run(sts: seq<State>, acts: seq<Act>) {
    && |sts| == |acts| + 1 && Init(sts[0].d) && sts[0].job == None
    && forall i :: 0 <= i < |acts| ==> Next(sts[i], sts[i + 1], acts[i])
  }

  /** In every state of every run the store has its invariant, compactions under way or not. */
  lemma {:induction false} RunKeepsInv(sts: seq<State>, acts: seq<Act>, i: nat)
    requires Run(sts, acts) && i < |sts|
    ensures StateInv(sts[i])
  {
    hide StateInv, Next;
    if i == 0 {
      StartHasInv(sts[0]);
    } else {
      RunKeepsInv(sts, acts, i - 1);
      assert Next(sts[i - 1], sts[i], acts[i - 1]);
      NextKeepsInv(sts[i - 1], sts[i], acts[i - 1]);
    }
  }

  lemma StartHasInv(st: State)
    requires Init(st.d) && st.job == None
    ensures StateInv(st)
  {
    LsmTheorem.InitHasInv(st.d);
  }
}
