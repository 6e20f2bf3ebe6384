/** The whole store as a state machine: writes, memtable switches, flushes,
    compactions, moves and snapshots (`db/db_impl.cc`). Each step is atomic up to
    its LogAndApply. */
module Lsm {
  import opened Keys
  import opened Versions
  import opened InputSelection
  import opened CompactionInputs
  import opened CompactionStep
  import opened CompactionTheorem

  datatype Op = Put(user: UserKey, value: Bytes) | Delete(user: UserKey)

  /** `history` is every operation ever applied, as the entry it was stamped with. */
  datatype Db = Db(mem: seq<Entry>, imm: Option<seq<Entry>>, version: Version, lastSequence: nat, nextFile: nat,
                   snapshots: multiset<nat>, history: set<Entry>)

  ghost predicate Init(d: Db) {
    && d.mem == [] && d.imm == None && |d.version| == NUM_LEVELS && (forall l :: 0 <= l < NUM_LEVELS ==> d.version[l] == [])
    && d.lastSequence == 0 && d.snapshots == multiset{} && d.history == {}
  }

  function ImmOf(d: Db): seq<Entry> {
    if d.imm.Some? then d.imm.value else []
  }

  /** The memtable and the one being flushed. */
  ghost function Recent(d: Db): set<Entry> {
    Elems(d.mem) + Elems(ImmOf(d))
  }

  ghost function AllElems(d: Db): set<Entry> {
    Recent(d) + VersionElems(d.version)
  }

  /** Sequence numbers a client can read at. */
  predicate Live(d: Db, s: nat) {
    s == d.lastSequence || s in d.snapshots
  }

  // ----- the steps

  function EntryOf(op: Op, seqno: nat): Entry {
    match op
    case Put(u, value) => Entry(IKey(u, seqno, Value), value)
    case Delete(u) => Entry(IKey(u, seqno, Deletion), [])
  }

  /** Operations of a batch get consecutive sequence numbers in order. */
  function Stamped(ops: seq<Op>, last: nat): (es: seq<Entry>)
    ensures |es| == |ops| && forall i :: 0 <= i < |ops| ==> es[i] == EntryOf(ops[i], last + 1 + i)
  {
    seq(|ops|, i requires 0 <= i < |ops| => EntryOf(ops[i], last + 1 + i))
  }

  ghost predicate WriteStep(d: Db, d': Db, ops: seq<Op>) {
    var added := Elems(Stamped(ops, d.lastSequence));
    && d.lastSequence + |ops| <= MAX_SEQUENCE
    && Sorted(d'.mem) && Elems(d'.mem) == Elems(d.mem) + added
    && d' == d.(mem := d'.mem, lastSequence := d.lastSequence + |ops|, history := d.history + added)
  }

  /** A write that failed, to the log or to the disk, has used up its numbers. */
  ghost predicate FailedStep(d: Db, d': Db, count: nat) {
    d.lastSequence + count <= MAX_SEQUENCE && d' == d.(lastSequence := d.lastSequence + count)
  }

  ghost predicate SwitchStep(d: Db, d': Db) {
    d.imm == None && d' == d.(mem := [], imm := Some(d.mem), nextFile := d.nextFile + 1)
  }

  /** `f` joins its level of the version. */
  ghost predicate Joined(v: Version, v': Version, level: nat, f: File)
    requires level < |v|
  {
    && |v'| == |v| && (forall l :: 0 <= l < |v| && l != level ==> v'[l] == v[l])
    && (forall g :: g in v'[level] <==> g in v[level] || g == f) && BySmallest(v'[level])
  }

  /** Past level 0 a flushed file only goes where nothing above or beside meets it. */
  ghost predicate FlushLevelOk(v: Version, level: nat, f: File) {
    && level <= MAX_MEM_COMPACT_LEVEL < |v|
    && (level > 0 ==> forall l :: 0 <= l <= level ==> NoneMeets(v[l], Range(Some(f.smallest.user), Some(f.largest.user))))
  }

  ghost predicate FlushStep(d: Db, d': Db, level: nat, f: File) {
    && d.imm.Some?
    && if d.imm.value == [] then d' == d.(imm := None, nextFile := d.nextFile + 1)
       else
         && WfFile(f) && f.entries == d.imm.value && f.number == d.nextFile
         && FlushLevelOk(d.version, level, f) && Joined(d.version, d'.version, level, f)
         && d' == d.(imm := None, version := d'.version, nextFile := d.nextFile + 1)
  }

  /** The oldest live snapshot, or the last sequence number when there is none. */
  ghost predicate IsSmallestSnapshot(d: Db, snap: nat) {
    if d.snapshots == multiset{} then snap == d.lastSequence
    else snap in d.snapshots && forall s :: s in d.snapshots ==> snap <= s
  }

  /** One compaction of `level`, with outputs numbered from `nextFile`. */
  ghost predicate CompactStep(d: Db, d': Db, level: nat, in0: seq<File>, in1: seq<File>, outs: seq<File>,
                              input: seq<Entry>, snap: nat) {
    && |d.version| == NUM_LEVELS && level + 1 < NUM_LEVELS && IsSmallestSnapshot(d, snap)
    && CompactionRun(d.version, d'.version, level, in0, in1, outs, input, snap)
    && (forall o :: o in outs ==> d.nextFile <= o.number < d'.nextFile) && d.nextFile <= d'.nextFile
    && d' == d.(version := d'.version, nextFile := d'.nextFile)
  }

  /** No read a client can still make meets the hazard of CompactionTheorem. */
  ghost predicate HazardFree(d: Db, level: nat, in0: seq<File>, in1: seq<File>, snap: nat)
    requires level + 1 < |d.version|
  {
    forall u, s: nat :: Live(d, s) && IsNewest(Recent(d), u, s, None) ==> !Resurrects(d.version, level, in0, in1, snap, u, s)
  }

  ghost predicate MoveStep(d: Db, d': Db, level: nat, f: File) {
    && |d.version| == NUM_LEVELS && level + 1 < NUM_LEVELS
    && Selected(d.version, level, [f], []) && Replaced(d.version, d'.version, level, [f], [], [f])
    && d' == d.(version := d'.version)
  }

  ghost predicate SnapshotStep(d: Db, d': Db) {
    d' == d.(snapshots := d.snapshots + multiset{d.lastSequence})
  }

  ghost predicate ReleaseStep(d: Db, d': Db, s: nat) {
    s in d.snapshots && d' == d.(snapshots := d.snapshots - multiset{s})
  }

  datatype Action =
    | Write(ops: seq<Op>)
    | FailedWrite(count: nat)
    | Switch
    | Flush(level: nat, file: File)
    | Compact(level: nat, in0: seq<File>, in1: seq<File>, outs: seq<File>, input: seq<Entry>, snap: nat)
    | Move(level: nat, file: File)
    | GetSnapshot
    | ReleaseSnapshot(s: nat)

  ghost predicate Next(d: Db, d': Db, step: Action) {
    match step
    case Write(ops) => WriteStep(d, d', ops)
    case FailedWrite(count) => FailedStep(d, d', count)
    case Switch => SwitchStep(d, d')
    case Flush(level, f) => FlushStep(d, d', level, f)
    case Compact(level, in0, in1, outs, input, snap) =>
      CompactStep(d, d', level, in0, in1, outs, input, snap) && HazardFree(d, level, in0, in1, snap)
    case Move(level, f) => MoveStep(d, d', level, f)
    case GetSnapshot => SnapshotStep(d, d')
    case ReleaseSnapshot(s) => ReleaseStep(d, d', s)
  }

  // ----- the invariant

  /** Everything `s` can see is stamped no later than `last`. */
  ghost predicate StampedBy(es: set<Entry>, last: nat) {
    forall e :: e in es ==> e.key.seqno <= last
  }

  ghost predicate NumbersBelow(v: Version, n: nat) {
    forall l, f :: 0 <= l < |v| && f in v[l] ==> f.number < n
  }

  /** A live read of the store answers what the history answers. */
  ghost predicate Agrees(d: Db) {
    forall u, s: nat, r, h :: Live(d, s) && IsNewest(AllElems(d), u, s, r) && IsNewest(d.history, u, s, h) ==> Answer(r) == Answer(h)
  }

  ghost predicate Layered(d: Db) {
    && Sorted(d.mem) && Sorted(ImmOf(d)) && Inv(d.version)
    && Newer(Elems(d.mem), Elems(ImmOf(d))) && Newer(Recent(d), VersionElems(d.version))
  }

  ghost predicate DbInv(d: Db) {
    && Layered(d) && Agrees(d)
    && StampedBy(AllElems(d), d.lastSequence) && StampedBy(d.history, d.lastSequence) && d.lastSequence <= MAX_SEQUENCE
    && DistinctKeys(d.history) && NumbersBelow(d.version, d.nextFile)
    && forall s :: s in d.snapshots ==> s <= d.lastSequence
  }
}
