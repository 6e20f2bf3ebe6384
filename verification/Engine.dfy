/** The whole engine, threads included: the writer queue with its groups half inserted,
    and the switches, flushes, moves, snapshots and compactions under way that come in
    between (`db/db_impl.cc`). What is published of it takes the steps of module
    LongCompaction. */
module Engine {
  import opened Keys
  import opened WriteBatch
  import opened GroupCommit
  import opened GroupStore
  import opened WriteQueue
  import CompactionInputs
  import CompactionStep
  import CompactionTheorem
  import DbIter
  import DbScan
  import LongCompaction
  import Lsm
  import LsmTheorem
  import Versions

  /** The queue, and the store with all that was inserted into its memtable so far. */
  datatype Engine = Engine(q: State, st: LongCompaction.State)

  datatype Act = Queue(a: Action) | Background(step: LongCompaction.Act)

  /** What one insert step puts into the memtable. */
  function Fresh(g: Group, k: nat): seq<Entry>
    requires g.inserted + k <= |g.ops|
  {
    EntriesIn(StampedFrom(g.ops[g.inserted..g.inserted + k], g.first + g.inserted))
  }

  /** The entries of a group, once all of it is written. */
  function GroupEntries(g: Group): seq<Entry> {
    if g.stage == Logged then EntriesIn(StampedFrom(g.ops, g.first)) else []
  }

  ghost function PublishedGroup(d: Lsm.Db, last: nat, g: Group): Lsm.Db {
    d.(lastSequence := last, history := d.history + Elems(GroupEntries(g)))
  }

  /** Inserting changes the memtable; the end of a turn publishes its numbers. */
  ghost predicate QueueStep(e: Engine, e': Engine, a: Action) {
    && Next(e.q, e'.q, a)
    && match a
       case Insert(k) => e'.st == e.st.(d := e.st.d.(mem := InsertAll(e.st.d.mem, Fresh(e.q.group.value, k))))
       case Finish => e'.st == e.st.(d := PublishedGroup(e.st.d, e'.q.last, e.q.group.value))
       case _ => e'.st == e.st
  }

  /** Writes come from the queue only. The memtable is only switched by the writer at
      the front, before it takes a group. */
  ghost predicate BackgroundStep(e: Engine, e': Engine, act: LongCompaction.Act) {
    && e'.q == e.q && LongCompaction.Next(e.st, e'.st, act)
    && (act.Other? ==> !act.step.Write? && !act.step.FailedWrite? && (act.step.Switch? ==> e.q.group.None?))
  }

  ghost predicate EngineNext(e: Engine, e': Engine, act: Act) {
    match act
    case Queue(a) => QueueStep(e, e', a)
    case Background(step) => BackgroundStep(e, e', step)
  }

  ghost predicate EngineRun(base: nat, d: Lsm.Db, es: seq<Engine>, acts: seq<Act>) {
    && |es| == |acts| + 1 && es[0] == Engine(Start(base), LongCompaction.State(d, None))
    && forall i :: 0 <= i < |acts| ==> EngineNext(es[i], es[i + 1], acts[i])
  }

  // ----- what is published

  function Published(mem: seq<Entry>, last: nat): seq<Entry> {
    if mem == [] then []
    else
      var e := mem[|mem| - 1];
      Published(mem[..|mem| - 1], last) + if e.key.seqno <= last then [e] else []
  }

  lemma {:induction false} PublishedHolds(mem: seq<Entry>, last: nat, x: Entry)
    ensures x in Published(mem, last) <==> x in mem && x.key.seqno <= last
  {
    if mem != [] {
      PublishedHolds(mem[..|mem| - 1], last, x);
      assert mem == mem[..|mem| - 1] + [mem[|mem| - 1]];
    }
  }

  lemma {:induction false} PublishedIsSorted(mem: seq<Entry>, last: nat)
    requires Sorted(mem)
    ensures Sorted(Published(mem, last))
  {
    if mem != [] {
      var init, e := mem[..|mem| - 1], mem[|mem| - 1];
      PublishedIsSorted(init, last);
      var before := Published(init, last);
      forall k | 0 <= k < |before|
        ensures Before(before[k].key, e.key)
      {
        PublishedHolds(init, last, before[k]);
        var j :| 0 <= j < |init| && init[j] == before[k];
        assert mem[j] == before[k];
      }
    }
  }

  ghost function PublishedOf(d: Lsm.Db): Lsm.Db {
    d.(mem := Published(d.mem, d.lastSequence))
  }

  /** The store as a reader of a published number has it. */
  ghost function Abs(e: Engine): LongCompaction.State {
    e.st.(d := PublishedOf(e.st.d))
  }

  // ----- the invariant

  /** The memtable holds what is published and the part of the group under way. */
  ghost predicate EngineInv(base: nat, e: Engine) {
    && Inv(base, e.q) && LongCompaction.StateInv(Abs(e)) && e.q.last == e.st.d.lastSequence && Sorted(e.st.d.mem)
    && forall x :: x in e.st.d.mem && x.key.seqno > e.st.d.lastSequence <==> x in EntriesIn(Partial(e.q))
  }

  lemma PublishedIs(mem: seq<Entry>, last: nat, pub: seq<Entry>)
    requires Sorted(mem) && Sorted(pub) && forall x :: x in pub <==> x in mem && x.key.seqno <= last
    ensures pub == Published(mem, last)
  {
    hide Sorted, Published;
    PublishedIsSorted(mem, last);
    forall x
      ensures x in Elems(pub) <==> x in Elems(Published(mem, last))
    {
      PublishedHolds(mem, last, x);
    }
    SortedSame(pub, Published(mem, last));
  }

  // ----- inserting

  /** Entries with new, increasing numbers stay sorted in the memtable, and publish nothing. */
  lemma {:induction false} InsertAllKeeps(mem: seq<Entry>, es: seq<Entry>, last: nat)
    requires Sorted(mem) && (forall x :: x in es ==> x.key.seqno > last)
    requires forall x, y :: x in mem && y in es ==> x.key != y.key
    requires forall i, j :: 0 <= i < j < |es| ==> es[i].key != es[j].key
    ensures Sorted(InsertAll(mem, es)) && forall x :: x in InsertAll(mem, es) <==> x in mem || x in es
  {
    if es != [] {
      hide Sorted, Inserted;
      var init, e := es[..|es| - 1], es[|es| - 1];
      assert es == init + [e];
      InsertAllKeeps(mem, init, last);
      var most := InsertAll(mem, init);
      forall x | x in most
        ensures x.key != e.key
      {
        if x in init {
          var i :| 0 <= i < |init| && init[i] == x;
          assert es[i] == x;
        }
      }
      InsertedIsSorted(most, e);
      InsertedElems(most, e);
      forall x
        ensures x in Inserted(most, e) <==> x in mem || x in es
      {
        assert x in Inserted(most, e) <==> x in Elems(Inserted(most, e));
        assert x in Elems(most) <==> x in most;
      }
    }
  }

  /** The entries of a group that are in, and those that come next. */
  lemma EntriesSplit(ops: seq<Update>, first: nat, i: nat, k: nat)
    requires i + k <= |ops|
    ensures EntriesIn(StampedFrom(ops[..i + k], first))
         == EntriesIn(StampedFrom(ops[..i], first)) + EntriesIn(StampedFrom(ops[i..i + k], first + i))
  {
    hide StampedFrom, EntriesIn;
    StampedSplit(ops, first, i, k);
    EntriesInConcat(StampedFrom(ops[..i], first), StampedFrom(ops[i..i + k], first + i));
  }

  /** The fresh entries follow those of the group that are in already. */
  lemma FreshFollows(q: State, q': State, k: nat)
    requires InsertStep(q, q', k)
    ensures EntriesIn(Partial(q')) == EntriesIn(Partial(q)) + Fresh(q.group.value, k)
  {
    hide StampedFrom, EntriesIn;
    var g := q.group.value;
    EntriesSplit(g.ops, g.first, g.inserted, k);
  }

  lemma FreshNumbers(q: State, k: nat)
    requires q.group.Some? && q.group.value.inserted + k <= |q.group.value.ops|
    ensures var g, es := q.group.value, Fresh(q.group.value, k);
            && (forall i :: 0 <= i < |es| ==> es[i].key.seqno == g.first + g.inserted + i)
            && forall x :: x in EntriesIn(Partial(q)) ==> g.first <= x.key.seqno < g.first + g.inserted
  {
    hide StampedFrom, EntriesIn;
    var g := q.group.value;
    NumbersIn(g.ops[..g.inserted], g.first);
    NumbersIn(g.ops[g.inserted..g.inserted + k], g.first + g.inserted);
  }

  lemma NumbersIn(ops: seq<Update>, first: nat)
    ensures var es := EntriesIn(StampedFrom(ops, first));
            && |es| == |ops| && (forall i :: 0 <= i < |es| ==> es[i].key.seqno == first + i)
            && forall x :: x in es ==> first <= x.key.seqno < first + |ops|
  {
    hide StampedFrom, OpOf;
    var es := EntriesIn(StampedFrom(ops, first));
    forall x | x in es
      ensures first <= x.key.seqno < first + |ops|
    {
      var i :| 0 <= i < |es| && es[i] == x;
    }
  }

  /** What the inserts do to a memtable: the new entries come on top of `part`. */
  lemma MemAfterInsert(mem: seq<Entry>, last: nat, part: seq<Entry>, more: seq<Entry>, first: nat)
    requires Sorted(mem) && last < first && forall x :: x in mem && x.key.seqno > last <==> x in part
    requires (forall x :: x in part ==> x.key.seqno < first) && forall i :: 0 <= i < |more| ==> more[i].key.seqno == first + i
    ensures Sorted(InsertAll(mem, more)) && Published(InsertAll(mem, more), last) == Published(mem, last)
    ensures forall x :: x in InsertAll(mem, more) && x.key.seqno > last <==> x in part + more
  {
    hide Sorted, Published, InsertAll;
    forall x, y | x in mem && y in more
      ensures x.key != y.key && y.key.seqno > last
    {
      var i :| 0 <= i < |more| && more[i] == y;
      if x.key.seqno > last {
        assert x in part;
      }
    }
    forall y | y in more
      ensures y.key.seqno > last
    {
      var i :| 0 <= i < |more| && more[i] == y;
    }
    InsertAllKeeps(mem, more, last);
    PublishedIsSorted(mem, last);
    forall x
      ensures x in Published(mem, last) <==> x in InsertAll(mem, more) && x.key.seqno <= last
    {
      PublishedHolds(mem, last, x);
    }
    PublishedIs(InsertAll(mem, more), last, Published(mem, last));
  }

  lemma InsertFacts(base: nat, e: Engine, e': Engine, k: nat)
    requires EngineInv(base, e) && QueueStep(e, e', Insert(k))
    ensures InsertStep(e.q, e'.q, k) && e'.q.last == e.q.last == e.st.d.lastSequence && e.q.group.value.first == e.q.last + 1
    ensures e'.st == e.st.(d := e.st.d.(mem := InsertAll(e.st.d.mem, Fresh(e.q.group.value, k))))
    ensures Sorted(e.st.d.mem) && LongCompaction.StateInv(Abs(e))
    ensures forall x :: x in e.st.d.mem && x.key.seqno > e.st.d.lastSequence <==> x in EntriesIn(Partial(e.q))
  {
    hide LongCompaction.StateInv, Sorted, InsertAll, Published, StampedFrom;
  }

  lemma InsertStepKeeps(base: nat, e: Engine, e': Engine, k: nat)
    requires EngineInv(base, e) && QueueStep(e, e', Insert(k)) && Inv(base, e'.q)
    ensures EngineInv(base, e') && Abs(e') == Abs(e)
  {
    InsertFacts(base, e, e', k);
    FreshFollows(e.q, e'.q, k);
    FreshNumbers(e.q, k);
    var g := e.q.group.value;
    MemAfterInsert(e.st.d.mem, e.st.d.lastSequence, EntriesIn(Partial(e.q)), Fresh(g, k), g.first + g.inserted);
    hide Inv, LongCompaction.StateInv, Sorted, Published, InsertAll, Fresh, Partial, EntriesIn, InsertStep;
    assert Abs(e') == Abs(e);
  }

  // ----- publishing

  /** The end of a turn is one write of its group, or one failed write of as many numbers. */
  function TurnStep(g: Group): Lsm.Action {
    if g.stage == Logged then Lsm.Action.Write(OpsIn(g.ops)) else Lsm.FailedWrite(|g.ops|)
  }

  lemma FinishFacts(base: nat, q: State, q': State)
    requires Inv(base, q) && FinishStep(q, q')
    ensures var g := q.group.value;
            && g.first == q.last + 1 && q'.last == q.last + |g.ops| && Partial(q') == []
            && Partial(q) == (if g.stage == Logged then StampedFrom(g.ops, g.first) else [])
  {
    var g := q.group.value;
    if g.stage == Logged {
      assert g.ops[..g.inserted] == g.ops;
    } else {
      assert g.ops[..g.inserted] == [];
    }
  }

  /** What publishing the group does: all of the memtable is published now. */
  lemma MemAfterFinish(mem: seq<Entry>, last: nat, last': nat, group: seq<Entry>)
    requires Sorted(mem) && last <= last' && forall x :: x in mem && x.key.seqno > last <==> x in group
    requires forall x :: x in group ==> x.key.seqno <= last'
    ensures Published(mem, last') == mem && Elems(mem) == Elems(Published(mem, last)) + Elems(group)
    ensures forall x :: !(x in mem && x.key.seqno > last')
  {
    hide Sorted, Published;
    forall x | x in mem
      ensures x.key.seqno <= last'
    {
      assert x.key.seqno > last ==> x in group;
    }
    PublishedIs(mem, last', mem);
    forall x
      ensures x in Elems(mem) <==> x in Elems(Published(mem, last)) || x in Elems(group)
    {
      PublishedHolds(mem, last, x);
      assert x in group <==> x in Elems(group);
    }
  }

  lemma FinishEngineFacts(base: nat, e: Engine, e': Engine)
    requires EngineInv(base, e) && QueueStep(e, e', Finish)
    ensures FinishStep(e.q, e'.q) && Inv(base, e.q) && e.q.last == e.st.d.lastSequence
    ensures e'.st == e.st.(d := PublishedGroup(e.st.d, e'.q.last, e.q.group.value))
    ensures Sorted(e.st.d.mem) && LongCompaction.StateInv(Abs(e))
    ensures forall x :: x in e.st.d.mem && x.key.seqno > e.st.d.lastSequence <==> x in EntriesIn(Partial(e.q))
  {
    hide Inv, LongCompaction.StateInv, Sorted, Published, StampedFrom;
  }

  lemma FinishStepKeeps(base: nat, e: Engine, e': Engine)
    requires EngineInv(base, e) && QueueStep(e, e', Finish) && Inv(base, e'.q) && e'.q.last <= MAX_SEQUENCE
    ensures EngineInv(base, e') && LongCompaction.Next(Abs(e), Abs(e'), LongCompaction.Other(TurnStep(e.q.group.value)))
  {
    FinishEngineFacts(base, e, e');
    FinishFacts(base, e.q, e'.q);
    var g, last := e.q.group.value, e.st.d.lastSequence;
    var group := GroupEntries(g);
    assert EntriesIn([]) == [];
    assert group == EntriesIn(Partial(e.q)) && EntriesIn(Partial(e'.q)) == [];
    GroupNumbers(g);
    MemAfterFinish(e.st.d.mem, last, e'.q.last, group);
    TurnIsWritten(e.st.d, e'.st.d, g, group);
    TurnIsOther(e, e', g);
    LongCompaction.NextKeepsInv(Abs(e), Abs(e'), LongCompaction.Other(TurnStep(g)));
    hide Inv, LongCompaction.StateInv, Sorted, Published, EntriesIn, Partial, FinishStep, GroupEntries, LongCompaction.Next;
    assert forall x :: x in e'.st.d.mem && x.key.seqno > e'.st.d.lastSequence <==> x in EntriesIn(Partial(e'.q));
  }

  lemma TurnIsOther(e: Engine, e': Engine, g: Group)
    requires Lsm.Next(PublishedOf(e.st.d), PublishedOf(e'.st.d), TurnStep(g)) && e'.st == e.st.(d := e'.st.d)
    ensures LongCompaction.Next(Abs(e), Abs(e'), LongCompaction.Other(TurnStep(g)))
  {
    hide Lsm.Next, PublishedOf;
  }

  lemma TurnIsWritten(d: Lsm.Db, d': Lsm.Db, g: Group, group: seq<Entry>)
    requires g.first == d.lastSequence + 1 && group == GroupEntries(g) && Sorted(d.mem)
    requires d.lastSequence + |g.ops| <= MAX_SEQUENCE && d' == PublishedGroup(d, d.lastSequence + |g.ops|, g)
    requires Published(d.mem, d'.lastSequence) == d.mem
    requires Elems(d.mem) == Elems(Published(d.mem, d.lastSequence)) + Elems(group)
    ensures Lsm.Next(PublishedOf(d), PublishedOf(d'), TurnStep(g))
  {
    hide Sorted, Published, EntriesIn, StampedFrom, OpsIn, Elems, Lsm.Stamped;
    if g.stage == Logged {
      StampedIsIn(g.ops, g.first, d.lastSequence);
    } else {
      PublishedIsSorted(d.mem, d.lastSequence);
      NothingIn(Published(d.mem, d.lastSequence));
      SortedSame(d.mem, Published(d.mem, d.lastSequence));
      EmptyElems([]);
    }
  }

  lemma GroupNumbers(g: Group)
    ensures forall x :: x in GroupEntries(g) ==> g.first <= x.key.seqno < g.first + |g.ops|
  {
    hide StampedFrom, EntriesIn;
    NumbersIn(g.ops, g.first);
  }

  // ----- the other steps of the queue

  lemma OtherQueueStep(base: nat, e: Engine, e': Engine, a: Action)
    requires EngineInv(base, e) && QueueStep(e, e', a) && !a.Insert? && !a.Finish?
    ensures e'.st == e.st && e'.q.last == e.q.last && Partial(e'.q) == Partial(e.q)
  {
    hide Inv, LongCompaction.StateInv, Sorted, Published, IsGroup, OpsOf;
    if a.Begin? {
      assert e'.q.group.value.ops[..0] == [];
      assert StampedFrom([], e.q.last + 1) == [];
    }
  }

  lemma FinishHasGroup(e: Engine, e': Engine)
    requires QueueStep(e, e', Finish)
    ensures e.q.group.Some?
  {
  }

  /** What the published store does when the queue takes a step. */
  ghost predicate QueueSeen(e: Engine, e': Engine, a: Action) {
    if a.Finish?
    then e.q.group.Some? && LongCompaction.Next(Abs(e), Abs(e'), LongCompaction.Other(TurnStep(e.q.group.value)))
    else Abs(e') == Abs(e)
  }

  lemma QueueStepKeeps(base: nat, e: Engine, e': Engine, a: Action)
    requires EngineInv(base, e) && QueueStep(e, e', a) && e'.q.last <= MAX_SEQUENCE
    ensures EngineInv(base, e') && QueueSeen(e, e', a)
  {
    QueueMoves(base, e, e', a);
    hide EngineInv, QueueStep, LongCompaction.Next, TurnStep;
    match a
    case Insert(k) => InsertStepKeeps(base, e, e', k);
    case Finish =>
      FinishHasGroup(e, e');
      FinishStepKeeps(base, e, e');
    case _ =>
      OtherQueueStep(base, e, e', a);
      SameStore(base, e, e');
  }

  lemma SameStore(base: nat, e: Engine, e': Engine)
    requires EngineInv(base, e) && Inv(base, e'.q) && e'.st == e.st && e'.q.last == e.q.last && Partial(e'.q) == Partial(e.q)
    ensures EngineInv(base, e') && Abs(e') == Abs(e)
  {
    hide Inv, LongCompaction.StateInv, Sorted, Published, Partial, EntriesIn;
  }

  lemma QueueMoves(base: nat, e: Engine, e': Engine, a: Action)
    requires EngineInv(base, e) && QueueStep(e, e', a)
    ensures Inv(base, e'.q)
  {
    hide LongCompaction.StateInv, Sorted, Published;
    NextKeepsInv(base, e.q, e'.q, a);
  }

  // ----- what goes on in the background

  lemma NothingPending(base: nat, e: Engine)
    requires EngineInv(base, e) && e.q.group.None?
    ensures Published(e.st.d.mem, e.st.d.lastSequence) == e.st.d.mem
  {
    hide Inv, LongCompaction.StateInv, Sorted;
    assert EntriesIn(Partial(e.q)) == [];
    hide Published, Partial, EntriesIn;
    PublishedIs(e.st.d.mem, e.st.d.lastSequence, e.st.d.mem);
  }

  /** Entries above the last number do not matter to a read at a live one. */
  lemma HazardSeen(d: Lsm.Db, j: LongCompaction.Job)
    requires Lsm.DbInv(PublishedOf(d)) && j.level + 1 < |j.base| && LongCompaction.NoHazard(d, j)
    ensures LongCompaction.NoHazard(PublishedOf(d), j)
  {
    var a, more := PublishedOf(d), LongCompaction.FlushedElems(j.flushed);
    hide CompactionTheorem.Resurrects, Published, Lsm.Layered, Lsm.Agrees, Lsm.NumbersBelow, LongCompaction.FlushedElems;
    forall u, s: nat | Lsm.Live(a, s) && IsNewest(Lsm.Recent(a) + more, u, s, None)
      ensures !CompactionTheorem.Resurrects(j.base, j.level, j.in0, j.in1, j.snap, u, s)
    {
      forall x | x in Lsm.Recent(d) + more
        ensures !Sees(x, u, s)
      {
        PublishedHolds(d.mem, d.lastSequence, x);
        assert x.key.seqno <= s ==> x in Lsm.Recent(a) + more;
      }
      assert Lsm.Live(d, s) && IsNewest(Lsm.Recent(d) + more, u, s, None);
    }
  }

  lemma BackgroundStepKeeps(base: nat, e: Engine, e': Engine, act: LongCompaction.Act)
    requires EngineInv(base, e) && BackgroundStep(e, e', act)
    ensures EngineInv(base, e') && LongCompaction.Next(Abs(e), Abs(e'), act)
  {
    BackgroundIsSeen(base, e, e', act);
    BackgroundMem(base, e, e', act);
    BackgroundFacts(base, e);
    hide LongCompaction.StateInv, LongCompaction.Next, Inv, Partial, EntriesIn, Sorted, Abs;
    LongCompaction.NextKeepsInv(Abs(e), Abs(e'), act);
  }

  lemma BackgroundFacts(base: nat, e: Engine)
    requires EngineInv(base, e)
    ensures LongCompaction.StateInv(Abs(e)) && Inv(base, e.q) && Lsm.DbInv(PublishedOf(e.st.d))
  {
  }

  lemma BackgroundIsSeen(base: nat, e: Engine, e': Engine, act: LongCompaction.Act)
    requires EngineInv(base, e) && BackgroundStep(e, e', act)
    ensures LongCompaction.Next(Abs(e), Abs(e'), act)
  {
    hide EngineInv, LongCompaction.Next, Lsm.DbInv, PublishedOf, Abs;
    BackgroundFacts(base, e);
    match act
    case Install(outs) => InstallIsSeen(e, e', outs);
    case Other(step) =>
      if step.Switch? {
        NothingPending(base, e);
      }
      OtherIsSeen(e, e', step);
    case _ => JobIsSeen(e, e', act);
  }

  lemma JobIsSeen(e: Engine, e': Engine, act: LongCompaction.Act)
    requires LongCompaction.Next(e.st, e'.st, act) && (act.Begin? || act.NewOutput? || act.GiveUp?)
    ensures LongCompaction.Next(Abs(e), Abs(e'), act)
  {
    hide Published, CompactionInputs.Selected, CompactionTheorem.Inputs, Sorted;
  }

  lemma InstallIsSeen(e: Engine, e': Engine, outs: seq<Versions.File>)
    requires Lsm.DbInv(PublishedOf(e.st.d)) && LongCompaction.Next(e.st, e'.st, LongCompaction.Install(outs))
    ensures LongCompaction.Next(Abs(e), Abs(e'), LongCompaction.Install(outs))
  {
    hide Lsm.DbInv, Published, LongCompaction.NoHazard, LongCompaction.Apart, LongCompaction.Made, CompactionStep.Replaced;
    HazardSeen(e.st.d, e.st.job.value);
  }

  /** Of the steps that are not the queue's, only a switch touches the memtable. */
  lemma OtherIsSeen(e: Engine, e': Engine, step: Lsm.Action)
    requires LongCompaction.Next(e.st, e'.st, LongCompaction.Other(step)) && !step.Write? && !step.FailedWrite?
    requires step.Switch? ==> Published(e.st.d.mem, e.st.d.lastSequence) == e.st.d.mem
    ensures LongCompaction.Next(Abs(e), Abs(e'), LongCompaction.Other(step))
  {
    hide Published;
    StoreStepIsSeen(e.st.d, e'.st.d, step);
    hide Lsm.Next;
  }

  lemma StoreStepIsSeen(d: Lsm.Db, d': Lsm.Db, step: Lsm.Action)
    requires Lsm.Next(d, d', step) && !step.Write? && !step.FailedWrite? && !step.Compact?
    requires step.Switch? ==> Published(d.mem, d.lastSequence) == d.mem
    ensures Lsm.Next(PublishedOf(d), PublishedOf(d'), step)
  {
    hide Lsm.Joined, Lsm.FlushLevelOk, CompactionStep.Replaced, CompactionInputs.Selected, Versions.WfFile;
    assert Published([], d'.lastSequence) == [];
    hide Published;
  }

  /** Past a switch the memtable stays what it is. */
  lemma BackgroundMem(base: nat, e: Engine, e': Engine, act: LongCompaction.Act)
    requires EngineInv(base, e) && BackgroundStep(e, e', act)
    ensures e'.q == e.q && e'.q.last == e'.st.d.lastSequence && Sorted(e'.st.d.mem)
    ensures forall x :: x in e'.st.d.mem && x.key.seqno > e'.st.d.lastSequence <==> x in EntriesIn(Partial(e'.q))
  {
    hide Inv, LongCompaction.StateInv, Published;
    if act == LongCompaction.Other(Lsm.Switch) {
      assert EntriesIn(Partial(e.q)) == [];
    } else {
      hide Partial, EntriesIn, LongCompaction.Made, CompactionStep.Replaced, CompactionInputs.Selected;
      assert e'.st.d.mem == e.st.d.mem && e'.st.d.lastSequence == e.st.d.lastSequence;
    }
  }

  // ----- every run

  lemma StartIsOk(base: nat, d: Lsm.Db)
    requires Lsm.DbInv(d) && d.lastSequence == base
    ensures var e := Engine(Start(base), LongCompaction.State(d, None)); EngineInv(base, e) && Abs(e) == e.st
  {
    MemFacts(d);
    hide Lsm.DbInv, Sorted, Published;
    PublishedIs(d.mem, base, d.mem);
    assert EntriesIn([]) == [];
  }

  /** What the published store does in each step of the engine. */
  ghost predicate Seen(e: Engine, e': Engine, act: Act) {
    match act
    case Queue(a) => QueueSeen(e, e', a)
    case Background(step) => LongCompaction.Next(Abs(e), Abs(e'), step)
  }

  lemma EngineStepKeeps(base: nat, e: Engine, e': Engine, act: Act)
    requires EngineInv(base, e) && EngineNext(e, e', act) && e'.q.last <= MAX_SEQUENCE
    ensures EngineInv(base, e') && Seen(e, e', act)
  {
    hide EngineInv, QueueStep, BackgroundStep, QueueSeen, LongCompaction.Next;
    match act
    case Queue(a) => QueueStepKeeps(base, e, e', a);
    case Background(step) => BackgroundStepKeeps(base, e, e', step);
  }

  lemma NumbersGrow(e: Engine, e': Engine, act: Act)
    requires EngineNext(e, e', act)
    ensures e.q.last <= e'.q.last
  {
    if act.Queue? {
      LastGrows(e.q, e'.q, act.a);
    }
  }

  /** In every state of every run the published part of the store has the store invariant. */
  lemma {:induction false} EngineRunIsOk(base: nat, d: Lsm.Db, es: seq<Engine>, acts: seq<Act>, i: nat)
    requires EngineRun(base, d, es, acts) && i < |es| && es[i].q.last <= MAX_SEQUENCE
    requires Lsm.DbInv(d) && d.lastSequence == base
    ensures EngineInv(base, es[i])
  {
    hide EngineInv, EngineNext, Lsm.DbInv;
    if i == 0 {
      StartIsOk(base, d);
    } else {
      assert EngineNext(es[i - 1], es[i], acts[i - 1]);
      NumbersGrow(es[i - 1], es[i], acts[i - 1]);
      EngineRunIsOk(base, d, es, acts, i - 1);
      EngineStepKeeps(base, es[i - 1], es[i], acts[i - 1]);
    }
  }

  /** With writers, leaders and background work interleaved in any way, what is published
      of the store takes the steps of the store machine, and no others: one write for the
      end of each turn, and the switches, flushes, moves, snapshots and compactions. */
  lemma EngineRefinesStore(base: nat, d: Lsm.Db, es: seq<Engine>, acts: seq<Act>, i: nat)
    requires EngineRun(base, d, es, acts) && i < |acts| && es[i + 1].q.last <= MAX_SEQUENCE
    requires Lsm.DbInv(d) && d.lastSequence == base
    ensures Abs(es[0]) == LongCompaction.State(d, None)
    ensures LongCompaction.StateInv(Abs(es[i])) && LongCompaction.StateInv(Abs(es[i + 1])) && Seen(es[i], es[i + 1], acts[i])
  {
    StartIsOk(base, d);
    assert EngineNext(es[i], es[i + 1], acts[i]);
    NumbersGrow(es[i], es[i + 1], acts[i]);
    EngineRunIsOk(base, d, es, acts, i);
    EngineStepKeeps(base, es[i], es[i + 1], acts[i]);
    hide Seen, EngineNext;
  }

  /** A read at a live sequence number, of all that is in the memtable at that moment,
      published or not, and of what is below it, answers what the history answers. */
  lemma EngineReadsHistory(base: nat, d: Lsm.Db, es: seq<Engine>, acts: seq<Act>, i: nat,
                           u: UserKey, s: nat, r: Option<Entry>, h: Option<Entry>)
    requires EngineRun(base, d, es, acts) && i < |es| && es[i].q.last <= MAX_SEQUENCE
    requires Lsm.DbInv(d) && d.lastSequence == base
    requires Lsm.Live(es[i].st.d, s) && IsNewest(Lsm.AllElems(es[i].st.d), u, s, r) && IsNewest(es[i].st.d.history, u, s, h)
    ensures Answer(r) == Answer(h)
  {
    EngineRunIsOk(base, d, es, acts, i);
    BackgroundFacts(base, es[i]);
    ReadsPublished(es[i].st.d, u, s, r, h);
  }

  lemma ReadsPublished(d: Lsm.Db, u: UserKey, s: nat, r: Option<Entry>, h: Option<Entry>)
    requires Lsm.DbInv(PublishedOf(d)) && Lsm.Live(d, s) && IsNewest(Lsm.AllElems(d), u, s, r) && IsNewest(d.history, u, s, h)
    ensures Answer(r) == Answer(h)
  {
    hide Published, Lsm.Layered;
    var a := PublishedOf(d);
    UnpublishedUnseen(d, s);
    assert IsNewest(Lsm.AllElems(a), u, s, r);
    assert Lsm.Live(a, s);
  }

  /** All that is in the store and not published has a number above the live ones. */
  lemma UnpublishedUnseen(d: Lsm.Db, s: nat)
    requires Lsm.DbInv(PublishedOf(d)) && Lsm.Live(d, s)
    ensures forall x :: x in Lsm.AllElems(PublishedOf(d)) ==> x in Lsm.AllElems(d)
    ensures forall x :: x in Lsm.AllElems(d) && x.key.seqno <= s ==> x in Lsm.AllElems(PublishedOf(d))
  {
    hide Published, Lsm.Layered;
    forall x
      ensures x in Lsm.AllElems(PublishedOf(d)) ==> x in Lsm.AllElems(d)
      ensures x in Lsm.AllElems(d) && x.key.seqno <= s ==> x in Lsm.AllElems(PublishedOf(d))
    {
      PublishedHolds(d.mem, d.lastSequence, x);
    }
  }

  // ----- what a snapshot shows

  lemma HistoryGrows(e: Engine, e': Engine, act: Act, u: UserKey, s: nat, h: Option<Entry>)
    requires EngineNext(e, e', act) && Seen(e, e', act) && s <= e.st.d.lastSequence
    ensures (IsNewest(e.st.d.history, u, s, h) <==> IsNewest(e'.st.d.history, u, s, h)) && e.st.d.lastSequence <= e'.st.d.lastSequence
  {
    var a, b := PublishedOf(e.st.d), PublishedOf(e'.st.d);
    if e'.st.d.history != e.st.d.history || e'.st.d.lastSequence != e.st.d.lastSequence {
      var step := StoreStep(e, e', act);
      LsmTheorem.NextKeepsPast(a, b, step, u, s, h);
    }
  }

  /** The history only changes in steps of the store. */
  lemma StoreStep(e: Engine, e': Engine, act: Act) returns (step: Lsm.Action)
    requires EngineNext(e, e', act) && Seen(e, e', act)
    requires e'.st.d.history != e.st.d.history || e'.st.d.lastSequence != e.st.d.lastSequence
    ensures Lsm.Next(PublishedOf(e.st.d), PublishedOf(e'.st.d), step)
  {
    hide Lsm.Next, Published, LongCompaction.NoHazard, LongCompaction.Apart, LongCompaction.Made, CompactionStep.Replaced, CompactionInputs.Selected;
    match act
    case Queue(a) => step := TurnStep(e.q.group.value);
    case Background(b) => step := b.step;
  }

  /** What a published number can see of the history never changes again. */
  lemma {:induction false} HistoryIsFixed(base: nat, d: Lsm.Db, es: seq<Engine>, acts: seq<Act>, i: nat, j: nat,
                                          u: UserKey, s: nat, h: Option<Entry>)
    requires EngineRun(base, d, es, acts) && i <= j < |es| && es[j].q.last <= MAX_SEQUENCE
    requires Lsm.DbInv(d) && d.lastSequence == base && s <= es[i].st.d.lastSequence
    ensures IsNewest(es[i].st.d.history, u, s, h) <==> IsNewest(es[j].st.d.history, u, s, h)
    ensures es[i].st.d.lastSequence <= es[j].st.d.lastSequence
    decreases j - i
  {
    hide Lsm.DbInv, EngineNext, Seen, IsNewest;
    if i < j {
      assert EngineNext(es[j - 1], es[j], acts[j - 1]);
      NumbersGrow(es[j - 1], es[j], acts[j - 1]);
      EngineRefinesStore(base, d, es, acts, j - 1);
      HistoryIsFixed(base, d, es, acts, i, j - 1, u, s, h);
      HistoryGrows(es[j - 1], es[j], acts[j - 1], u, s, h);
    }
  }

  /** A scan at `s` of the store as it is in state `j`, with more entries put into its
      memtable while the iterator is in use, lists what the history held in state `i`:
      it depends neither on when it is made nor on what is inserted, flushed, moved or
      compacted since the number was published. */
  lemma ScansAreFixed(base: nat, d: Lsm.Db, es: seq<Engine>, acts: seq<Act>, i: nat, j: nat, s: nat,
                      later: set<Entry>, merged: seq<Entry>)
    requires EngineRun(base, d, es, acts) && i <= j < |es| && es[j].q.last <= MAX_SEQUENCE
    requires Lsm.DbInv(d) && d.lastSequence == base && s <= es[i].st.d.lastSequence && Lsm.Live(es[j].st.d, s)
    requires Sorted(merged) && Elems(merged) == Lsm.AllElems(es[j].st.d) + later && forall x :: x in later ==> x.key.seqno > s
    ensures DbScan.ListsHistory(DbIter.LiveEntries(merged, s), es[i].st.d.history, s)
  {
    EngineRunIsOk(base, d, es, acts, j);
    BackgroundFacts(base, es[j]);
    AllAgreesAt(es[j].st.d, later, s);
    DbScan.AgreeingListsHistory(merged, es[j].st.d.history, s);
    forall u, h
      ensures IsNewest(es[i].st.d.history, u, s, h) <==> IsNewest(es[j].st.d.history, u, s, h)
    {
      HistoryIsFixed(base, d, es, acts, i, j, u, s, h);
    }
    hide EngineRun, EngineInv, Lsm.DbInv, Lsm.Live, IsNewest, DbIter.LiveEntries, Sorted;
    SameListing(DbIter.LiveEntries(merged, s), es[i].st.d.history, es[j].st.d.history, s);
  }

  lemma SameListing(live: seq<Entry>, a: set<Entry>, b: set<Entry>, s: nat)
    requires DbScan.ListsHistory(live, b, s) && forall u, h :: IsNewest(a, u, s, h) <==> IsNewest(b, u, s, h)
    ensures DbScan.ListsHistory(live, a, s)
  {
    hide IsNewest, DbScan.Shows;
    forall u, value
      ensures DbScan.Reads(a, u, s, value) <==> DbScan.Reads(b, u, s, value)
    {
    }
  }

  lemma AllAgreesAt(d: Lsm.Db, later: set<Entry>, s: nat)
    requires Lsm.DbInv(PublishedOf(d)) && Lsm.Live(d, s) && forall x :: x in later ==> x.key.seqno > s
    ensures DbScan.AgreesAt(Lsm.AllElems(d) + later, d.history, s)
  {
    hide Published, Lsm.Layered;
    UnpublishedUnseen(d, s);
    var a := PublishedOf(d);
    forall u, r, h | IsNewest(Lsm.AllElems(d) + later, u, s, r) && IsNewest(d.history, u, s, h)
      ensures Answer(r) == Answer(h)
    {
      assert IsNewest(Lsm.AllElems(a), u, s, r);
      assert Lsm.Live(a, s);
    }
  }
}
