/** What the clients of the store are promised when many of them write, read and scan at
    once (`include/leveldb/db.h`): the store is a map from byte strings to byte strings,
    and a read or a scan at a sequence number finds that map as the batches of the calls
    of Write that succeeded have made it, one after the other. */
module Client {
  import opened Keys
  import opened WriteBatch
  import opened WriteQueue
  import opened GroupCommit
  import opened GroupStore
  import opened Engine
  import Comparator
  import DbIter
  import DbScan
  import Lsm
  import LsmTheorem
  import Replay

  type Contents = map<Bytes, Bytes>

  function Lookup(m: Contents, key: Bytes): Option<Bytes> {
    if key in m then Some(m[key]) else None
  }

  function Apply(m: Contents, op: Update): Contents {
    match op
    case Put(key, value) => m[key := value]
    case Delete(key) => m - {key}
  }

  function ApplyAll(m: Contents, ops: seq<Update>): Contents {
    if ops == [] then m else Apply(ApplyAll(m, ops[..|ops| - 1]), ops[|ops| - 1])
  }

  /** The updates of all batches, writer after writer. */
  function Batches(ws: seq<Writer>): seq<Update> {
    if ws == [] then []
    else
      match ws[0].batch
      case None => Batches(ws[1..])
      case Some(ops) => ops + Batches(ws[1..])
  }

  /** How many of `count` updates numbered from `first` on are numbered up to `s`. */
  function Upto(first: nat, count: nat, s: nat): (n: nat)
    ensures n <= count
  {
    if s < first then 0 else if s - first < count then s - first + 1 else count
  }

  /** What the turns that are over have made of an empty store, up to number `s`. */
  function Contained(served: seq<Served>, s: nat): Contents {
    if served == [] then map[]
    else
      var m, g := Contained(served[..|served| - 1], s), served[|served| - 1];
      var ops := Batches(g.writers);
      if g.ok then ApplyAll(m, ops[..Upto(g.first, |ops|, s)]) else m
  }

  // ----- one turn

  lemma {:induction false} BatchesAppend(a: seq<Writer>, b: seq<Writer>)
    ensures Batches(a + b) == Batches(a) + Batches(b)
  {
    if a == [] {
      assert a + b == b;
    } else {
      BatchesAppend(a[1..], b);
      assert (a + b)[0] == a[0] && (a + b)[1..] == a[1..] + b;
      if a[0].batch.Some? {
        OpsAssoc(a[0].batch.value, Batches(a[1..]), Batches(b));
      }
    }
  }

  lemma OpsAssoc(a: seq<Update>, b: seq<Update>, c: seq<Update>)
    ensures a + (b + c) == a + b + c
  {
  }

  /** The batch of a group has the updates of its writers in order. */
  lemma {:induction false} BatchesAreOps(ws: seq<Writer>)
    ensures OpsOf(ws) == Batches(ws)
  {
    if ws != [] {
      var init, last := ws[..|ws| - 1], ws[|ws| - 1];
      BatchesAreOps(init);
      BatchesAppend(init, [last]);
      assert ws == init + [last] && Batches([last][1..]) == [];
    }
  }

  /** The last update of a key decides, for the byte string as for its place in the order. */
  lemma {:induction false} AfterIs(m: Contents, ops: seq<Update>, key: Bytes)
    ensures Replay.AfterOps(OpsIn(ops), Comparator.Place(key), Lookup(m, key)) == Lookup(ApplyAll(m, ops), key)
  {
    hide OpsIn;
    if ops != [] {
      var init, op := ops[..|ops| - 1], ops[|ops| - 1];
      AfterIs(m, init, key);
      assert OpsIn(ops)[..|ops| - 1] == OpsIn(init);
      Comparator.PlaceKeepsOrder(op.key, key);
    }
  }

  lemma TurnShows(history: set<Entry>, key: Bytes, s: nat, m: Contents, ops: seq<Update>, last: nat)
    requires Replay.Shows(history, Comparator.Place(key), s, Lookup(m, key)) && forall x :: x in history ==> x.key.seqno <= last
    ensures Replay.Shows(history + Elems(EntriesIn(StampedFrom(ops, last + 1))), Comparator.Place(key), s,
                         Lookup(ApplyAll(m, ops[..Upto(last + 1, |ops|, s)]), key))
  {
    hide Replay.Shows, Replay.AfterOps, ApplyAll, EntriesIn, StampedFrom, Comparator.Place, Elems;
    var n := Upto(last + 1, |ops|, s);
    Replay.BatchShown(history, Comparator.Place(key), s, Lookup(m, key), OpsIn(ops), last);
    StampedIsIn(ops, last + 1, last);
    assert OpsIn(ops)[..n] == OpsIn(ops[..n]);
    AfterIs(m, ops[..n], key);
  }

  // ----- every run

  lemma ContainedMore(served: seq<Served>, g: Served, s: nat)
    ensures var ops := Batches(g.writers);
            Contained(served + [g], s) == if g.ok then ApplyAll(Contained(served, s), ops[..Upto(g.first, |ops|, s)]) else Contained(served, s)
  {
    assert (served + [g])[..|served|] == served;
  }

  /** Only the end of a turn changes the history, and only by the updates of its writers. */
  lemma StepContained(base: nat, e: Engine, e': Engine, act: Act, key: Bytes, s: nat)
    requires EngineInv(base, e) && EngineNext(e, e', act)
    requires Replay.Shows(e.st.d.history, Comparator.Place(key), s, Lookup(Contained(e.q.served, s), key))
    ensures Replay.Shows(e'.st.d.history, Comparator.Place(key), s, Lookup(Contained(e'.q.served, s), key))
  {
    hide Replay.Shows, Comparator.Place, Contained;
    if act == Queue(Finish) {
      FinishContained(base, e, e', key, s);
    } else if act.Queue? && act.a.Alone? {
      AloneContained(e, e', act.a.ok, s);
    } else {
      OtherContained(e, e', act);
    }
  }

  lemma FinishContained(base: nat, e: Engine, e': Engine, key: Bytes, s: nat)
    requires EngineInv(base, e) && QueueStep(e, e', Finish)
    requires Replay.Shows(e.st.d.history, Comparator.Place(key), s, Lookup(Contained(e.q.served, s), key))
    ensures Replay.Shows(e'.st.d.history, Comparator.Place(key), s, Lookup(Contained(e'.q.served, s), key))
  {
    HistoryFacts(base, e, e');
    GroupFacts(base, e.q, e'.q);
    hide Replay.Shows, Comparator.Place, Contained, EngineInv, QueueStep, Inv, FinishStep, GroupEntries;
    TurnContained(e.st.d.history, e'.st.d.history, e.q.served, e'.q.served[|e.q.served|], e.q.group.value, key, s);
  }

  lemma HistoryFacts(base: nat, e: Engine, e': Engine)
    requires EngineInv(base, e) && QueueStep(e, e', Finish)
    ensures Inv(base, e.q) && FinishStep(e.q, e'.q)
    ensures e'.st.d.history == e.st.d.history + Elems(GroupEntries(e.q.group.value))
    ensures forall x :: x in e.st.d.history ==> x.key.seqno <= e.q.last
  {
    FinishEngineFacts(base, e, e');
    BackgroundFacts(base, e);
    Replay.AllIsStamped(PublishedOf(e.st.d));
    hide EngineInv, QueueStep, GroupEntries, Elems;
  }

  lemma TurnContained(history: set<Entry>, history': set<Entry>, served: seq<Served>, t: Served, g: Group, key: Bytes, s: nat)
    requires history' == history + Elems(GroupEntries(g)) && g.first > 0 && forall x :: x in history ==> x.key.seqno < g.first
    requires t.writers == g.writers && t.first == g.first && (t.ok <==> g.stage == Logged) && g.ops == OpsOf(g.writers)
    requires Replay.Shows(history, Comparator.Place(key), s, Lookup(Contained(served, s), key))
    ensures Replay.Shows(history', Comparator.Place(key), s, Lookup(Contained(served + [t], s), key))
  {
    hide Replay.Shows, Comparator.Place, Contained, Batches, ApplyAll, EntriesIn, StampedFrom, Elems, Lookup, OpsOf;
    BatchesAreOps(g.writers);
    ContainedMore(served, t, s);
    if g.stage == Logged {
      TurnShows(history, key, s, Contained(served, s), g.ops, g.first - 1);
    } else {
      Nothing(history);
    }
  }

  lemma Nothing(h: set<Entry>)
    ensures h + Elems([]) == h
  {
  }

  lemma GroupFacts(base: nat, q: GroupCommit.State, q': GroupCommit.State)
    requires Inv(base, q) && FinishStep(q, q')
    ensures q.group.Some? && q.group.value.ops == OpsOf(q.group.value.writers) && q.group.value.first == q.last + 1
    ensures |q'.served| == |q.served| + 1 && q'.served == q.served + [q'.served[|q.served|]]
    ensures var g, t := q.group.value, q'.served[|q.served|]; t.writers == g.writers && t.first == g.first && (t.ok <==> g.stage == Logged)
  {
    hide ServedOk;
  }

  lemma AloneContained(e: Engine, e': Engine, ok: bool, s: nat)
    requires QueueStep(e, e', Alone(ok))
    ensures e'.st.d.history == e.st.d.history && Contained(e'.q.served, s) == Contained(e.q.served, s)
  {
    var g := e'.q.served[|e.q.served|];
    assert e'.q.served == e.q.served + [g];
    ContainedMore(e.q.served, g, s);
    if ok {
      assert g.writers == [e.q.queue[0]] && g.writers[1..] == [];
      assert Batches(g.writers) == [];
    }
  }

  lemma OtherContained(e: Engine, e': Engine, act: Act)
    requires EngineNext(e, e', act) && act != Queue(Finish) && !(act.Queue? && act.a.Alone?)
    ensures e'.st.d.history == e.st.d.history && e'.q.served == e.q.served
  {
  }

  /** The history of the engine answers what the batches that succeeded make. */
  lemma {:induction false} HistoryIsContained(d: Lsm.Db, es: seq<Engine>, acts: seq<Act>, i: nat, key: Bytes, s: nat)
    requires EngineRun(0, d, es, acts) && Lsm.Init(d) && i < |es| && es[i].q.last <= MAX_SEQUENCE
    ensures Replay.Shows(es[i].st.d.history, Comparator.Place(key), s, Lookup(Contained(es[i].q.served, s), key))
  {
    Lsm0(d);
    hide EngineInv, EngineNext, Lsm.Init, Lsm.DbInv, Contained, Replay.Shows, Comparator.Place;
    if i == 0 {
      NothingContained(d, es, acts, key, s);
    } else {
      assert EngineNext(es[i - 1], es[i], acts[i - 1]);
      NumbersGrow(es[i - 1], es[i], acts[i - 1]);
      HistoryIsContained(d, es, acts, i - 1, key, s);
      EngineRunIsOk(0, d, es, acts, i - 1);
      StepContained(0, es[i - 1], es[i], acts[i - 1], key, s);
    }
  }

  lemma Lsm0(d: Lsm.Db)
    requires Lsm.Init(d)
    ensures Lsm.DbInv(d) && d.lastSequence == 0
  {
    LsmTheorem.InitHasInv(d);
  }

  lemma NothingContained(d: Lsm.Db, es: seq<Engine>, acts: seq<Act>, key: Bytes, s: nat)
    requires EngineRun(0, d, es, acts) && Lsm.Init(d)
    ensures Replay.Shows(es[0].st.d.history, Comparator.Place(key), s, Lookup(Contained(es[0].q.served, s), key))
  {
    Replay.NothingShown(Comparator.Place(key), s);
  }

  /** In every state of every run of the engine, with writers, leaders and background work
      interleaved in any way, a read of a key at a live number answers what the batches of
      the calls of Write that succeeded make of an empty map, up to that number. */
  lemma ReadsAreContained(d: Lsm.Db, es: seq<Engine>, acts: seq<Act>, i: nat, key: Bytes, s: nat, r: Option<Entry>)
    requires EngineRun(0, d, es, acts) && Lsm.Init(d) && i < |es| && es[i].q.last <= MAX_SEQUENCE
    requires Lsm.Live(es[i].st.d, s) && IsNewest(Lsm.AllElems(es[i].st.d), Comparator.Place(key), s, r)
    ensures Answer(r) == Lookup(Contained(es[i].q.served, s), key)
  {
    Lsm0(d);
    HistoryIsContained(d, es, acts, i, key, s);
    hide Lsm.Init, Lsm.DbInv, Lsm.Live, Contained, Comparator.Place, EngineRun, IsNewest;
    var h := NewestExists(es[i].st.d.history, Comparator.Place(key), s);
    EngineReadsHistory(0, d, es, acts, i, Comparator.Place(key), s, r, h);
  }

  /** A scan at a live number, made at any later time and with any inserts while its
      iterator is in use, shows a key with a value exactly if that map holds it so. */
  lemma ScansAreContained(d: Lsm.Db, es: seq<Engine>, acts: seq<Act>, i: nat, j: nat, s: nat, later: set<Entry>, merged: seq<Entry>,
                          key: Bytes, value: Bytes)
    requires EngineRun(0, d, es, acts) && Lsm.Init(d) && i <= j < |es| && es[j].q.last <= MAX_SEQUENCE
    requires s <= es[i].st.d.lastSequence && Lsm.Live(es[j].st.d, s)
    requires Sorted(merged) && Elems(merged) == Lsm.AllElems(es[j].st.d) + later && forall x :: x in later ==> x.key.seqno > s
    ensures DbScan.Shows(DbIter.LiveEntries(merged, s), Comparator.Place(key), value)
       <==> Lookup(Contained(es[i].q.served, s), key) == Some(value)
  {
    Lsm0(d);
    ScansAreFixed(0, d, es, acts, i, j, s, later, merged);
    NumbersUpTo(es, acts, i, j, d);
    HistoryIsContained(d, es, acts, i, key, s);
    DbScan.ReadsAreShown(es[i].st.d.history, Comparator.Place(key), s, value, Lookup(Contained(es[i].q.served, s), key));
  }

  lemma {:induction false} NumbersUpTo(es: seq<Engine>, acts: seq<Act>, i: nat, j: nat, d: Lsm.Db)
    requires EngineRun(0, d, es, acts) && i <= j < |es|
    ensures es[i].q.last <= es[j].q.last
    decreases j - i
  {
    hide EngineNext;
    if i < j {
      NumbersUpTo(es, acts, i, j - 1, d);
      assert EngineNext(es[j - 1], es[j], acts[j - 1]);
      NumbersGrow(es[j - 1], es[j], acts[j - 1]);
    }
  }
}
