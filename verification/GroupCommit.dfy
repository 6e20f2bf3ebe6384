/** Every run of the writer queue (`db/db_impl.cc`, Write). While a leader logs and
    inserts its group the mutex is free: writers arrive and readers read meanwhile. */
module GroupCommit {
  import opened Keys
  import opened WriteBatch
  import opened WriteQueue

  /** How far the leader has come. */
  datatype Stage = Waiting | Logged | Failed

  datatype Group = Group(writers: seq<Writer>, first: nat, ops: seq<Update>, inserted: nat, stage: Stage)

  /** A leader's turn that is over: the writers it took with it, the numbers its updates
      got, and whether it succeeded. `record` is the place of its record in the log. */
  datatype Served = Served(writers: seq<Writer>, first: nat, ops: seq<Update>, ok: bool, record: nat)

  /** `arrived` are all writers there ever were. The first `flushed` records of the log
      are on disk for sure. `broken` is the background error of a failed sync. */
  datatype State = State(
    arrived: seq<Writer>, queue: seq<Writer>, last: nat, log: seq<Bytes>, flushed: nat, mem: seq<Stamped>,
    broken: bool, group: Option<Group>, served: seq<Served>)

  datatype Action =
    | Arrive(w: Writer)
    | Alone(ok: bool)
    | Begin(n: nat)
    | Log(written: bool, ok: bool)
    | Insert(k: nat)
    | Finish

  /** MakeRoomForWrite failed, or the leader has no batch: nothing is written. */
  predicate AloneStep(s: State, s': State, ok: bool) {
    && s.group.None? && s.queue != [] && (ok ==> !s.broken && s.queue[0].batch.None?)
    && s' == s.(queue := s.queue[1..], served := s.served + [Served(s.queue[..1], s.last + 1, [], ok, 0)])
  }

  /** The leader takes its group, and the next sequence numbers for it. */
  predicate BeginStep(s: State, s': State, n: nat) {
    && s.group.None? && s.queue != [] && !s.broken && s.queue[0].batch.Some? && IsGroup(s.queue, n)
    && s' == s.(group := Some(Group(s.queue[..n], s.last + 1, OpsOf(s.queue[..n]), 0, Waiting)))
  }

  /** AddRecord, and Sync when the leader asked for it. A record that was written but
      could not be synced breaks the database. */
  predicate LogStep(s: State, s': State, written: bool, ok: bool) {
    && s.group.Some? && s.group.value.stage == Waiting && s.group.value.writers != []
    && var g := s.group.value;
    && var sync := g.writers[0].sync;
    && (ok ==> written) && (written && !ok ==> sync)
    && s' == s.(log := if written then s.log + [Rep(g.first, g.ops)] else s.log,
                flushed := if ok && sync then |s.log| + 1 else s.flushed,
                broken := s.broken || (written && !ok),
                group := Some(g.(stage := if ok then Logged else Failed)))
  }

  /** Some of the updates go into the memtable. */
  predicate InsertStep(s: State, s': State, k: nat) {
    && s.group.Some? && s.group.value.stage == Logged && s.group.value.inserted + k <= |s.group.value.ops|
    && var g := s.group.value;
    && s' == s.(mem := s.mem + StampedFrom(g.ops[g.inserted..g.inserted + k], g.first + g.inserted),
                group := Some(g.(inserted := g.inserted + k)))
  }

  /** The numbers are published, and the group leaves the queue. */
  predicate FinishStep(s: State, s': State) {
    && s.group.Some? && |s.group.value.writers| <= |s.queue|
    && var g := s.group.value;
    && (g.stage == Failed || (g.stage == Logged && g.inserted == |g.ops|))
    && s' == s.(last := s.last + |g.ops|, queue := s.queue[|g.writers|..], group := None,
                served := s.served + [Served(g.writers, g.first, g.ops, g.stage == Logged, if s.log == [] then 0 else |s.log| - 1)])
  }

  predicate Next(s: State, s': State, a: Action) {
    match a
    case Arrive(w) => s' == s.(arrived := s.arrived + [w], queue := s.queue + [w])
    case Alone(ok) => AloneStep(s, s', ok)
    case Begin(n) => BeginStep(s, s', n)
    case Log(written, ok) => LogStep(s, s', written, ok)
    case Insert(k) => InsertStep(s, s', k)
    case Finish => FinishStep(s, s')
  }

  function Start(base: nat): State {
    State([], [], base, [], 0, [], false, None, [])
  }

  ghost predicate Run(base: nat, ss: seq<State>, actions: seq<Action>) {
    && |ss| == |actions| + 1 && ss[0] == Start(base)
    && forall i :: 0 <= i < |actions| ==> Next(ss[i], ss[i + 1], actions[i])
  }

  // ----- what the turns add up to

  function WritersOf(served: seq<Served>): seq<Writer> {
    if served == [] then [] else WritersOf(served[..|served| - 1]) + served[|served| - 1].writers
  }

  /** The updates that were given numbers, in the order of the numbers. */
  function TakenOf(served: seq<Served>): seq<Update> {
    if served == [] then [] else TakenOf(served[..|served| - 1]) + served[|served| - 1].ops
  }

  function Inserts(g: Served): seq<Stamped> {
    if g.ok then StampedFrom(g.ops, g.first) else []
  }

  /** What the successful turns put into the memtable. */
  function EntriesOf(served: seq<Served>): seq<Stamped> {
    if served == [] then [] else EntriesOf(served[..|served| - 1]) + Inserts(served[|served| - 1])
  }

  /** A turn took its group as a whole, or did nothing. A writer that asked for a sync
      only rides with a leader that did. */
  predicate Fair(g: Served) {
    && g.writers != []
    && (g.ops == OpsOf(g.writers) || (!g.ok && g.ops == [] && |g.writers| == 1))
    && forall w :: w in g.writers && w.sync ==> g.writers[0].sync
  }

  /** The record of a successful turn with a batch is in the log, and on disk if any of
      its writers asked for that. */
  predicate Kept(s: State, g: Served) {
    g.ok && g.writers != [] && g.writers[0].batch.Some? ==>
      g.record < |s.log| && s.log[g.record] == Rep(g.first, g.ops) && (g.writers[0].sync ==> g.record < s.flushed)
  }

  ghost predicate ServedOk(base: nat, s: State) {
    && s.last == base + |TakenOf(s.served)|
    && forall i: nat {:trigger s.served[i]} :: i < |s.served| ==>
         var g := s.served[i];
         Fair(g) && Kept(s, g) && g.first == base + 1 + |TakenOf(s.served[..i])|
  }

  function Partial(s: State): seq<Stamped> {
    if s.group.Some? && s.group.value.inserted <= |s.group.value.ops|
    then StampedFrom(s.group.value.ops[..s.group.value.inserted], s.group.value.first) else []
  }

  ghost predicate GroupOk(s: State) {
    s.group.Some? ==>
      var g := s.group.value;
      && g.writers != [] && g.writers <= s.queue && g.writers[0].batch.Some?
      && g.first == s.last + 1 && g.ops == OpsOf(g.writers) && g.inserted <= |g.ops|
      && (forall w :: w in g.writers && w.sync ==> g.writers[0].sync)
      && (g.stage != Logged ==> g.inserted == 0)
      && (g.stage == Logged ==> s.log != [] && s.log[|s.log| - 1] == Rep(g.first, g.ops) && (g.writers[0].sync ==> s.flushed == |s.log|))
  }

  /** Writers leave in the order they came, and the memtable holds what the turns that
      are over and the one under way have put into it. */
  ghost predicate Inv(base: nat, s: State) {
    && s.arrived == WritersOf(s.served) + s.queue && s.flushed <= |s.log|
    && ServedOk(base, s) && GroupOk(s) && s.mem == EntriesOf(s.served) + Partial(s)
  }

  lemma AppendServed(served: seq<Served>, g: Served)
    ensures WritersOf(served + [g]) == WritersOf(served) + g.writers
    ensures TakenOf(served + [g]) == TakenOf(served) + g.ops
    ensures EntriesOf(served + [g]) == EntriesOf(served) + Inserts(g)
  {
    var more := served + [g];
    assert more[..|more| - 1] == served;
  }

  /** A turn that ends well joins the turns that did. */
  lemma ServedGrows(base: nat, s: State, s': State, g: Served)
    requires ServedOk(base, s) && s'.served == s.served + [g] && s'.log == s.log && s'.flushed == s.flushed
    requires Fair(g) && Kept(s', g) && g.first == s.last + 1 && s'.last == s.last + |g.ops|
    ensures ServedOk(base, s')
  {
    hide TakenOf, Fair;
    AppendServed(s.served, g);
    forall i: nat | i < |s'.served|
      ensures var g := s'.served[i];
              Fair(g) && Kept(s', g) && g.first == base + 1 + |TakenOf(s'.served[..i])|
    {
      if i < |s.served| {
        assert s'.served[i] == s.served[i] && s'.served[..i] == s.served[..i];
      } else {
        assert s'.served[..i] == s.served;
      }
    }
  }

  /** More of the log, or more of it on disk, takes nothing from what is there. */
  lemma ServedStays(base: nat, s: State, s': State)
    requires ServedOk(base, s) && s'.served == s.served && s'.last == s.last && s.log <= s'.log && s.flushed <= s'.flushed
    ensures ServedOk(base, s')
  {
    hide TakenOf, Fair;
    forall i: nat | i < |s'.served|
      ensures var g := s'.served[i];
              Fair(g) && Kept(s', g) && g.first == base + 1 + |TakenOf(s'.served[..i])|
    {
      assert Kept(s, s.served[i]);
    }
  }

  lemma NextKeepsInv(base: nat, s: State, s': State, a: Action)
    requires Inv(base, s) && Next(s, s', a)
    ensures Inv(base, s') && s.served <= s'.served && s.last <= s'.last
  {
    hide ServedOk, WritersOf, TakenOf, EntriesOf, OpsOf, IsGroup;
    match a
    case Arrive(w) =>
      ServedStays(base, s, s');
      assert s'.arrived == WritersOf(s.served) + (s.queue + [w]);
    case Alone(ok) =>
      AloneKeepsInv(base, s, s', ok);
    case Begin(n) =>
      BeginKeepsInv(base, s, s', n);
    case Log(written, ok) =>
      LogKeepsInv(base, s, s', written, ok);
    case Insert(k) =>
      InsertKeepsInv(base, s, s', k);
    case Finish =>
      FinishKeepsInv(base, s, s');
  }

  lemma AloneKeepsInv(base: nat, s: State, s': State, ok: bool)
    requires Inv(base, s) && AloneStep(s, s', ok)
    ensures Inv(base, s')
  {
    hide ServedOk, WritersOf, TakenOf, EntriesOf, OpsOf;
    var g := Served(s.queue[..1], s.last + 1, [], ok, 0);
    AppendServed(s.served, g);
    OneWriter(s.queue[0]);
    assert s.queue[..1] == [s.queue[0]] && s.queue == s.queue[..1] + s.queue[1..];
    assert WritersOf(s.served) + s.queue == WritersOf(s.served) + s.queue[..1] + s.queue[1..];
    assert Inserts(g) == [];
    assert EntriesOf(s.served) + [] == EntriesOf(s.served);
    ServedGrows(base, s, s', g);
  }

  lemma OneWriter(w: Writer)
    ensures OpsOf([w]) == Ops(w)
  {
    assert [w][..0] == [] && OpsOf([]) == [];
    assert OpsOf([]) + Ops(w) == Ops(w);
  }

  lemma BeginKeepsInv(base: nat, s: State, s': State, n: nat)
    requires Inv(base, s) && BeginStep(s, s', n)
    ensures Inv(base, s')
  {
    hide ServedOk, WritersOf, TakenOf, EntriesOf, OpsOf;
    ServedStays(base, s, s');
    var ws := s.queue[..n];
    assert ws[0] == s.queue[0];
    forall w | w in ws && w.sync
      ensures ws[0].sync
    {
      var i :| 0 <= i < n && ws[i] == w;
      if i > 0 {
        assert Joins(s.queue, i);
      }
    }
  }

  lemma LogKeepsInv(base: nat, s: State, s': State, written: bool, ok: bool)
    requires Inv(base, s) && LogStep(s, s', written, ok)
    ensures Inv(base, s')
  {
    hide ServedOk, WritersOf, TakenOf, EntriesOf, OpsOf;
    ServedStays(base, s, s');
  }

  lemma InsertKeepsInv(base: nat, s: State, s': State, k: nat)
    requires Inv(base, s) && InsertStep(s, s', k)
    ensures Inv(base, s')
  {
    hide Rep, ServedOk, WritersOf, TakenOf, EntriesOf, OpsOf, StampedFrom, Partial, GroupOk;
    ServedStays(base, s, s');
    PartialGrows(s, s', k);
    GroupGrows(s, s', k);
    MoreOnTop(s.mem, EntriesOf(s.served), Partial(s), Partial(s'), s'.mem);
  }

  lemma MoreOnTop(mem: seq<Stamped>, done: seq<Stamped>, part: seq<Stamped>, part': seq<Stamped>, mem': seq<Stamped>)
    requires mem == done + part && part <= part' && mem' == mem + part'[|part|..]
    ensures mem' == done + part'
  {
  }

  lemma GroupGrows(s: State, s': State, k: nat)
    requires GroupOk(s) && InsertStep(s, s', k)
    ensures GroupOk(s')
  {
    hide Rep, OpsOf, StampedFrom;
  }

  lemma PartialGrows(s: State, s': State, k: nat)
    requires InsertStep(s, s', k)
    ensures var g := s.group.value; Partial(s') == Partial(s) + StampedFrom(g.ops[g.inserted..g.inserted + k], g.first + g.inserted)
  {
    hide StampedFrom;
    StampedSplit(s.group.value.ops, s.group.value.first, s.group.value.inserted, k);
  }

  lemma StampedSplit(ops: seq<Update>, first: nat, i: nat, k: nat)
    requires i + k <= |ops|
    ensures StampedFrom(ops[..i + k], first) == StampedFrom(ops[..i], first) + StampedFrom(ops[i..i + k], first + i)
  {
    hide StampedFrom;
  }

  lemma FinishKeepsInv(base: nat, s: State, s': State)
    requires Inv(base, s) && FinishStep(s, s')
    ensures Inv(base, s')
  {
    hide ServedOk, WritersOf, TakenOf, EntriesOf, OpsOf, StampedFrom;
    var g := s.group.value;
    var t := s'.served[|s.served|];
    AppendServed(s.served, t);
    assert s.queue == g.writers + s'.queue;
    assert WritersOf(s.served) + s.queue == WritersOf(s.served) + g.writers + s'.queue;
    ServedGrows(base, s, s', t);
    if g.stage == Logged {
      assert g.ops[..g.inserted] == g.ops;
      assert s'.mem == EntriesOf(s.served) + Inserts(t) + [];
    } else {
      assert g.ops[..0] == [];
      assert StampedFrom([], g.first) == [];
      assert s'.mem == EntriesOf(s.served) + Inserts(t) + [];
    }
  }

  /** Every state of every run keeps the invariant, and turns are never taken back. */
  lemma {:induction false} RunKeepsInv(base: nat, ss: seq<State>, actions: seq<Action>, i: nat, j: nat)
    requires Run(base, ss, actions) && i <= j < |ss|
    ensures Inv(base, ss[j]) && ss[i].served <= ss[j].served
    decreases j
  {
    hide Inv, Next;
    if i < j {
      RunKeepsInv(base, ss, actions, i, j - 1);
      NextKeepsInv(base, ss[j - 1], ss[j], actions[j - 1]);
    } else if j > 0 {
      RunKeepsInv(base, ss, actions, j - 1, j - 1);
      NextKeepsInv(base, ss[j - 1], ss[j], actions[j - 1]);
    } else {
      StartInv(base);
    }
  }

  lemma StartInv(base: nat)
    ensures Inv(base, Start(base))
  {
  }

  // ----- what a run promises

  /** Each writer that has left, left in exactly one turn: `OneTurn` finds the turn and
      the place in it, `OneTurnOnly` says there is no other. The places add up in the
      order the writers came. */
  lemma {:induction false} OneTurn(served: seq<Served>, i: nat) returns (t: nat, j: nat)
    requires i < |WritersOf(served)|
    ensures t < |served| && j < |served[t].writers| && i == |WritersOf(served[..t])| + j
    ensures WritersOf(served)[i] == served[t].writers[j]
  {
    var last := |served| - 1;
    if i < |WritersOf(served[..last])| {
      t, j := OneTurn(served[..last], i);
      assert served[..last][..t] == served[..t];
    } else {
      t, j := last, i - |WritersOf(served[..last])|;
    }
  }

  lemma {:induction false} TurnsAddUp(served: seq<Served>, t: nat, u: nat)
    requires t < u <= |served|
    ensures |WritersOf(served[..t])| + |served[t].writers| <= |WritersOf(served[..u])|
    ensures |TakenOf(served[..t])| + |served[t].ops| <= |TakenOf(served[..u])|
    decreases u
  {
    assert served[..u][..u - 1] == served[..u - 1];
    if t < u - 1 {
      TurnsAddUp(served, t, u - 1);
    }
  }

  lemma OneTurnOnly(served: seq<Served>, t: nat, j: nat, u: nat, k: nat)
    requires t < |served| && j < |served[t].writers| && u < |served| && k < |served[u].writers|
    requires |WritersOf(served[..t])| + j == |WritersOf(served[..u])| + k
    ensures t == u && j == k
  {
    hide WritersOf, TakenOf;
    if t < u {
      TurnsAddUp(served, t, u);
    } else if u < t {
      TurnsAddUp(served, u, t);
    }
  }

  /** First come, first served: at any time the writers that have left are the first
      that came, and the rest wait in the order they came. */
  lemma FirstComeFirstServed(base: nat, ss: seq<State>, actions: seq<Action>, i: nat)
    requires Run(base, ss, actions) && i < |ss|
    ensures ss[i].arrived == WritersOf(ss[i].served) + ss[i].queue
  {
    hide ServedOk, GroupOk;
    RunKeepsInv(base, ss, actions, i, i);
  }

  /** The updates of the turns got consecutive numbers, in the order of the queue: none
      is left out and none is used again, even by a turn that failed. */
  lemma NumbersInOrder(base: nat, ss: seq<State>, actions: seq<Action>, i: nat, t: nat)
    requires Run(base, ss, actions) && i < |ss| && t < |ss[i].served|
    ensures var served := ss[i].served;
            && served[t].first == base + 1 + |TakenOf(served[..t])|
            && served[t].first + |served[t].ops| == base + 1 + |TakenOf(served[..t + 1])|
            && ss[i].last == base + |TakenOf(served)|
  {
    hide *;
    RunKeepsInv(base, ss, actions, i, i);
    NumbersOf(base, ss[i], t);
  }

  lemma NumbersOf(base: nat, s: State, t: nat)
    requires Inv(base, s) && t < |s.served|
    ensures s.served[t].first == base + 1 + |TakenOf(s.served[..t])| && s.last == base + |TakenOf(s.served)|
    ensures TakenOf(s.served[..t + 1]) == TakenOf(s.served[..t]) + s.served[t].ops
  {
    hide GroupOk, Fair, Kept;
    assert s.served[..t + 1][..t] == s.served[..t];
  }

  /** What a reader at a sequence number sees of the memtable. */
  function Visible(mem: seq<Stamped>, s: nat): seq<Stamped> {
    if mem == [] then []
    else
      var last := mem[|mem| - 1];
      Visible(mem[..|mem| - 1], s) + if last.seqno <= s then [last] else []
  }

  lemma {:induction false} VisibleConcat(a: seq<Stamped>, b: seq<Stamped>, s: nat)
    ensures Visible(a + b, s) == Visible(a, s) + Visible(b, s)
  {
    if b == [] {
      assert a + b == a;
    } else {
      var last := |b| - 1;
      VisibleConcat(a, b[..last], s);
      assert (a + b)[..|a + b| - 1] == a + b[..last] && (a + b)[|a + b| - 1] == b[last];
    }
  }

  lemma {:induction false} AllVisible(mem: seq<Stamped>, s: nat)
    requires forall i :: 0 <= i < |mem| ==> mem[i].seqno <= s
    ensures Visible(mem, s) == mem
  {
    if mem != [] {
      AllVisible(mem[..|mem| - 1], s);
    }
  }

  lemma {:induction false} NoneVisible(mem: seq<Stamped>, s: nat)
    requires forall i :: 0 <= i < |mem| ==> mem[i].seqno > s
    ensures Visible(mem, s) == []
  {
    if mem != [] {
      NoneVisible(mem[..|mem| - 1], s);
    }
  }

  ghost predicate Numbered(base: nat, served: seq<Served>) {
    forall i: nat {:trigger served[i]} :: i < |served| ==> served[i].first == base + 1 + |TakenOf(served[..i])|
  }

  lemma NumberedAt(base: nat, served: seq<Served>, m: nat)
    requires Numbered(base, served) && m < |served|
    ensures served[m].first == base + 1 + |TakenOf(served[..m])|
    ensures TakenOf(served[..m + 1]) == TakenOf(served[..m]) + served[m].ops
    ensures EntriesOf(served[..m + 1]) == EntriesOf(served[..m]) + Inserts(served[m])
  {
    assert served[..m + 1][..m] == served[..m];
  }

  lemma InsertsRange(g: Served)
    ensures forall i :: 0 <= i < |Inserts(g)| ==> g.first <= Inserts(g)[i].seqno < g.first + |g.ops|
    ensures forall i, j :: 0 <= i < j < |Inserts(g)| ==> Inserts(g)[i].seqno < Inserts(g)[j].seqno
  {
  }

  lemma NoTurns(served: seq<Served>)
    ensures TakenOf(served[..0]) == [] && EntriesOf(served[..0]) == [] && served[..|served|] == served
  {
  }

  /** A reader at the last number of the first `n` turns sees what they put in, and
      nothing of the others. */
  lemma {:induction false} TurnsVisible(base: nat, served: seq<Served>, n: nat, m: nat)
    requires n <= m <= |served| && Numbered(base, served)
    ensures Visible(EntriesOf(served[..m]), base + |TakenOf(served[..n])|) == EntriesOf(served[..n])
    decreases m
  {
    hide Visible, EntriesOf, TakenOf, Inserts, Numbered;
    if m == n {
      EarlierVisible(base, served, n, n);
    } else {
      var s := base + |TakenOf(served[..n])|;
      NumberedAt(base, served, m - 1);
      TurnsVisible(base, served, n, m - 1);
      VisibleConcat(EntriesOf(served[..m - 1]), Inserts(served[m - 1]), s);
      TurnsAreLater(served, n, m - 1);
      InsertsRange(served[m - 1]);
      NoneVisible(Inserts(served[m - 1]), s);
      assert EntriesOf(served[..n]) + [] == EntriesOf(served[..n]);
    }
  }

  lemma {:induction false} EarlierVisible(base: nat, served: seq<Served>, n: nat, m: nat)
    requires m <= n <= |served| && Numbered(base, served)
    ensures Visible(EntriesOf(served[..m]), base + |TakenOf(served[..n])|) == EntriesOf(served[..m])
    decreases m
  {
    hide Visible, EntriesOf, TakenOf, Inserts, Numbered;
    var s := base + |TakenOf(served[..n])|;
    if m == 0 {
      NoTurns(served);
      AllVisible([], s);
    } else {
      NumberedAt(base, served, m - 1);
      EarlierVisible(base, served, n, m - 1);
      VisibleConcat(EntriesOf(served[..m - 1]), Inserts(served[m - 1]), s);
      TurnsAddUp(served, m - 1, n);
      InsertsRange(served[m - 1]);
      AllVisible(Inserts(served[m - 1]), s);
    }
  }

  lemma {:induction false} TurnsAreLater(served: seq<Served>, n: nat, m: nat)
    requires n <= m <= |served|
    ensures |TakenOf(served[..n])| <= |TakenOf(served[..m])|
    decreases m
  {
    if n < m {
      TurnsAreLater(served, n, m - 1);
      assert served[..m][..m - 1] == served[..m - 1];
    }
  }

  /** A reader that took the last sequence number at one time sees from then on, however
      far the inserts of later groups have come, all of the groups that were over by
      then and nothing of any other. */
  lemma AllOrNothing(base: nat, ss: seq<State>, actions: seq<Action>, i: nat, j: nat)
    requires Run(base, ss, actions) && i <= j < |ss|
    ensures Visible(ss[j].mem, ss[i].last) == EntriesOf(ss[i].served)
  {
    hide Visible, EntriesOf, TakenOf, Fair, Kept, WritersOf, OpsOf;
    RunKeepsInv(base, ss, actions, i, j);
    RunKeepsInv(base, ss, actions, i, i);
    var served, n, s := ss[j].served, |ss[i].served|, ss[i].last;
    assert served[..n] == ss[i].served && served[..|served|] == served;
    TurnsVisible(base, served, n, |served|);
    TurnsAreLater(served, n, |served|);
    VisibleConcat(EntriesOf(served), Partial(ss[j]), s);
    NoneVisible(Partial(ss[j]), s);
    assert EntriesOf(ss[i].served) + [] == EntriesOf(ss[i].served);
  }

  /** A group is in what such a reader sees as a whole or not at all. */
  lemma WholeGroups(base: nat, ss: seq<State>, actions: seq<Action>, i: nat, j: nat, t: nat)
    requires Run(base, ss, actions) && i <= j < |ss| && t < |ss[j].served|
    ensures var g, s := ss[j].served[t], ss[i].last;
            if t < |ss[i].served| then g.first + |g.ops| <= s + 1 else s < g.first
  {
    hide TakenOf, Fair, Kept, WritersOf, OpsOf, EntriesOf;
    RunKeepsInv(base, ss, actions, i, j);
    RunKeepsInv(base, ss, actions, i, i);
    var served, n := ss[j].served, |ss[i].served|;
    assert served[..n] == ss[i].served;
    if t < n {
      TurnsAddUp(served, t, n);
    } else {
      TurnsAreLater(served, n, t);
    }
  }

  /** No number is in the memtable twice. */
  lemma NumbersIncrease(base: nat, ss: seq<State>, actions: seq<Action>, i: nat)
    requires Run(base, ss, actions) && i < |ss|
    ensures forall a, b :: 0 <= a < b < |ss[i].mem| ==> ss[i].mem[a].seqno < ss[i].mem[b].seqno
  {
    hide TakenOf, Fair, Kept, WritersOf, OpsOf, EntriesOf, Increasing, StampedFrom, Rep;
    RunKeepsInv(base, ss, actions, i, i);
    var s := ss[i];
    NoTurns(s.served);
    EntriesIncrease(base, s.served, |s.served|);
    IncreasingThen(EntriesOf(s.served), Partial(s), s.last);
  }

  lemma IncreasingThen(a: seq<Stamped>, b: seq<Stamped>, last: nat)
    requires Increasing(a, last) && forall i :: 0 <= i < |b| ==> b[i].seqno > last
    requires forall i, j :: 0 <= i < j < |b| ==> b[i].seqno < b[j].seqno
    ensures forall i, j :: 0 <= i < j < |a + b| ==> (a + b)[i].seqno < (a + b)[j].seqno
  {
  }

  ghost predicate Increasing(mem: seq<Stamped>, last: nat) {
    && (forall a, b :: 0 <= a < b < |mem| ==> mem[a].seqno < mem[b].seqno)
    && forall a :: 0 <= a < |mem| ==> mem[a].seqno <= last
  }

  lemma {:induction false} EntriesIncrease(base: nat, served: seq<Served>, m: nat)
    requires m <= |served| && Numbered(base, served)
    ensures Increasing(EntriesOf(served[..m]), base + |TakenOf(served[..m])|)
    decreases m
  {
    hide EntriesOf, TakenOf, Inserts, Numbered;
    if m > 0 {
      NumberedAt(base, served, m - 1);
      EntriesIncrease(base, served, m - 1);
      InsertsRange(served[m - 1]);
      IncreasingThen(EntriesOf(served[..m - 1]), Inserts(served[m - 1]), base + |TakenOf(served[..m - 1])|);
    } else {
      NoTurns(served);
    }
  }

  /** A writer that asked for a sync and was told it succeeded: all its group's updates
      are in one record of the log, and the record is on disk. */
  lemma SyncedIsOnDisk(base: nat, ss: seq<State>, actions: seq<Action>, i: nat, t: nat, w: Writer)
    requires Run(base, ss, actions) && i < |ss| && t < |ss[i].served|
    requires var g := ss[i].served[t];
             g.ok && w in g.writers && w.sync && w.batch.Some?
    ensures var g := ss[i].served[t];
            && g.record < ss[i].flushed <= |ss[i].log| && ss[i].log[g.record] == Rep(g.first, g.ops)
            && g.ops == OpsOf(g.writers) && g.writers[0].sync
  {
    hide TakenOf, WritersOf, OpsOf, EntriesOf, Rep;
    RunKeepsInv(base, ss, actions, i, i);
    LeaderHasBatch(base, ss, actions, i);
  }

  /** A turn that succeeded with a batch in it was led by a writer with a batch. */
  ghost predicate LedByBatch(s: State) {
    forall t: nat {:trigger s.served[t]} :: t < |s.served| && s.served[t].ok && s.served[t].writers != [] ==>
      s.served[t].writers[0].batch.Some? || |s.served[t].writers| == 1
  }

  lemma {:induction false} LeaderHasBatch(base: nat, ss: seq<State>, actions: seq<Action>, i: nat)
    requires Run(base, ss, actions) && i < |ss|
    ensures LedByBatch(ss[i])
    decreases i
  {
    hide TakenOf, WritersOf, OpsOf, EntriesOf, Rep, IsGroup, ServedOk;
    if i > 0 {
      RunKeepsInv(base, ss, actions, i - 1, i - 1);
      LeaderHasBatch(base, ss, actions, i - 1);
      NextKeepsLed(base, ss[i - 1], ss[i], actions[i - 1]);
    }
  }

  lemma NextKeepsLed(base: nat, s: State, s': State, a: Action)
    requires Inv(base, s) && LedByBatch(s) && Next(s, s', a)
    ensures LedByBatch(s')
  {
    hide TakenOf, WritersOf, OpsOf, EntriesOf, Rep, IsGroup, ServedOk, StampedFrom;
  }

  // ----- after a failed sync

  /** A group under way when a sync failed is the one it failed for. */
  predicate NoneGoesOn(s: State) {
    s.broken && s.group.Some? ==> s.group.value.stage == Failed
  }

  lemma {:induction false} BrokenGroupFailed(base: nat, ss: seq<State>, actions: seq<Action>, i: nat)
    requires Run(base, ss, actions) && i < |ss|
    ensures NoneGoesOn(ss[i])
  {
    hide IsGroup, OpsOf, Rep, StampedFrom;
    if i > 0 {
      BrokenGroupFailed(base, ss, actions, i - 1);
      assert Next(ss[i - 1], ss[i], actions[i - 1]);
    }
  }

  /** After a failed sync no write succeeds any more: every turn that ends later fails, and
      nothing more goes to the log or into the memtable. */
  lemma {:induction false} NothingAfterFailedSync(base: nat, ss: seq<State>, actions: seq<Action>, i: nat, j: nat)
    requires Run(base, ss, actions) && i <= j < |ss| && ss[i].broken
    ensures ss[j].broken && ss[j].log == ss[i].log && ss[j].mem == ss[i].mem && ss[i].served <= ss[j].served
    ensures forall t :: |ss[i].served| <= t < |ss[j].served| ==> !ss[j].served[t].ok
    decreases j
  {
    hide IsGroup, OpsOf, Rep, StampedFrom;
    if i < j {
      NothingAfterFailedSync(base, ss, actions, i, j - 1);
      BrokenGroupFailed(base, ss, actions, j - 1);
      assert Next(ss[j - 1], ss[j], actions[j - 1]);
    }
  }
}
