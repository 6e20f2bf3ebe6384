/** What a client of the store is promised, with nothing said of entries, stamps or files:
    the store is a map from user keys to values, and a read or a scan at a sequence number
    finds that map as the operations numbered so far have made it (`include/leveldb/db.h`). */
module Replay {
  import opened Keys
  import opened Versions
  import Compaction
  import opened Lsm
  import opened LsmTheorem

  type Contents = map<UserKey, Bytes>

  function Lookup(m: Contents, u: UserKey): Option<Bytes> {
    if u in m then Some(m[u]) else None
  }

  function Apply(m: Contents, op: Op): Contents {
    match op
    case Put(u, value) => m[u := value]
    case Delete(u) => m - {u}
  }

  /** A batch takes effect from its first operation to its last. */
  function ApplyAll(m: Contents, ops: seq<Op>): Contents {
    if ops == [] then m else Apply(ApplyAll(m, ops[..|ops| - 1]), ops[|ops| - 1])
  }

  /** How many of `count` operations that come after number `last` are numbered up to `s`. */
  function Upto(last: nat, count: nat, s: nat): (n: nat)
    ensures n <= count
  {
    if s <= last then 0 else if s - last < count then s - last else count
  }

  /** The operations that succeeded in the first `i` steps of a run, up to number `s`. */
  ghost function Replayed(ds: seq<Db>, steps: seq<Action>, i: nat, s: nat): Contents
    requires i <= |steps| < |ds|
  {
    if i == 0 then map[]
    else
      var m := Replayed(ds, steps, i - 1, s);
      match steps[i - 1]
      case Write(ops) => ApplyAll(m, ops[..Upto(ds[i - 1].lastSequence, |ops|, s)])
      case _ => m
  }

  // ----- one write

  /** What one operation, and then a batch, does to what `u` holds: the last operation on it decides. */
  function AfterOp(op: Op, u: UserKey, before: Option<Bytes>): Option<Bytes> {
    match op
    case Put(x, value) => if x == u then Some(value) else before
    case Delete(x) => if x == u then None else before
  }

  function AfterOps(ops: seq<Op>, u: UserKey, before: Option<Bytes>): Option<Bytes> {
    if ops == [] then before else AfterOp(ops[|ops| - 1], u, AfterOps(ops[..|ops| - 1], u, before))
  }

  lemma {:induction false} AfterOpsIs(m: Contents, ops: seq<Op>, u: UserKey)
    ensures Lookup(ApplyAll(m, ops), u) == AfterOps(ops, u, Lookup(m, u))
  {
    if ops != [] {
      AfterOpsIs(m, ops[..|ops| - 1], u);
    }
  }

  /** A read of `u` at `s` in these entries answers `v`. */
  ghost predicate Shows(es: set<Entry>, u: UserKey, s: nat, v: Option<Bytes>) {
    forall h :: IsNewest(es, u, s, h) ==> Answer(h) == v
  }

  lemma OneShown(es: set<Entry>, u: UserKey, s: nat, v: Option<Bytes>, op: Op, n: nat)
    requires Shows(es, u, s, v) && forall x :: x in es ==> x.key.seqno < n
    ensures Shows(es + {EntryOf(op, n)}, u, s, if n <= s then AfterOp(op, u, v) else v)
  {
    var e := EntryOf(op, n);
    forall h | IsNewest(es + {e}, u, s, h)
      ensures Answer(h) == if n <= s then AfterOp(op, u, v) else v
    {
      if Sees(e, u, s) {
        assert h.value == e;
      } else {
        assert IsNewest(es, u, s, h);
      }
    }
  }

  /** The first `k` operations of a batch, stamped with the numbers after `last`. */
  lemma {:induction false} OpsShown(es: set<Entry>, u: UserKey, s: nat, v: Option<Bytes>, ops: seq<Op>, last: nat, k: nat)
    requires Shows(es, u, s, v) && k <= |ops| && forall x :: x in es ==> x.key.seqno <= last
    ensures Shows(es + Elems(Stamped(ops, last)[..k]), u, s, AfterOps(ops[..Upto(last, k, s)], u, v))
    ensures forall x :: x in es + Elems(Stamped(ops, last)[..k]) ==> x.key.seqno <= last + k
  {
    hide Shows, AfterOp, Elems, Stamped, EntryOf;
    var stamped := Stamped(ops, last);
    if k == 0 {
      NoneStamped(es, stamped);
      assert ops[..0] == [];
    } else {
      OpsShown(es, u, s, v, ops, last, k - 1);
      var before, n := es + Elems(stamped[..k - 1]), Upto(last, k - 1, s);
      OneStamped(es, stamped, k - 1);
      OneShown(before, u, s, AfterOps(ops[..n], u, v), ops[k - 1], last + k);
      NumberOf(ops[k - 1], last + k);
      if last + k <= s {
        assert ops[..k][..k - 1] == ops[..k - 1];
      }
    }
  }

  lemma NoneStamped(es: set<Entry>, stamped: seq<Entry>)
    ensures es + Elems(stamped[..0]) == es
  {
  }

  lemma OneStamped(es: set<Entry>, stamped: seq<Entry>, k: nat)
    requires k < |stamped|
    ensures es + Elems(stamped[..k + 1]) == es + Elems(stamped[..k]) + {stamped[k]}
  {
    assert stamped[..k + 1] == stamped[..k] + [stamped[k]];
  }

  lemma NumberOf(op: Op, n: nat)
    ensures EntryOf(op, n).key.seqno == n
  {
  }

  lemma BatchShown(es: set<Entry>, u: UserKey, s: nat, v: Option<Bytes>, ops: seq<Op>, last: nat)
    requires Shows(es, u, s, v) && forall x :: x in es ==> x.key.seqno <= last
    ensures Shows(es + Elems(Stamped(ops, last)), u, s, AfterOps(ops[..Upto(last, |ops|, s)], u, v))
  {
    hide Shows, AfterOps;
    OpsShown(es, u, s, v, ops, last, |ops|);
    assert Stamped(ops, last)[..|ops|] == Stamped(ops, last);
  }

  /** A read of all that the store holds gives this answer. */
  ghost predicate Finds(d: Db, u: UserKey, s: nat, value: Option<Bytes>) {
    exists r :: IsNewest(AllElems(d), u, s, r) && Answer(r) == value
  }

  lemma FindsOne(d: Db, u: UserKey, s: nat, value: Option<Bytes>)
    requires DbInv(d) && Finds(d, u, s, value)
    ensures Shows(AllElems(d), u, s, value)
  {
    AllKeysDistinct(d);
    var r :| IsNewest(AllElems(d), u, s, r) && Answer(r) == value;
    forall h | IsNewest(AllElems(d), u, s, h)
      ensures Answer(h) == value
    {
      NewestIsUnique(AllElems(d), u, s, r, h);
    }
  }

  /** After a write a read finds the value that its last operation on the user key put,
      nothing if that deleted it, and what it found before if there is none. */
  lemma WriteIsRead(d: Db, d': Db, ops: seq<Op>, u: UserKey, before: Option<Bytes>)
    requires DbInv(d) && WriteStep(d, d', ops) && Finds(d, u, d.lastSequence, before)
    ensures Finds(d', u, d'.lastSequence, AfterOps(ops, u, before))
  {
    hide DbInv, AllElems, Stamped, Elems, AfterOps;
    var last, s := d.lastSequence, d'.lastSequence;
    FindsOne(d, u, last, before);
    WriteLayers(d, d', ops);
    AllIsStamped(d);
    assert Shows(AllElems(d), u, s, before) by {
      forall h | IsNewest(AllElems(d), u, s, h)
        ensures Answer(h) == before
      {
        assert IsNewest(AllElems(d), u, last, h);
      }
    }
    BatchShown(AllElems(d), u, s, before, ops, last);
    assert ops[..|ops|] == ops && AllElems(d') == AllElems(d) + Elems(Stamped(ops, last));
    var r := NewestExists(AllElems(d'), u, s);
  }

  lemma AllIsStamped(d: Db)
    requires DbInv(d)
    ensures forall x :: x in AllElems(d) ==> x.key.seqno <= d.lastSequence
    ensures forall x :: x in d.history ==> x.key.seqno <= d.lastSequence
  {
  }

  /** A write that failed changes no read. */
  lemma FailedIsNotRead(d: Db, d': Db, count: nat, u: UserKey, before: Option<Bytes>)
    requires DbInv(d) && FailedStep(d, d', count) && Finds(d, u, d.lastSequence, before)
    ensures Finds(d', u, d'.lastSequence, before)
  {
    hide DbInv;
    AllIsStamped(d);
    assert AllElems(d') == AllElems(d) && Recent(d') == Recent(d) && ImmOf(d') == ImmOf(d);
    var r :| IsNewest(AllElems(d), u, d.lastSequence, r) && Answer(r) == before;
    assert IsNewest(AllElems(d'), u, d'.lastSequence, r);
  }

  // ----- every run

  /** The history answers what the operations make. */
  lemma {:induction false} HistoryIsReplayed(ds: seq<Db>, steps: seq<Action>, i: nat, u: UserKey, s: nat)
    requires Run(ds, steps) && i < |ds|
    ensures Shows(ds[i].history, u, s, Lookup(Replayed(ds, steps, i, s), u))
  {
    hide DbInv, AfterOps, ApplyAll, Shows, Next;
    if i == 0 {
      NothingShown(u, s);
    } else {
      HistoryIsReplayed(ds, steps, i - 1, u, s);
      RunKeepsInv(ds, steps, i - 1);
      assert Next(ds[i - 1], ds[i], steps[i - 1]);
      StepReplays(ds[i - 1], ds[i], steps[i - 1], u, s, Replayed(ds, steps, i - 1, s));
    }
  }

  lemma NothingShown(u: UserKey, s: nat)
    ensures Shows({}, u, s, None)
  {
  }

  lemma StepReplays(d: Db, d': Db, step: Action, u: UserKey, s: nat, m: Contents)
    requires DbInv(d) && Next(d, d', step) && Shows(d.history, u, s, Lookup(m, u))
    ensures Shows(d'.history, u, s, Lookup(if step.Write? then ApplyAll(m, step.ops[..Upto(d.lastSequence, |step.ops|, s)]) else m, u))
  {
    AllIsStamped(d);
    hide DbInv, Shows, AfterOps, ApplyAll;
    if step.Write? {
      BatchShown(d.history, u, s, Lookup(m, u), step.ops, d.lastSequence);
      AfterOpsIs(m, step.ops[..Upto(d.lastSequence, |step.ops|, s)], u);
    } else {
      assert d'.history == d.history;
    }
  }

  /** In every state of every run, a read at a live number answers what the operations
      that succeeded, up to that number, make of an empty map. */
  lemma ReadsAreReplayed(ds: seq<Db>, steps: seq<Action>, i: nat, u: UserKey, s: nat, r: Option<Entry>)
    requires Run(ds, steps) && i < |ds| && Live(ds[i], s) && IsNewest(AllElems(ds[i]), u, s, r)
    ensures Answer(r) == Lookup(Replayed(ds, steps, i, s), u)
  {
    RunKeepsInv(ds, steps, i);
    HistoryIsReplayed(ds, steps, i, u, s);
    var h := NewestExists(ds[i].history, u, s);
  }

  // ----- each number is used once

  /** All that is stored was written, and no number was given twice. */
  ghost predicate WrittenOnce(d: Db) {
    && AllElems(d) <= d.history
    && forall x, y :: x in d.history && y in d.history && x.key.seqno == y.key.seqno ==> x == y
  }

  lemma StampedOnce(h: set<Entry>, ops: seq<Op>, last: nat)
    requires forall x :: x in h ==> x.key.seqno <= last
    requires forall x, y :: x in h && y in h && x.key.seqno == y.key.seqno ==> x == y
    ensures var all := h + Elems(Stamped(ops, last)); forall x, y :: x in all && y in all && x.key.seqno == y.key.seqno ==> x == y
  {
    StampedApart(ops, last);
    hide Stamped, Elems;
  }

  lemma StampedApart(ops: seq<Op>, last: nat)
    ensures var es := Elems(Stamped(ops, last));
            && (forall x :: x in es ==> x.key.seqno > last)
            && forall x, y :: x in es && y in es && x.key.seqno == y.key.seqno ==> x == y
  {
    hide Stamped, Elems;
    var es := Elems(Stamped(ops, last));
    forall x | x in es
      ensures x.key.seqno > last
    {
      var k := PlaceOf(ops, last, x);
    }
    forall x, y | x in es && y in es && x.key.seqno == y.key.seqno
      ensures x == y
    {
      var k := PlaceOf(ops, last, x);
      var j := PlaceOf(ops, last, y);
    }
  }

  lemma PlaceOf(ops: seq<Op>, last: nat, x: Entry) returns (k: nat)
    requires x in Elems(Stamped(ops, last))
    ensures k < |ops| && x == Stamped(ops, last)[k] && x.key.seqno == last + 1 + k
  {
    var es := Stamped(ops, last);
    k :| 0 <= k < |es| && es[k] == x;
    NumberOf(ops[k], last + 1 + k);
  }

  lemma StepWritesOnce(d: Db, d': Db, step: Action)
    requires DbInv(d) && Next(d, d', step) && WrittenOnce(d)
    ensures WrittenOnce(d')
  {
    AllIsStamped(d);
    match step
    case Write(ops) =>
      WriteLayers(d, d', ops);
      StampedOnce(d.history, ops, d.lastSequence);
    case Compact(level, in0, in1, outs, input, snap) => OutputsFromVersion(d.version, d'.version, level, in0, in1, outs);
    case Move(level, f) => MovedStays(d, d', level, f);
    case Flush(level, f) => FlushedStays(d, d', level, f);
    case _ => SameStays(d, d');
  }

  lemma SameStays(d: Db, d': Db)
    requires d'.history == d.history && d'.version == d.version && WrittenOnce(d)
    requires (d'.mem == d.mem && d'.imm == d.imm) || (d'.mem == [] && d.imm == None && d'.imm == Some(d.mem))
    ensures WrittenOnce(d')
  {
    assert AllElems(d') <= AllElems(d);
  }

  lemma MovedStays(d: Db, d': Db, level: nat, f: File)
    requires DbInv(d) && MoveStep(d, d', level, f) && WrittenOnce(d)
    ensures WrittenOnce(d')
  {
    MoveIsStep(d.version, d'.version, level, f);
    MovedElems(d.version, d'.version, level, f);
    assert Recent(d') == Recent(d) && ImmOf(d') == ImmOf(d);
  }

  lemma FlushedStays(d: Db, d': Db, level: nat, f: File)
    requires DbInv(d) && FlushStep(d, d', level, f) && WrittenOnce(d)
    ensures WrittenOnce(d')
  {
    if ImmOf(d) == [] {
      assert AllElems(d') <= AllElems(d);
    } else {
      FlushKeepsLayers(d, d', level, f);
    }
  }

  /** In every state of every run the entries of a user key have different numbers: what
      Compaction.KeptByReads asks of the inputs of a compaction. */
  lemma {:induction false} RunWritesOnce(ds: seq<Db>, steps: seq<Action>, i: nat)
    requires Run(ds, steps) && i < |ds|
    ensures WrittenOnce(ds[i]) && Compaction.NumberedOnce(AllElems(ds[i]))
  {
    hide DbInv;
    if i == 0 {
      InitHasInv(ds[0]);
      NothingStored(ds[0]);
    } else {
      RunWritesOnce(ds, steps, i - 1);
      RunKeepsInv(ds, steps, i - 1);
      assert Next(ds[i - 1], ds[i], steps[i - 1]);
      StepWritesOnce(ds[i - 1], ds[i], steps[i - 1]);
    }
  }

  lemma NothingStored(d: Db)
    requires Init(d)
    ensures WrittenOnce(d)
  {
    assert Elems([]) == {};
    assert VersionElems(d.version) == {} by {
      assert forall l :: 0 <= l < |d.version| ==> LevelElems(d.version[l]) == {};
    }
  }
}
