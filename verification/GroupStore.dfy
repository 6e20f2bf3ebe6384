/** The writer queue and the store together: each turn of a leader is one write of the
    store machine, and a reader that comes while later groups are half inserted reads
    what the history of the turns published by then holds (`db/db_impl.cc`). */
module GroupStore {
  import opened Keys
  import opened WriteBatch
  import opened GroupCommit
  import Comparator
  import DbImpl
  import Lsm
  import LsmTheorem

  /** The store machine knows a user key by its place in the comparator's order. */
  function OpOf(op: Update): Lsm.Op {
    match op
    case Put(key, value) => Lsm.Put(Comparator.Place(key), value)
    case Delete(key) => Lsm.Delete(Comparator.Place(key))
  }

  function OpsIn(ops: seq<Update>): (r: seq<Lsm.Op>)
    ensures |r| == |ops| && forall i :: 0 <= i < |r| ==> r[i] == OpOf(ops[i])
  {
    seq(|ops|, i requires 0 <= i < |ops| => OpOf(ops[i]))
  }

  function EntryIn(e: Stamped): Entry {
    Lsm.EntryOf(OpOf(e.op), e.seqno)
  }

  function EntriesIn(mem: seq<Stamped>): (r: seq<Entry>)
    ensures |r| == |mem| && forall i :: 0 <= i < |r| ==> r[i] == EntryIn(mem[i])
  {
    seq(|mem|, i requires 0 <= i < |mem| => EntryIn(mem[i]))
  }

  // ----- a turn is a write

  function InsertAll(mem: seq<Entry>, es: seq<Entry>): seq<Entry> {
    if es == [] then mem else Inserted(InsertAll(mem, es[..|es| - 1]), es[|es| - 1])
  }

  /** The store after a turn. */
  ghost function Applied(d: Lsm.Db, g: Served): Lsm.Db {
    var es := Lsm.Stamped(OpsIn(g.ops), d.lastSequence);
    if g.ok
    then d.(mem := InsertAll(d.mem, es), lastSequence := d.lastSequence + |g.ops|, history := d.history + Elems(es))
    else d.(lastSequence := d.lastSequence + |g.ops|)
  }

  ghost function After(d: Lsm.Db, served: seq<Served>): Lsm.Db {
    if served == [] then d else Applied(After(d, served[..|served| - 1]), served[|served| - 1])
  }

  function StepOf(g: Served): Lsm.Action {
    if g.ok then Lsm.Action.Write(OpsIn(g.ops)) else Lsm.FailedWrite(|g.ops|)
  }

  lemma {:induction false} InsertAllHolds(mem: seq<Entry>, ops: seq<Lsm.Op>, last: nat, i: nat)
    requires Sorted(mem) && (forall x :: x in mem ==> x.key.seqno <= last) && i <= |ops|
    ensures DbImpl.InsertedUpTo(Elems(mem), InsertAll(mem, Lsm.Stamped(ops, last)[..i]), ops, last, i)
  {
    hide DbImpl.InsertedUpTo, Sorted, Inserted;
    var es := Lsm.Stamped(ops, last);
    if i == 0 {
      DbImpl.InsertedNone(mem, ops, last);
    } else {
      InsertAllHolds(mem, ops, last, i - 1);
      assert es[..i][..i - 1] == es[..i - 1];
      DbImpl.InsertedNext(Elems(mem), InsertAll(mem, es[..i - 1]), ops, last, i - 1);
    }
  }

  lemma TurnIsStep(d: Lsm.Db, g: Served)
    requires Lsm.DbInv(d) && d.lastSequence + |g.ops| <= MAX_SEQUENCE
    ensures Lsm.Next(d, Applied(d, g), StepOf(g)) && Lsm.DbInv(Applied(d, g))
  {
    var ops, last := OpsIn(g.ops), d.lastSequence;
    var es := Lsm.Stamped(ops, last);
    MemFacts(d);
    hide Lsm.DbInv, Sorted, DbImpl.InsertedUpTo, InsertAll, OpsIn, Elems;
    if g.ok {
      InsertAllHolds(d.mem, ops, last, |ops|);
      assert es[..|ops|] == es;
      DbImpl.InsertedAll(Elems(d.mem), InsertAll(d.mem, es), ops, last);
    }
    LsmTheorem.NextKeepsInv(d, Applied(d, g), StepOf(g));
  }

  lemma MemFacts(d: Lsm.Db)
    requires Lsm.DbInv(d)
    ensures Sorted(d.mem) && forall x :: x in d.mem ==> x.key.seqno <= d.lastSequence
  {
    forall x | x in d.mem
      ensures x.key.seqno <= d.lastSequence
    {
      assert x in Lsm.AllElems(d);
    }
  }

  lemma {:induction false} TurnsKeepInv(d: Lsm.Db, served: seq<Served>)
    requires Lsm.DbInv(d) && d.lastSequence + |TakenOf(served)| <= MAX_SEQUENCE
    ensures Lsm.DbInv(After(d, served)) && After(d, served).lastSequence == d.lastSequence + |TakenOf(served)|
  {
    hide Lsm.DbInv;
    if served != [] {
      TurnsKeepInv(d, served[..|served| - 1]);
      TurnIsStep(After(d, served[..|served| - 1]), served[|served| - 1]);
    }
  }

  lemma EmptyTurn(d: Lsm.Db, g: Served)
    requires g.ops == []
    ensures Applied(d, g) == d
  {
    assert Lsm.Stamped(OpsIn(g.ops), d.lastSequence) == [];
    assert d.history + Elems([]) == d.history;
  }

  lemma AfterOneMore(d: Lsm.Db, served: seq<Served>, g: Served)
    ensures After(d, served + [g]) == Applied(After(d, served), g)
  {
    assert (served + [g])[..|served|] == served;
  }

  /** Every step of the queue is a step of the store, or none: the end of a leader's turn
      is one write of its whole group, or a failed write of as many numbers; nothing
      else changes the store. */
  lemma GroupsRefineStore(base: nat, d: Lsm.Db, ss: seq<State>, actions: seq<Action>, i: nat)
    requires Run(base, ss, actions) && i < |actions| && ss[i + 1].last <= MAX_SEQUENCE
    requires Lsm.DbInv(d) && d.lastSequence == base
    ensures var a, b := After(d, ss[i].served), After(d, ss[i + 1].served);
            && Lsm.DbInv(a) && Lsm.DbInv(b) && a.lastSequence == ss[i].last && b.lastSequence == ss[i + 1].last
            && if actions[i].Finish? then ss[i + 1].served != [] && Lsm.Next(a, b, StepOf(ss[i + 1].served[|ss[i + 1].served| - 1]))
               else a == b
  {
    hide Lsm.DbInv, Lsm.Next, Applied, GroupOk, Fair, Kept, TakenOf;
    assert Next(ss[i], ss[i + 1], actions[i]);
    RunKeepsInv(base, ss, actions, i, i);
    RunKeepsInv(base, ss, actions, i + 1, i + 1);
    var was, now := ss[i].served, ss[i + 1].served;
    LastIsTaken(base, ss[i]);
    LastIsTaken(base, ss[i + 1]);
    LastGrows(ss[i], ss[i + 1], actions[i]);
    TurnsKeepInv(d, was);
    TurnsKeepInv(d, now);
    if now != was {
      var g := now[|now| - 1];
      assert now == was + [g];
      AfterOneMore(d, was, g);
      if actions[i].Finish? {
        assert |g.ops| + ss[i].last == ss[i + 1].last;
        TurnIsStep(After(d, was), g);
      } else {
        EmptyTurn(After(d, was), g);
      }
    }
  }

  lemma LastIsTaken(base: nat, s: State)
    requires Inv(base, s)
    ensures s.last == base + |TakenOf(s.served)|
  {
  }

  lemma LastGrows(s: State, s': State, a: Action)
    requires Next(s, s', a)
    ensures s.last <= s'.last
    ensures if a.Finish? then |s'.served| == |s.served| + 1 && s'.served == s.served + [s'.served[|s.served|]]
            else if a.Alone? then s'.served == s.served + [s'.served[|s.served|]] && s'.served[|s.served|].ops == []
            else s'.served == s.served
  {
  }

  // ----- readers among the inserts

  lemma EntriesInConcat(a: seq<Stamped>, b: seq<Stamped>)
    ensures EntriesIn(a + b) == EntriesIn(a) + EntriesIn(b)
  {
  }

  lemma StampedIsIn(ops: seq<Update>, first: nat, last: nat)
    requires first == last + 1
    ensures Lsm.Stamped(OpsIn(ops), last) == EntriesIn(StampedFrom(ops, first))
  {
    hide StampedFrom, OpOf;
  }

  lemma NumberedFirst(last: nat, served: seq<Served>)
    requires Numbered(last, served) && served != []
    ensures Numbered(last, served[..|served| - 1])
    ensures served[|served| - 1].first == last + 1 + |TakenOf(served[..|served| - 1])|
  {
    hide TakenOf;
    var init := served[..|served| - 1];
    forall i: nat | i < |init|
      ensures init[i].first == last + 1 + |TakenOf(init[..i])|
    {
      assert init[i] == served[i] && init[..i] == served[..i];
    }
  }

  /** The memtable of the store holds what the turns put in, and the rest is as it was. */
  lemma {:induction false} AfterHolds(d: Lsm.Db, served: seq<Served>)
    requires Lsm.DbInv(d) && d.lastSequence + |TakenOf(served)| <= MAX_SEQUENCE && Numbered(d.lastSequence, served)
    ensures var a := After(d, served);
            && Elems(a.mem) == Elems(d.mem) + Elems(EntriesIn(EntriesOf(served)))
            && a.imm == d.imm && a.version == d.version
  {
    hide Lsm.DbInv, Elems, StampedFrom, Numbered;
    if served == [] {
      assert EntriesIn([]) == [];
      NothingIn(d.mem);
    } else {
      var init, g := served[..|served| - 1], served[|served| - 1];
      NumberedFirst(d.lastSequence, served);
      TurnsKeepInv(d, init);
      AfterHolds(d, init);
      TurnAdds(After(d, init), g);
      EntriesInConcat(EntriesOf(init), Inserts(g));
      ElemsUnion(Elems(d.mem), EntriesIn(EntriesOf(init)), EntriesIn(Inserts(g)));
    }
  }

  lemma TurnAdds(a: Lsm.Db, g: Served)
    requires Lsm.DbInv(a) && a.lastSequence + |g.ops| <= MAX_SEQUENCE && g.first == a.lastSequence + 1
    ensures Elems(Applied(a, g).mem) == Elems(a.mem) + Elems(EntriesIn(Inserts(g)))
    ensures Applied(a, g).imm == a.imm && Applied(a, g).version == a.version
  {
    hide Lsm.DbInv, Sorted, StampedFrom;
    TurnIsStep(a, g);
    if g.ok {
      StampedIsIn(g.ops, g.first, a.lastSequence);
    } else {
      assert EntriesIn([]) == [];
      NothingIn(a.mem);
    }
  }

  lemma NothingIn(mem: seq<Entry>)
    ensures Elems(mem) + Elems([]) == Elems(mem)
  {
  }

  lemma ElemsUnion(base: set<Entry>, a: seq<Entry>, b: seq<Entry>)
    ensures base + Elems(a) + Elems(b) == base + Elems(a + b)
  {
    assert forall x :: x in a + b <==> x in a || x in b;
  }

  lemma {:induction false} VisibleHolds(mem: seq<Stamped>, s: nat, e: Stamped)
    ensures e in Visible(mem, s) <==> e in mem && e.seqno <= s
  {
    if mem != [] {
      VisibleHolds(mem[..|mem| - 1], s, e);
      assert mem == mem[..|mem| - 1] + [mem[|mem| - 1]];
    }
  }

  lemma HoldsEntryIn(mem: seq<Stamped>, x: Entry)
    ensures x in Elems(EntriesIn(mem)) <==> exists e :: e in mem && EntryIn(e) == x
  {
    if x in EntriesIn(mem) {
      var k :| 0 <= k < |mem| && EntriesIn(mem)[k] == x;
      assert mem[k] in mem && EntryIn(mem[k]) == x;
    }
    if e :| e in mem && EntryIn(e) == x {
      var k :| 0 <= k < |mem| && mem[k] == e;
      assert EntriesIn(mem)[k] == x;
    }
  }

  /** What a number sees of the memtable is what the visible part holds. */
  lemma SeenIsVisible(mem: seq<Stamped>, s: nat, x: Entry)
    ensures x in Elems(EntriesIn(Visible(mem, s))) <==> x in Elems(EntriesIn(mem)) && x.key.seqno <= s
  {
    hide Visible, Elems, EntriesIn;
    HoldsEntryIn(mem, x);
    HoldsEntryIn(Visible(mem, s), x);
    forall e: Stamped
      ensures e in Visible(mem, s) <==> e in mem && e.seqno <= s
    {
      VisibleHolds(mem, s, e);
    }
  }

  lemma ServedNumbered(base: nat, s: State)
    requires Inv(base, s)
    ensures Numbered(base, s.served)
  {
    hide TakenOf, Fair, Kept, GroupOk;
  }

  /** A reader at a number published earlier, whatever has been inserted since: its read
      of the memtable and of what is below answers what the history of the turns that
      were over at that time answers. */
  lemma ReadsAnswerHistory(base: nat, d: Lsm.Db, ss: seq<State>, actions: seq<Action>, i: nat, j: nat,
                           u: UserKey, r: Option<Entry>, h: Option<Entry>)
    requires Run(base, ss, actions) && i <= j < |ss| && ss[i].last <= MAX_SEQUENCE
    requires Lsm.DbInv(d) && d.lastSequence == base
    requires IsNewest(Elems(EntriesIn(ss[j].mem)) + Lsm.AllElems(d), u, ss[i].last, r)
    requires IsNewest(After(d, ss[i].served).history, u, ss[i].last, h)
    ensures Answer(r) == Answer(h)
  {
    hide Inv, Lsm.DbInv, Visible, Numbered, After, Elems, EntriesIn;
    RunKeepsInv(base, ss, actions, i, i);
    LastIsTaken(base, ss[i]);
    ServedNumbered(base, ss[i]);
    TurnsKeepInv(d, ss[i].served);
    AfterHolds(d, ss[i].served);
    AllOrNothing(base, ss, actions, i, j);
    var s, a := ss[i].last, After(d, ss[i].served);
    var part := Elems(EntriesIn(Visible(ss[j].mem, s)));
    assert Lsm.AllElems(a) == part + Lsm.AllElems(d);
    forall x: Entry
      ensures x in part <==> x in Elems(EntriesIn(ss[j].mem)) && x.key.seqno <= s
    {
      SeenIsVisible(ss[j].mem, s, x);
    }
    SameSeen(Elems(EntriesIn(ss[j].mem)), part, Lsm.AllElems(d), u, s, r);
    LiveReads(a, u, r, h);
  }

  lemma SameSeen(more: set<Entry>, part: set<Entry>, rest: set<Entry>, u: UserKey, s: nat, r: Option<Entry>)
    requires forall x :: x in part <==> x in more && x.key.seqno <= s
    requires IsNewest(more + rest, u, s, r)
    ensures IsNewest(part + rest, u, s, r)
  {
  }

  lemma LiveReads(a: Lsm.Db, u: UserKey, r: Option<Entry>, h: Option<Entry>)
    requires Lsm.DbInv(a) && IsNewest(Lsm.AllElems(a), u, a.lastSequence, r) && IsNewest(a.history, u, a.lastSequence, h)
    ensures Answer(r) == Answer(h)
  {
  }
}
