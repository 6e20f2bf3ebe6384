/** What the cache does (`util/cache.cc`), over the handles a client holds, the
    handles nobody holds in the order they were given up, and the handles whose
    deleter has run. */
module LruSpec {
  import opened Keys
  import opened HandleTable

  /** `lru`: cached and held by nobody, oldest first. `inUse`: cached and held.
      `held`: what clients hold, as often as they hold it. `deleted`: deleters run. */
  datatype State = State(lru: seq<Handle>, inUse: seq<Handle>, held: multiset<Handle>, deleted: seq<Handle>)

  function Without(q: seq<Handle>, h: Handle): seq<Handle> {
    if q == [] then [] else if q[0] == h then q[1..] else [q[0]] + Without(q[1..], h)
  }

  function Charges(q: seq<Handle>): nat {
    if q == [] then 0 else q[0].charge + Charges(q[1..])
  }

  function Usage(s: State): nat {
    Charges(s.lru) + Charges(s.inUse)
  }

  predicate Cached(s: State, h: Handle) {
    h in s.lru || h in s.inUse
  }

  /** A client takes hold of a cached handle. */
  function Referenced(s: State, h: Handle): State {
    var held := s.held + multiset{h};
    if h in s.lru then s.(lru := Without(s.lru, h), inUse := s.inUse + [h], held := held) else s.(held := held)
  }

  /** A client lets go of a handle. */
  function Released(s: State, h: Handle): State {
    var s' := s.(held := s.held - multiset{h});
    if s'.held[h] > 0 then s'
    else if h in s.inUse then s'.(inUse := Without(s.inUse, h), lru := s.lru + [h])
    else s'.(deleted := s.deleted + [h])
  }

  /** A cached handle leaves the cache. */
  function Uncached(s: State, h: Handle): State {
    if h in s.lru then s.(lru := Without(s.lru, h), deleted := s.deleted + [h])
    else s.(inUse := Without(s.inUse, h))
  }

  /** Handles that nobody holds leave, oldest first, until the rest fits. */
  function Evicted(s: State, capacity: nat): State
    decreases |s.lru|
  {
    if Usage(s) > capacity && s.lru != [] then Evicted(Uncached(s, s.lru[0]), capacity) else s
  }

  /** A new handle comes in and takes the place of `old`, if there is one. */
  function Inserted(s: State, h: Handle, old': Handle?, capacity: nat): State {
    var held := s.held + multiset{h};
    if capacity == 0 then Evicted(s.(held := held), capacity)
    else
      var s' := s.(inUse := s.inUse + [h], held := held);
      Evicted(if old' == null then s' else Uncached(s', old'), capacity)
  }

  // ----- sequences without repeats

  lemma {:induction false} WithoutHolds(q: seq<Handle>, h: Handle)
    requires NoRepeats(q)
    ensures NoRepeats(Without(q, h)) && forall x :: x in Without(q, h) <==> x in q && x != h
    ensures forall i :: 0 <= i < |Without(q, h)| ==> Without(q, h)[i] in q
    ensures Charges(q) == Charges(Without(q, h)) + if h in q then h.charge else 0
  {
    if q != [] {
      WithoutHolds(q[1..], h);
      assert q == [q[0]] + q[1..];
      var r := Without(q, h);
      if q[0] != h {
        assert r == [q[0]] + Without(q[1..], h);
        assert q[0] !in Without(q[1..], h);
      }
    }
  }

  /** Taking out a handle joins what is before it to what is after it. */
  lemma {:induction false} WithoutAt(q: seq<Handle>, k: nat)
    requires NoRepeats(q) && k < |q|
    ensures Without(q, q[k]) == q[..k] + q[k + 1..]
  {
    if k > 0 {
      WithoutAt(q[1..], k - 1);
      assert q[1..][..k - 1] == q[1..k] && q[1..][k..] == q[k + 1..];
      assert q[..k] == [q[0]] + q[1..k];
    }
  }

  lemma Appended(q: seq<Handle>, h: Handle)
    requires NoRepeats(q)
    ensures h !in q ==> NoRepeats(q + [h])
    ensures forall x :: x in q + [h] <==> x in q || x == h
    ensures Charges(q + [h]) == Charges(q) + h.charge
  {
    ChargesAppend(q, h);
  }

  lemma {:induction false} ChargesAppend(a: seq<Handle>, h: Handle)
    ensures Charges(a + [h]) == Charges(a) + h.charge
  {
    if a != [] {
      ChargesAppend(a[1..], h);
      assert (a + [h])[1..] == a[1..] + [h];
    }
  }

  // ----- what every step keeps

  /** A cached handle is on exactly one list, decided by whether a client holds it;
      a deleted one is neither cached nor held, and is deleted once. */
  ghost predicate Ok(s: State) {
    && NoRepeats(s.lru) && NoRepeats(s.inUse) && NoRepeats(s.deleted)
    && (forall h :: h in s.lru ==> h !in s.held)
    && (forall h :: h in s.inUse ==> h in s.held)
    && (forall h :: h in s.deleted ==> h !in s.held && !Cached(s, h))
  }

  /** Every handle there ever was is cached, held or deleted. */
  predicate Knows(s: State, h: Handle) {
    Cached(s, h) || h in s.held || h in s.deleted
  }

  /** Whatever `s` knows, `s'` knows too, or it is one of `extra`. */
  ghost predicate Within(s: State, s': State, extra: set<Handle>) {
    && (forall h :: h in s.lru ==> Knows(s', h) || h in extra) && (forall h :: h in s.inUse ==> Knows(s', h) || h in extra)
    && (forall h :: h in s.held ==> Knows(s', h) || h in extra) && (forall h :: h in s.deleted ==> Knows(s', h) || h in extra)
  }

  /** A step keeps Ok, and loses or invents no handle. */
  ghost predicate Keeps(s: State, s': State) {
    Ok(s') && Within(s, s', {}) && Within(s', s, {})
  }

  lemma ReferencedKeeps(s: State, h: Handle)
    requires Ok(s) && Cached(s, h)
    ensures Keeps(s, Referenced(s, h)) && Usage(Referenced(s, h)) == Usage(s)
  {
    hide Without, Charges;
    WithoutHolds(s.lru, h);
    Appended(s.inUse, h);
    var r := Referenced(s, h);
    assert Ok(r) && Within(s, r, {}) && Within(r, s, {});
  }

  lemma ReleasedKeeps(s: State, h: Handle)
    requires Ok(s) && h in s.held
    ensures Keeps(s, Released(s, h)) && Usage(Released(s, h)) == Usage(s)
  {
    hide Without, Charges;
    var s' := s.(held := s.held - multiset{h});
    if s'.held[h] > 0 {
      assert forall x :: x in s.held <==> x in s'.held;
      assert Ok(s') && Within(s, s', {}) && Within(s', s, {});
    } else {
      LastReleased(s, h);
    }
  }

  lemma LastReleased(s: State, h: Handle)
    requires Ok(s) && s.held[h] == 1
    ensures Keeps(s, Released(s, h)) && Usage(Released(s, h)) == Usage(s)
  {
    hide Without, Charges, Within;
    WithoutHolds(s.inUse, h);
    Appended(s.lru, h);
    Appended(s.deleted, h);
    var r := Released(s, h);
    assert forall x :: x in r.held <==> x in s.held && x != h;
    assert Ok(r);
    LastReleasedKnows(s, h);
  }

  lemma LastReleasedKnows(s: State, h: Handle)
    requires NoRepeats(s.inUse) && s.held[h] == 1
    ensures Within(s, Released(s, h), {}) && Within(Released(s, h), s, {})
  {
    hide Without, Charges, NoRepeats;
    WithoutHolds(s.inUse, h);
    Listed(s.lru, h);
    Listed(s.deleted, h);
    var r := Released(s, h);
    assert h in s.held && forall x :: x in r.held <==> x in s.held && x != h;
    if h in s.inUse {
      assert r.lru == s.lru + [h] && r.inUse == Without(s.inUse, h) && r.deleted == s.deleted;
    } else {
      assert r.lru == s.lru && r.inUse == s.inUse && r.deleted == s.deleted + [h];
    }
  }

  lemma Listed(q: seq<Handle>, h: Handle)
    ensures forall x :: x in q + [h] <==> x in q || x == h
  {
  }

  lemma UncachedKeeps(s: State, h: Handle)
    requires Ok(s) && Cached(s, h)
    ensures Keeps(s, Uncached(s, h)) && Usage(Uncached(s, h)) + h.charge == Usage(s) && !Cached(Uncached(s, h), h)
  {
    hide Without, Charges;
    WithoutHolds(s.lru, h);
    WithoutHolds(s.inUse, h);
    Appended(s.deleted, h);
    var r := Uncached(s, h);
    assert Ok(r) && Within(s, r, {}) && Within(r, s, {});
  }

  lemma KeepsTransitive(a: State, b: State, c: State)
    requires Keeps(a, b) && Keeps(b, c)
    ensures Keeps(a, c)
  {
  }

  lemma OldestUncached(s: State)
    requires Ok(s) && s.lru != []
    ensures var r := Uncached(s, s.lru[0]);
            r == s.(lru := s.lru[1..], deleted := s.deleted + [s.lru[0]]) && Keeps(s, r)
  {
    UncachedKeeps(s, s.lru[0]);
  }

  /** Evicting takes the oldest handles only, no more than it must, and ends with
      the rest fitting or nothing left to evict. */
  lemma {:induction false} EvictedKeeps(s: State, capacity: nat) returns (k: nat)
    requires Ok(s)
    ensures var r := Evicted(s, capacity);
            && Keeps(s, r) && (Usage(r) <= capacity || r.lru == [])
            && k <= |s.lru| && r == s.(lru := s.lru[k..], deleted := s.deleted + s.lru[..k])
    ensures k > 0 ==> Usage(s.(lru := s.lru[k - 1..])) > capacity
    decreases |s.lru|
  {
    hide Ok, Uncached, Keeps, Charges;
    if Usage(s) > capacity && s.lru != [] {
      OldestUncached(s);
      var s' := Uncached(s, s.lru[0]);
      KeepsIsOk(s, s');
      var k' := EvictedKeeps(s', capacity);
      KeepsTransitive(s, s', Evicted(s', capacity));
      k := k' + 1;
      Shifted(s.lru, k');
      assert k' > 0 ==> s'.lru[k' - 1..] == s.lru[k - 1..];
      assert s.deleted + [s.lru[0]] + s.lru[1..][..k'] == s.deleted + s.lru[..k];
    } else {
      k := 0;
      KeepsItself(s);
      assert s.lru[0..] == s.lru && s.deleted + s.lru[..0] == s.deleted;
    }
  }

  lemma KeepsIsOk(s: State, s': State)
    requires Keeps(s, s')
    ensures Ok(s')
  {
  }

  lemma KeepsItself(s: State)
    requires Ok(s)
    ensures Keeps(s, s)
  {
  }

  lemma Shifted(q: seq<Handle>, k: nat)
    requires k < |q|
    ensures q[1..][k..] == q[k + 1..] && q[..k + 1] == [q[0]] + q[1..][..k]
  {
  }

  /** A handle the cache does not know yet, taken in and held. */
  lemma TakenIn(s: State, h: Handle, cached: bool)
    requires Ok(s) && !Knows(s, h)
    ensures var r := if cached then s.(inUse := s.inUse + [h], held := s.held + multiset{h}) else s.(held := s.held + multiset{h});
            Ok(r) && Within(s, r, {}) && Within(r, s, {h}) && (Cached(r, h) <==> cached)
  {
    hide Charges;
    Appended(s.inUse, h);
    assert forall x :: x in s.held + multiset{h} <==> x in s.held || x == h;
  }

  lemma WithinThen(a: State, b: State, c: State, h: Handle)
    requires Within(a, b, {}) && Within(b, a, {h}) && Keeps(b, c)
    ensures Ok(c) && Within(a, c, {}) && Within(c, a, {h})
  {
  }

  /** Insert keeps everything in order, takes the new handle in unless caching is
      off, and leaves no more than fits or nothing it could evict. */
  lemma InsertedKeeps(s: State, h: Handle, old': Handle?, capacity: nat)
    requires Ok(s) && !Knows(s, h) && (old' != null ==> Cached(s, old'))
    ensures var r := Inserted(s, h, old', capacity);
            && Ok(r) && Within(s, r, {}) && Within(r, s, {h}) && (Usage(r) <= capacity || r.lru == [])
            && (Cached(r, h) <==> capacity > 0) && r.held == s.held + multiset{h}
    ensures old' != null && capacity > 0 ==> !Cached(Inserted(s, h, old', capacity), old')
  {
    hide Ok, Keeps, Within, Evicted, Charges, Without;
    TakenIn(s, h, capacity > 0);
    var s' := if capacity > 0 then s.(inUse := s.inUse + [h], held := s.held + multiset{h}) else s.(held := s.held + multiset{h});
    var s'' := if capacity > 0 && old' != null then Uncached(s', old') else s';
    if capacity > 0 && old' != null {
      UncachedKeeps(s', old');
      StillInUse(s', h, old');
    } else {
      KeepsItself(s');
    }
    KeepsIsOk(s', s'');
    var k := EvictedKeeps(s'', capacity);
    KeepsTransitive(s', s'', Evicted(s'', capacity));
    WithinThen(s, s', Evicted(s'', capacity), h);
    assert forall x :: x in s''.lru[k..] ==> x in s''.lru;
    NotInLru(s'', h);
  }

  lemma StillInUse(s: State, h: Handle, old': Handle)
    requires Ok(s) && h in s.inUse && h != old' && Cached(s, old')
    ensures h in Uncached(s, old').inUse && Uncached(s, old').held == s.held
  {
    WithoutHolds(s.inUse, old');
  }

  lemma NotInLru(s: State, h: Handle)
    requires Ok(s) && h in s.held
    ensures h !in s.lru
  {
  }

  /** Every handle nobody holds leaves. */
  function Pruned(s: State): State {
    s.(lru := [], deleted := s.deleted + s.lru)
  }

  lemma {:induction false} PrunedIsUncached(s: State)
    requires Ok(s)
    ensures Keeps(s, Pruned(s))
    ensures s.lru != [] ==> Pruned(s) == Pruned(Uncached(s, s.lru[0]))
    decreases |s.lru|
  {
    hide Ok, Keeps, Uncached;
    if s.lru == [] {
      KeepsItself(s);
      assert s.deleted + s.lru == s.deleted;
    } else {
      OldestUncached(s);
      var s' := Uncached(s, s.lru[0]);
      KeepsIsOk(s, s');
      PrunedIsUncached(s');
      KeepsTransitive(s, s', Pruned(s'));
      assert s.deleted + [s.lru[0]] + s.lru[1..] == s.deleted + s.lru;
    }
  }

  // ----- every run

  datatype Op =
    | Insert(h: Handle, out: Handle?, capacity: nat)
    | Lookup(h: Handle)
    | Release(h: Handle)
    | Erase(h: Handle)
    | Prune

  predicate Next(s: State, s': State, op: Op) {
    match op
    case Insert(h, out, capacity) => !Knows(s, h) && (out != null ==> Cached(s, out)) && s' == Inserted(s, h, out, capacity)
    case Lookup(h) => Cached(s, h) && s' == Referenced(s, h)
    case Release(h) => h in s.held && s' == Released(s, h)
    case Erase(h) => Cached(s, h) && s' == Uncached(s, h)
    case Prune => s' == Pruned(s)
  }

  lemma NextKeeps(s: State, s': State, op: Op)
    requires Ok(s) && Next(s, s', op)
    ensures Ok(s') && Within(s, s', {}) && s.deleted <= s'.deleted
  {
    hide Ok, Keeps, Within, Without, Evicted;
    match op
    case Insert(h, out, capacity) =>
      InsertedKeeps(s, h, out, capacity);
      DeletedGrows(s, h, out, capacity);
    case Lookup(h) =>
      ReferencedKeeps(s, h);
      KeepsFacts(s, s');
    case Release(h) =>
      ReleasedKeeps(s, h);
      KeepsFacts(s, s');
    case Erase(h) =>
      UncachedKeeps(s, h);
      KeepsFacts(s, s');
    case Prune =>
      PrunedIsUncached(s);
      KeepsFacts(s, s');
  }

  lemma KeepsFacts(s: State, s': State)
    requires Keeps(s, s')
    ensures Ok(s') && Within(s, s', {})
  {
  }

  lemma DeletedGrows(s: State, h: Handle, out: Handle?, capacity: nat)
    requires Ok(s) && !Knows(s, h) && (out != null ==> Cached(s, out))
    ensures s.deleted <= Inserted(s, h, out, capacity).deleted
  {
    hide Ok, Keeps, Within, Evicted, Charges, Without;
    TakenIn(s, h, capacity > 0);
    var s' := if capacity > 0 then s.(inUse := s.inUse + [h], held := s.held + multiset{h}) else s.(held := s.held + multiset{h});
    if capacity > 0 && out != null {
      UncachedKeeps(s', out);
      KeepsFacts(s', Uncached(s', out));
      var k := EvictedKeeps(Uncached(s', out), capacity);
    } else {
      var k := EvictedKeeps(s', capacity);
    }
  }

  ghost predicate Run(ss: seq<State>, ops: seq<Op>) {
    && |ss| == |ops| + 1 && ss[0] == State([], [], multiset{}, [])
    && forall i :: 0 <= i < |ops| ==> Next(ss[i], ss[i + 1], ops[i])
  }

  /** Over a whole run: the lists stay in order, no deleter runs twice, and a handle
      that is neither cached nor held any more has had its deleter run. */
  lemma {:induction false} RunIsOk(ss: seq<State>, ops: seq<Op>, i: nat, j: nat)
    requires Run(ss, ops) && i <= j < |ss|
    ensures Ok(ss[j]) && ss[i].deleted <= ss[j].deleted
    ensures forall h :: h in ss[i].held && h !in ss[j].held && !Cached(ss[j], h) ==> h in ss[j].deleted
    ensures Within(ss[i], ss[j], {})
  {
    hide Ok, Next, Within, Cached;
    if i < j {
      RunIsOk(ss, ops, i, j - 1);
      NextKeeps(ss[j - 1], ss[j], ops[j - 1]);
      WithinTransitive(ss[i], ss[j - 1], ss[j]);
    } else if j > 0 {
      RunIsOk(ss, ops, j - 1, j - 1);
      NextKeeps(ss[j - 1], ss[j], ops[j - 1]);
      WithinItself(ss[j]);
    } else {
      StartIsOk();
      WithinItself(ss[j]);
    }
    LostIsDeleted(ss[i], ss[j]);
  }

  lemma StartIsOk()
    ensures Ok(State([], [], multiset{}, []))
  {
  }

  lemma WithinItself(s: State)
    ensures Within(s, s, {})
  {
  }

  lemma LostIsDeleted(a: State, b: State)
    requires Within(a, b, {})
    ensures forall h :: h in a.held && h !in b.held && !Cached(b, h) ==> h in b.deleted
  {
  }

  lemma WithinTransitive(a: State, b: State, c: State)
    requires Within(a, b, {}) && Within(b, c, {})
    ensures Within(a, c, {})
  {
  }

  // ----- who goes first

  /** The last of the first `i` calls that gave the handle to a client or took it back,
      counted from 1. */
  function LastUse(ops: seq<Op>, i: nat, h: Handle): nat
    requires i <= |ops|
  {
    if i == 0 then 0
    else
      match ops[i - 1]
      case Insert(x, _, _) => if x == h then i else LastUse(ops, i - 1, h)
      case Lookup(x) => if x == h then i else LastUse(ops, i - 1, h)
      case Release(x) => if x == h then i else LastUse(ops, i - 1, h)
      case _ => LastUse(ops, i - 1, h)
  }

  lemma {:induction false} UsedBefore(ops: seq<Op>, i: nat, h: Handle)
    requires i <= |ops|
    ensures LastUse(ops, i, h) <= i
  {
    if i > 0 {
      UsedBefore(ops, i - 1, h);
    }
  }

  /** The handles were last used in this order. */
  ghost predicate InOrderOfUse(ops: seq<Op>, i: nat, q: seq<Handle>)
    requires i <= |ops|
  {
    forall a, b :: 0 <= a < b < |q| ==> LastUse(ops, i, q[a]) < LastUse(ops, i, q[b])
  }

  lemma OrderWithout(ops: seq<Op>, i: nat, q: seq<Handle>, h: Handle)
    requires i <= |ops| && InOrderOfUse(ops, i, q) && NoRepeats(q)
    ensures InOrderOfUse(ops, i, Without(q, h))
  {
    hide Without, LastUse;
    if h in q {
      var k :| 0 <= k < |q| && q[k] == h;
      WithoutAt(q, k);
    } else {
      WithoutNothing(q, h);
    }
  }

  lemma {:induction false} WithoutNothing(q: seq<Handle>, h: Handle)
    requires h !in q
    ensures Without(q, h) == q
  {
    if q != [] {
      WithoutNothing(q[1..], h);
      assert q == [q[0]] + q[1..];
    }
  }

  /** A call that does not use any of them leaves the order as it is. */
  lemma OrderStays(ops: seq<Op>, i: nat, q: seq<Handle>)
    requires i < |ops| && InOrderOfUse(ops, i, q)
    requires match ops[i]
             case Insert(x, _, _) => x !in q
             case Lookup(x) => x !in q
             case Release(x) => x !in q
             case _ => true
    ensures InOrderOfUse(ops, i + 1, q)
  {
    forall a | 0 <= a < |q|
      ensures LastUse(ops, i + 1, q[a]) == LastUse(ops, i, q[a])
    {
      assert q[a] in q;
    }
  }

  lemma OrderGrows(ops: seq<Op>, i: nat, q: seq<Handle>, h: Handle)
    requires i < |ops| && InOrderOfUse(ops, i + 1, q) && ops[i] == Release(h) && h !in q
    ensures InOrderOfUse(ops, i + 1, q + [h])
  {
    forall a | 0 <= a < |q|
      ensures LastUse(ops, i + 1, q[a]) < LastUse(ops, i + 1, h)
    {
      assert q[a] in q;
      UsedBefore(ops, i, q[a]);
    }
  }

  lemma OrderOfSome(ops: seq<Op>, i: nat, q: seq<Handle>, k: nat)
    requires i <= |ops| && k <= |q| && InOrderOfUse(ops, i, q)
    ensures InOrderOfUse(ops, i, q[k..])
  {
  }

  lemma NotHeldInLru(s: State, h: Handle)
    requires Ok(s)
    ensures h in s.held ==> h !in s.lru
    ensures !Knows(s, h) ==> h !in s.lru
    ensures NoRepeats(s.lru)
  {
  }

  /** What is left of the LRU list after an insert: what was there, without the handle that
      was replaced, from some place on. */
  lemma InsertedLru(s: State, h: Handle, out: Handle?, capacity: nat) returns (k: nat)
    requires Ok(s) && !Knows(s, h) && (out != null ==> Cached(s, out))
    ensures var q := if capacity > 0 && out != null && out in s.lru then Without(s.lru, out) else s.lru;
            k <= |q| && Inserted(s, h, out, capacity).lru == q[k..]
  {
    hide Ok, Keeps, Within, Evicted, Charges, Without;
    TakenIn(s, h, capacity > 0);
    var s' := if capacity > 0 then s.(inUse := s.inUse + [h], held := s.held + multiset{h}) else s.(held := s.held + multiset{h});
    if capacity > 0 && out != null {
      UncachedKeeps(s', out);
      KeepsFacts(s', Uncached(s', out));
      k := EvictedKeeps(Uncached(s', out), capacity);
    } else {
      k := EvictedKeeps(s', capacity);
    }
  }

  /** In every state of every run the LRU list is in the order in which its handles were
      last used: the next to go is the one that has not been used for longest. */
  lemma {:induction false} LruIsInOrderOfUse(ss: seq<State>, ops: seq<Op>, i: nat)
    requires Run(ss, ops) && i < |ss|
    ensures InOrderOfUse(ops, i, ss[i].lru)
  {
    hide Ok, Within, Knows, Without, InOrderOfUse, Inserted, Charges;
    if i == 0 {
      NothingInOrder(ops, 0);
    } else {
      var s, s' := ss[i - 1], ss[i];
      LruIsInOrderOfUse(ss, ops, i - 1);
      RunIsOk(ss, ops, i - 1, i - 1);
      assert Next(s, s', ops[i - 1]);
      match ops[i - 1]
      case Insert(h, out, capacity) =>
        NotHeldInLru(s, h);
        OrderStays(ops, i - 1, s.lru);
        var k := InsertedLru(s, h, out, capacity);
        if capacity > 0 && out != null && out in s.lru {
          OrderWithout(ops, i, s.lru, out);
          OrderOfSome(ops, i, Without(s.lru, out), k);
        } else {
          OrderOfSome(ops, i, s.lru, k);
        }
      case Lookup(h) =>
        NotHeldInLru(s, h);
        OrderWithout(ops, i - 1, s.lru, h);
        WithoutHolds(s.lru, h);
        OrderStays(ops, i - 1, Without(s.lru, h));
        if h !in s.lru {
          WithoutNothing(s.lru, h);
        }
      case Release(h) =>
        NotHeldInLru(s, h);
        OrderStays(ops, i - 1, s.lru);
        OrderGrows(ops, i - 1, s.lru, h);
      case Erase(h) =>
        NotHeldInLru(s, h);
        OrderStays(ops, i - 1, s.lru);
        OrderWithout(ops, i, s.lru, h);
      case Prune =>
        NothingInOrder(ops, i);
    }
  }

  lemma NothingInOrder(ops: seq<Op>, i: nat)
    requires i <= |ops|
    ensures InOrderOfUse(ops, i, [])
  {
  }

  /** A handle that an insert evicts was last used before every handle that stays unused. */
  lemma LeastRecentlyUsedGoes(ss: seq<State>, ops: seq<Op>, i: nat, x: Handle, y: Handle)
    requires Run(ss, ops) && i < |ops| && ops[i].Insert? && x != ops[i].out
    requires x in ss[i].lru && x !in ss[i + 1].lru && y in ss[i + 1].lru
    ensures LastUse(ops, i, x) < LastUse(ops, i, y)
  {
    hide Ok, Within, Knows, Inserted, Charges, Without, LastUse;
    var s := ss[i];
    LruIsInOrderOfUse(ss, ops, i);
    RunIsOk(ss, ops, i, i);
    assert Next(s, ss[i + 1], ops[i]);
    var k := InsertedLru(s, ops[i].h, ops[i].out, ops[i].capacity);
    NotHeldInLru(s, x);
    var q := s.lru;
    if ops[i].capacity > 0 && ops[i].out != null && ops[i].out in s.lru {
      OrderWithout(ops, i, s.lru, ops[i].out);
      WithoutHolds(s.lru, ops[i].out);
      q := Without(s.lru, ops[i].out);
    }
    var a :| 0 <= a < |q| && q[a] == x;
    var b :| 0 <= b < |q[k..]| && q[k..][b] == y;
    forall j | k <= j < |q|
      ensures q[j] in q[k..]
    {
      assert q[k..][j - k] == q[j];
    }
    assert a < k && q[k + b] == y;
  }
}
