/** One shard of the cache (`util/cache.cc`): a hash table, and two circular lists
    through the handles themselves, one of what clients hold and one of what nobody
    holds in the order it was given up. */
module LruCache {
  import opened Keys
  import opened HandleTable
  import opened LruSpec
  import opened Rings

  type Links = map<Handle, Handle?>

  // ----- circular lists

  predicate Joined(nexts: Links, prevs: Links, head: Handle, q: seq<Handle>, j: nat) {
    var a, b := Around(head, q, j), Around(head, q, j + 1);
    a in nexts && b in prevs && nexts[a] == b && prevs[b] == a
  }

  ghost predicate Ring(nexts: Links, prevs: Links, head: Handle, q: seq<Handle>) {
    forall j: nat :: j <= |q| ==> Joined(nexts, prevs, head, q, j)
  }

  /** The two stores of LRU_Remove, on the nodes that stay on the list. */
  ghost predicate Unlinked(nexts: Links, prevs: Links, nexts': Links, prevs': Links, head: Handle, q: seq<Handle>, e: Handle)
    requires e in nexts && e in prevs
  {
    forall j: nat {:trigger Around(head, q, j)} :: j <= |q| && Around(head, q, j) != e ==>
      var h := Around(head, q, j);
      && h in nexts && h in nexts' && nexts'[h] == (if h == prevs[e] then nexts[e] else nexts[h])
      && h in prevs && h in prevs' && prevs'[h] == (if h == nexts[e] then prevs[e] else prevs[h])
  }

  lemma RingRemoved(nexts: Links, prevs: Links, nexts': Links, prevs': Links, head: Handle, q: seq<Handle>, k: nat)
    requires Distinct(head, q) && Ring(nexts, prevs, head, q) && k < |q|
    requires q[k] in nexts && q[k] in prevs && Unlinked(nexts, prevs, nexts', prevs', head, q, q[k])
    ensures Ring(nexts', prevs', head, q[..k] + q[k + 1..])
  {
    hide Ring, Distinct;
    var r := q[..k] + q[k + 1..];
    forall j: nat | j <= |r| ensures Joined(nexts', prevs', head, r, j) {
      RingRemovedAt(nexts, prevs, nexts', prevs', head, q, k, j);
    }
    assert Ring(nexts', prevs', head, r) by { RingMeans(nexts', prevs', head, r); }
  }

  lemma RingMeans(nexts: Links, prevs: Links, head: Handle, q: seq<Handle>)
    ensures Ring(nexts, prevs, head, q) <==> forall j: nat :: j <= |q| ==> Joined(nexts, prevs, head, q, j)
  {
  }

  lemma RingAt(nexts: Links, prevs: Links, head: Handle, q: seq<Handle>, j: nat)
    requires Ring(nexts, prevs, head, q) && j <= |q|
    ensures Joined(nexts, prevs, head, q, j)
  {
  }

  lemma RingRemovedAt(nexts: Links, prevs: Links, nexts': Links, prevs': Links, head: Handle, q: seq<Handle>, k: nat, j: nat)
    requires Distinct(head, q) && Ring(nexts, prevs, head, q) && k < |q| && j < |q|
    requires q[k] in nexts && q[k] in prevs && Unlinked(nexts, prevs, nexts', prevs', head, q, q[k])
    ensures Joined(nexts', prevs', head, q[..k] + q[k + 1..], j)
  {
    hide Ring, Distinct;
    var r := q[..k] + q[k + 1..];
    RingAt(nexts, prevs, head, q, k);
    RingAt(nexts, prevs, head, q, k + 1);
    assert Around(head, q, k + 1) == q[k];
    if j < k {
      RingAt(nexts, prevs, head, q, j);
      assert Around(head, r, j) == Around(head, q, j) && Around(head, r, j + 1) == Around(head, q, j + 1);
      AroundDiffers(head, q, j, k + 1);
      AroundDiffers(head, q, j + 1, k + 1);
      AroundDiffers(head, q, j, k);
      AroundDiffers(head, q, j + 1, k + 2);
    } else if j == k {
      assert Around(head, r, k) == Around(head, q, k) && Around(head, r, k + 1) == Around(head, q, k + 2);
      AroundDiffers(head, q, k, k + 1);
      AroundDiffers(head, q, k + 1, k + 2);
      if k + 2 == |q| + 1 {
        assert Around(head, q, k + 2) == Around(head, q, 0);
      } else {
        assert k + 2 <= |q|;
      }
    } else {
      RingAt(nexts, prevs, head, q, j + 1);
      assert Around(head, r, j) == Around(head, q, j + 1) && Around(head, r, j + 1) == Around(head, q, j + 2);
      AroundDiffers(head, q, k + 1, j + 1);
      AroundDiffers(head, q, k + 1, j + 2);
      AroundDiffers(head, q, k, j + 1);
      AroundDiffers(head, q, k + 2, j + 2);
      if j + 2 == |q| + 1 {
        assert Around(head, q, j + 2) == Around(head, q, 0);
      } else {
        assert j + 2 <= |q|;
      }
    }
  }

  /** The four stores of LRU_Append, on the nodes of the list and the new one. */
  ghost predicate Appends(nexts: Links, prevs: Links, nexts': Links, prevs': Links, head: Handle, q: seq<Handle>, e: Handle)
    requires head in prevs
  {
    && e in nexts' && e in prevs' && nexts'[e] == head && prevs'[e] == prevs[head]
    && forall j: nat {:trigger Around(head, q, j)} :: j <= |q| ==>
         var h := Around(head, q, j);
         && h in nexts && h in nexts' && nexts'[h] == (if h == prevs[head] then e else nexts[h])
         && h in prevs && h in prevs' && prevs'[h] == (if h == head then e else prevs[h])
  }

  lemma RingAppended(nexts: Links, prevs: Links, nexts': Links, prevs': Links, head: Handle, q: seq<Handle>, e: Handle)
    requires Distinct(head, q) && Ring(nexts, prevs, head, q) && e != head && e !in q
    requires head in prevs && Appends(nexts, prevs, nexts', prevs', head, q, e)
    ensures Ring(nexts', prevs', head, q + [e])
  {
    hide Ring, Distinct;
    var r := q + [e];
    RingAt(nexts, prevs, head, q, |q|);
    assert prevs[head] == Around(head, q, |q|);
    forall j: nat | j <= |r| ensures Joined(nexts', prevs', head, r, j) {
      if j < |q| {
        RingAt(nexts, prevs, head, q, j);
        AroundDiffers(head, q, j, |q|);
        AroundDiffers(head, q, 0, j + 1);
        assert Around(head, r, j) == Around(head, q, j) && Around(head, r, j + 1) == Around(head, q, j + 1);
      } else if j == |q| {
        assert Around(head, r, j) == Around(head, q, j) && Around(head, r, j + 1) == e;
      } else {
        assert Around(head, r, j) == e && Around(head, r, j + 1) == Around(head, q, 0);
      }
    }
    RingMeans(nexts', prevs', head, r);
  }

  /** A list none of whose nodes' links change stays as it is. */
  lemma RingStays(nexts: Links, prevs: Links, nexts': Links, prevs': Links, head: Handle, q: seq<Handle>)
    requires Ring(nexts, prevs, head, q)
    requires forall j: nat {:trigger Around(head, q, j)} :: j <= |q| ==>
               var h := Around(head, q, j);
               h in nexts && h in prevs && h in nexts' && h in prevs' && nexts'[h] == nexts[h] && prevs'[h] == prevs[h]
    ensures Ring(nexts', prevs', head, q)
  {
    forall j: nat | j <= |q| ensures Joined(nexts', prevs', head, q, j) {
      RingAt(nexts, prevs, head, q, j);
      var h, h' := Around(head, q, j), Around(head, q, if j < |q| then j + 1 else 0);
      assert h' == Around(head, q, j + 1);
    }
  }

  // ----- both lists together

  /** The list of what nobody holds, and the list of what clients hold. */
  ghost predicate Lists(nexts: Links, prevs: Links, lruHead: Handle, inUseHead: Handle, lru: seq<Handle>, inUse: seq<Handle>) {
    && Ring(nexts, prevs, lruHead, lru) && Ring(nexts, prevs, inUseHead, inUse)
    && Distinct(lruHead, lru) && Distinct(inUseHead, inUse) && Apart(lruHead, inUseHead, lru, inUse)
  }

  ghost predicate Apart(lruHead: Handle, inUseHead: Handle, lru: seq<Handle>, inUse: seq<Handle>) {
    && lruHead != inUseHead && lruHead !in inUse && inUseHead !in lru
    && forall i, j :: 0 <= i < |lru| && 0 <= j < |inUse| ==> lru[i] != inUse[j]
  }

  function Nodes(lruHead: Handle, inUseHead: Handle, lru: seq<Handle>, inUse: seq<Handle>): set<Handle> {
    {lruHead, inUseHead} + (set h | h in lru) + (set h | h in inUse)
  }

  /** The stores of LRU_Remove, on all nodes but the one that leaves. */
  ghost predicate Removes(nexts: Links, prevs: Links, nexts': Links, prevs': Links, nodes: set<Handle>, e: Handle)
    requires e in nexts && e in prevs
  {
    forall h :: h in nodes && h != e ==>
      && h in nexts && h in nexts' && nexts'[h] == (if h == prevs[e] then nexts[e] else nexts[h])
      && h in prevs && h in prevs' && prevs'[h] == (if h == nexts[e] then prevs[e] else prevs[h])
  }

  lemma AroundIsNode(lruHead: Handle, inUseHead: Handle, lru: seq<Handle>, inUse: seq<Handle>, j: nat)
    ensures Around(lruHead, lru, j) in Nodes(lruHead, inUseHead, lru, inUse)
    ensures Around(inUseHead, inUse, j) in Nodes(lruHead, inUseHead, lru, inUse)
  {
  }

  /** No node of one list is a node of the other. */
  lemma NodesApart(a: Handle, b: Handle, q: seq<Handle>, r: seq<Handle>, i: nat, j: nat)
    requires Apart(a, b, q, r) || Apart(b, a, r, q)
    ensures Around(a, q, i) != Around(b, r, j)
  {
  }

  /** A handle leaves the list `q`; the other list, `r`, stays. */
  lemma OneRemoved(nexts: Links, prevs: Links, nexts': Links, prevs': Links, a: Handle, b: Handle, q: seq<Handle>, r: seq<Handle>, k: nat)
    requires Ring(nexts, prevs, a, q) && Ring(nexts, prevs, b, r) && Distinct(a, q) && k < |q|
    requires Apart(a, b, q, r) || Apart(b, a, r, q)
    requires q[k] in nexts && q[k] in prevs && Removes(nexts, prevs, nexts', prevs', Nodes(a, b, q, r), q[k])
    ensures Ring(nexts', prevs', a, Without(q, q[k])) && Ring(nexts', prevs', b, r)
  {
    hide Ring, Apart, Nodes, Around;
    var e := q[k];
    forall j: nat | j <= |q| && Around(a, q, j) != e
      ensures Around(a, q, j) in Nodes(a, b, q, r)
    {
      AroundIsNode(a, b, q, r, j);
    }
    assert Unlinked(nexts, prevs, nexts', prevs', a, q, e);
    RingRemoved(nexts, prevs, nexts', prevs', a, q, k);
    WithoutAt(q, k);
    RingAt(nexts, prevs, a, q, k);
    RingAt(nexts, prevs, a, q, k + 1);
    AroundOf(a, q, k);
    forall j: nat {:trigger Around(b, r, j)} | j <= |r|
      ensures var h := Around(b, r, j);
              h in nexts && h in prevs && h in nexts' && h in prevs' && nexts'[h] == nexts[h] && prevs'[h] == prevs[h]
    {
      AroundIsNode(a, b, q, r, j);
      NodesApart(a, b, q, r, k, j);
      NodesApart(a, b, q, r, k + 1, j);
      NodesApart(a, b, q, r, k + 2, j);
    }
    RingStays(nexts, prevs, nexts', prevs', b, r);
  }

  lemma AroundOf(head: Handle, q: seq<Handle>, k: nat)
    requires k < |q|
    ensures Around(head, q, k + 1) == q[k] && Around(head, q, |q| + 1) == head == Around(head, q, 0)
  {
  }

  lemma {:induction false} WithoutNone(q: seq<Handle>, h: Handle)
    requires h !in q
    ensures Without(q, h) == q
  {
    if q != [] {
      WithoutNone(q[1..], h);
    }
  }

  /** LRU_Remove takes a handle off the list it is on. */
  lemma ListsRemoved(nexts: Links, prevs: Links, nexts': Links, prevs': Links, a: Handle, b: Handle, q: seq<Handle>, r: seq<Handle>, e: Handle)
    requires Lists(nexts, prevs, a, b, q, r) && (e in q || e in r)
    requires e in nexts && e in prevs && Removes(nexts, prevs, nexts', prevs', Nodes(a, b, q, r), e)
    ensures Lists(nexts', prevs', a, b, Without(q, e), Without(r, e))
  {
    hide Ring, Without, Removes, Nodes;
    if e in q {
      var k :| 0 <= k < |q| && q[k] == e;
      assert e !in r;
      OneRemoved(nexts, prevs, nexts', prevs', a, b, q, r, k);
      WithoutNone(r, e);
    } else {
      var k :| 0 <= k < |r| && r[k] == e;
      assert Nodes(b, a, r, q) == Nodes(a, b, q, r) by { NodesSwap(a, b, q, r); }
      OneRemoved(nexts, prevs, nexts', prevs', b, a, r, q, k);
      WithoutNone(q, e);
    }
    WithoutHolds(q, e);
    WithoutHolds(r, e);
  }

  lemma NodesSwap(a: Handle, b: Handle, q: seq<Handle>, r: seq<Handle>)
    ensures Nodes(b, a, r, q) == Nodes(a, b, q, r)
  {
  }

  /** The stores of LRU_Append, on all nodes there were and the new one. */
  ghost predicate Adds(nexts: Links, prevs: Links, nexts': Links, prevs': Links, nodes: set<Handle>, head: Handle, e: Handle)
    requires head in prevs
  {
    && e in nexts' && e in prevs' && nexts'[e] == head && prevs'[e] == prevs[head]
    && forall h :: h in nodes ==>
         && h in nexts && h in nexts' && nexts'[h] == (if h == prevs[head] then e else nexts[h])
         && h in prevs && h in prevs' && prevs'[h] == (if h == head then e else prevs[h])
  }

  ghost function NextsOf(nodes: set<Handle>): Links
    reads nodes`next
  {
    map h: Handle | h in nodes :: h.next
  }

  ghost function PrevsOf(nodes: set<Handle>): Links
    reads nodes`prev
  {
    map h: Handle | h in nodes :: h.prev
  }

  lemma LinksOf(nodes: set<Handle>)
    ensures NextsOf(nodes).Keys == nodes && forall h :: h in nodes ==> NextsOf(nodes)[h] == h.next
    ensures PrevsOf(nodes).Keys == nodes && forall h :: h in nodes ==> PrevsOf(nodes)[h] == h.prev
  {
  }

  lemma StoresAdd(nexts: Links, prevs: Links, nodes: set<Handle>, head: Handle, e: Handle)
    requires nexts.Keys == nodes && prevs.Keys == nodes && head in nodes && e.next == head && e.prev == prevs[head]
    requires forall h :: h in nodes ==> h.next == (if h == prevs[head] then e else nexts[h])
    requires forall h :: h in nodes ==> h.prev == (if h == head then e else prevs[h])
    ensures Adds(nexts, prevs, NextsOf(nodes + {e}), PrevsOf(nodes + {e}), nodes, head, e)
  {
  }

  /** A handle joins the list `q` as its newest; the other list, `r`, stays. */
  lemma OneAdded(nexts: Links, prevs: Links, nexts': Links, prevs': Links, a: Handle, b: Handle, q: seq<Handle>, r: seq<Handle>, e: Handle)
    requires Ring(nexts, prevs, a, q) && Ring(nexts, prevs, b, r) && Distinct(a, q)
    requires Apart(a, b, q, r) || Apart(b, a, r, q)
    requires e !in Nodes(a, b, q, r) && a in prevs && Adds(nexts, prevs, nexts', prevs', Nodes(a, b, q, r), a, e)
    ensures Ring(nexts', prevs', a, q + [e]) && Ring(nexts', prevs', b, r)
  {
    hide Ring, Apart, Around;
    forall j: nat | j <= |q|
      ensures Around(a, q, j) in Nodes(a, b, q, r)
    {
      AroundIsNode(a, b, q, r, j);
    }
    assert Appends(nexts, prevs, nexts', prevs', a, q, e);
    RingAppended(nexts, prevs, nexts', prevs', a, q, e);
    RingAt(nexts, prevs, a, q, |q|);
    AroundLast(a, q);
    forall j: nat {:trigger Around(b, r, j)} | j <= |r|
      ensures var h := Around(b, r, j);
              h in nexts && h in prevs && h in nexts' && h in prevs' && nexts'[h] == nexts[h] && prevs'[h] == prevs[h]
    {
      AroundIsNode(a, b, q, r, j);
      NodesApart(a, b, q, r, |q|, j);
      NodesApart(a, b, q, r, 0, j);
    }
    RingStays(nexts, prevs, nexts', prevs', b, r);
  }

  lemma AroundLast(head: Handle, q: seq<Handle>)
    ensures Around(head, q, |q| + 1) == head == Around(head, q, 0)
  {
  }

  /** LRU_Append on the list of what nobody holds. */
  lemma ListsGaveUp(nexts: Links, prevs: Links, nexts': Links, prevs': Links, a: Handle, b: Handle, q: seq<Handle>, r: seq<Handle>, e: Handle)
    requires Lists(nexts, prevs, a, b, q, r) && e !in Nodes(a, b, q, r)
    requires a in prevs && Adds(nexts, prevs, nexts', prevs', Nodes(a, b, q, r), a, e)
    ensures Lists(nexts', prevs', a, b, q + [e], r)
  {
    hide Ring, Adds;
    OneAdded(nexts, prevs, nexts', prevs', a, b, q, r, e);
    Appended(q, e);
  }

  /** LRU_Append on the list of what clients hold. */
  lemma ListsTook(nexts: Links, prevs: Links, nexts': Links, prevs': Links, a: Handle, b: Handle, q: seq<Handle>, r: seq<Handle>, e: Handle)
    requires Lists(nexts, prevs, a, b, q, r) && e !in Nodes(a, b, q, r)
    requires b in prevs && Adds(nexts, prevs, nexts', prevs', Nodes(a, b, q, r), b, e)
    ensures Lists(nexts', prevs', a, b, q, r + [e])
  {
    hide Ring, Adds;
    NodesSwap(a, b, q, r);
    OneAdded(nexts, prevs, nexts', prevs', b, a, r, q, e);
    Appended(r, e);
  }

  // ----- reference counts

  /** The handles that are not deleted. */
  function Live(s: State): set<Handle> {
    (set h | h in s.lru) + (set h | h in s.inUse) + (set h | h in s.held)
  }

  function CachedSet(s: State): set<Handle> {
    (set h | h in s.lru) + (set h | h in s.inUse)
  }

  /** A handle counts its clients, and the cache itself while it is cached. */
  ghost predicate Counts(refs: map<Handle, nat>, cached: map<Handle, bool>, s: State) {
    && refs.Keys == Live(s) && cached.Keys == Live(s)
    && forall h :: h in refs ==> (cached[h] <==> Cached(s, h)) && refs[h] == s.held[h] + if Cached(s, h) then 1 else 0
  }

  /** What the tests of Ref and Unref find out. */
  lemma CountsTell(refs: map<Handle, nat>, cached: map<Handle, bool>, s: State, h: Handle)
    requires Ok(s) && Counts(refs, cached, s) && h in Live(s)
    ensures h in refs && h in cached && refs[h] > 0
    ensures refs[h] == 1 && cached[h] <==> h in s.lru
    ensures h in s.inUse ==> cached[h] && refs[h] > 1
    ensures h in s.held ==> (s.held[h] == 1 <==> refs[h] == (if cached[h] then 2 else 1)) && (cached[h] <==> h in s.inUse)
  {
  }

  /** `m'` keeps what `m` says of all its handles but `e`. */
  ghost predicate Becomes<T>(m: map<Handle, T>, m': map<Handle, T>, e: Handle, v: T) {
    m'.Keys <= m.Keys && forall h :: h in m' ==> m'[h] == if h == e then v else m[h]
  }

  lemma ReferencedCounts(refs: map<Handle, nat>, cached: map<Handle, bool>, refs': map<Handle, nat>, s: State, e: Handle)
    requires Ok(s) && Counts(refs, cached, s) && Cached(s, e)
    requires e in refs && refs'.Keys == Live(Referenced(s, e)) && Becomes(refs, refs', e, refs[e] + 1)
    ensures Live(Referenced(s, e)) == Live(s) && Counts(refs', cached, Referenced(s, e))
    ensures CachedSet(Referenced(s, e)) == CachedSet(s)
  {
    hide Referenced, Ok, Live, Cached;
    ReferencedShape(s, e);
    CachedIsIn(s);
    CachedIsIn(Referenced(s, e));
  }

  lemma CachedIsIn(s: State)
    ensures forall h :: Cached(s, h) <==> h in CachedSet(s)
  {
  }

  lemma CachedIsListed(s: State, h: Handle)
    ensures Cached(s, h) <==> h in CachedSet(s)
  {
  }

  lemma ReferencedShape(s: State, e: Handle)
    requires Ok(s) && Cached(s, e)
    ensures var r := Referenced(s, e);
            CachedSet(r) == CachedSet(s) && Live(r) == Live(s) && r.held == s.held + multiset{e}
  {
    hide Without, Charges, Ok;
    OkMeans(s);
    WithoutHolds(s.lru, e);
    Listed(s.inUse, e);
  }

  lemma OkMeans(s: State)
    requires Ok(s)
    ensures NoRepeats(s.lru) && NoRepeats(s.inUse)
    ensures forall h :: h in s.lru ==> h !in s.held && h !in s.inUse
    ensures forall h :: h in s.inUse ==> h in s.held
    ensures forall h :: h in s.deleted ==> h !in s.held && !Cached(s, h)
  {
  }

  lemma ReleasedCounts(refs: map<Handle, nat>, cached: map<Handle, bool>, refs': map<Handle, nat>, cached': map<Handle, bool>,
                       s: State, e: Handle)
    requires Ok(s) && Counts(refs, cached, s) && e in s.held
    requires e in refs && refs[e] > 0 && refs'.Keys == Live(Released(s, e)) == cached'.Keys
    requires e in cached && Becomes(refs, refs', e, refs[e] - 1) && Becomes(cached, cached', e, cached[e])
    ensures Live(Released(s, e)) <= Live(s) && Counts(refs', cached', Released(s, e))
    ensures CachedSet(Released(s, e)) == CachedSet(s)
  {
    hide Released, Ok, Live, Cached;
    ReleasedShape(s, e);
    CachedIsIn(s);
    CachedIsIn(Released(s, e));
  }

  lemma ReleasedShape(s: State, e: Handle)
    requires Ok(s) && e in s.held
    ensures var r := Released(s, e);
            CachedSet(r) == CachedSet(s) && Live(r) <= Live(s) && r.held == s.held - multiset{e}
  {
    hide Without, Charges, Ok;
    OkMeans(s);
    WithoutHolds(s.inUse, e);
    Listed(s.lru, e);
  }

  lemma UncachedCounts(refs: map<Handle, nat>, cached: map<Handle, bool>, refs': map<Handle, nat>, cached': map<Handle, bool>,
                       s: State, e: Handle)
    requires Ok(s) && Counts(refs, cached, s) && Cached(s, e)
    requires e in refs && refs[e] > 0 && refs'.Keys == Live(Uncached(s, e)) == cached'.Keys
    requires Becomes(refs, refs', e, refs[e] - 1) && Becomes(cached, cached', e, false)
    ensures Counts(refs', cached', Uncached(s, e))
  {
    hide Uncached, Ok, Live, Cached;
    UncachedShape(s, e);
    CachedIsIn(s);
    CachedIsIn(Uncached(s, e));
  }

  lemma UncachedShape(s: State, e: Handle)
    requires Ok(s) && Cached(s, e)
    ensures var r := Uncached(s, e);
            CachedSet(r) == CachedSet(s) - {e} && Live(r) <= Live(s) && r.held == s.held
  {
    hide Without, Charges, Ok;
    OkMeans(s);
    WithoutHolds(s.inUse, e);
    WithoutHolds(s.lru, e);
  }

  // ----- the cache

  class LRUCache {
    const lruHead: Handle
    const inUseHead: Handle
    const table: HandleTable
    var capacity: nat
    var usage: nat
    /** The deleters that have run, in order. */
    var deleted: seq<Handle>
    ghost var lru: seq<Handle>
    ghost var inUse: seq<Handle>
    /** What clients hold. */
    ghost var held: multiset<Handle>

    ghost function S(): State
      reads this
    {
      State(lru, inUse, held, deleted)
    }

    ghost function OnLists(): set<Handle>
      reads this`lru, this`inUse
    {
      Nodes(lruHead, inUseHead, lru, inUse)
    }

    ghost function Nexts(): Links
      reads this`lru, this`inUse, OnLists()`next
    {
      NextsOf(OnLists())
    }

    ghost function Prevs(): Links
      reads this`lru, this`inUse, OnLists()`prev
    {
      PrevsOf(OnLists())
    }

    ghost function Refs(): map<Handle, nat>
      reads this, Live(S())`refs
    {
      map h: Handle | h in Live(S()) :: h.refs
    }

    ghost function InCache(): map<Handle, bool>
      reads this, Live(S())`inCache
    {
      map h: Handle | h in Live(S()) :: h.inCache
    }

    /** The handles lead round both lists, both ways. */
    ghost predicate Linked()
      reads this`lru, this`inUse, OnLists()`next, OnLists()`prev
    {
      Lists(Nexts(), Prevs(), lruHead, inUseHead, lru, inUse)
    }

    /** Everything but the hash table. */
    ghost predicate Core()
      reads this, OnLists()`next, OnLists()`prev, Live(S())`refs, Live(S())`inCache
    {
      Linked() && Counts(Refs(), InCache(), S()) && Rest(S(), usage, lruHead, inUseHead)
    }

    /** The hash table holds the cached handles. */
    ghost predicate Valid()
      reads this, OnLists()`next, OnLists()`prev, Live(S())`refs, Live(S())`inCache
      reads table, table.list, table.Elems()`nextHash
    {
      Core() && table.Valid() && table.Elems() == CachedSet(S())
    }

    constructor ()
      ensures Valid() && S() == State([], [], multiset{}, []) && capacity == 0
      ensures fresh(table) && fresh(table.list) && fresh(OnLists())
    {
      hide Ring, Placed, Buckets, All, Ok, Counts, Knows, Distinct, Apart;
      lruHead := new Handle([], 0, 0, 0);
      inUseHead := new Handle([], 0, 0, 0);
      table := new HandleTable();
      capacity, usage, deleted := 0, 0, [];
      lru, inUse, held := [], [], multiset{};
      new;
      lruHead.next, lruHead.prev := lruHead, lruHead;
      inUseHead.next, inUseHead.prev := inUseHead, inUseHead;
      EmptyRing(Nexts(), Prevs(), lruHead);
      EmptyRing(Nexts(), Prevs(), inUseHead);
      EmptyApart(lruHead, inUseHead);
      EmptyIsOk(Refs(), InCache(), lruHead);
      EmptyIsOk(Refs(), InCache(), inUseHead);
    }

    // ----- what the predicates tell

    lemma Link(h: Handle)
      requires Linked() && h in OnLists()
      ensures h.next != null && h.next in OnLists() && h.prev != null && h.prev in OnLists()
    {
      hide Lists, Ring;
      ListsAt(Nexts(), Prevs(), lruHead, inUseHead, lru, inUse, h);
    }

    lemma OldestIs()
      requires Linked()
      ensures lruHead.next == (if lru == [] then lruHead else lru[0])
    {
      hide Ring;
      RingAt(Nexts(), Prevs(), lruHead, lru, 0);
    }

    /** LRU_Remove: take a handle off the list it is on. */
    method LRU_Remove(e: Handle)
      requires Linked() && (e in lru || e in inUse)
      modifies this`lru, this`inUse, OnLists()`next, OnLists()`prev
      ensures Linked() && lru == Without(old(lru), e) && inUse == Without(old(inUse), e) && OnLists() == old(OnLists()) - {e}
    {
      hide Lists, Without, Nodes, NoRepeats;
      ghost var nexts, prevs, nodes := Nexts(), Prevs(), OnLists();
      ListedIsNode(lruHead, inUseHead, lru, inUse, e);
      Link(e);
      e.next.prev := e.prev;
      e.prev.next := e.next;
      lru := Without(lru, e);
      inUse := Without(inUse, e);
      NodesWithout(nexts, prevs, lruHead, inUseHead, old(lru), old(inUse), e);
      ListsRemoved(nexts, prevs, Nexts(), Prevs(), lruHead, inUseHead, old(lru), old(inUse), e);
    }

    /** LRU_Append: make a handle the newest of a list. */
    method LRU_Append(list: Handle, e: Handle)
      requires Linked() && (list == lruHead || list == inUseHead) && e !in OnLists()
      modifies this`lru, this`inUse, OnLists()`next, OnLists()`prev, e`next, e`prev
      ensures Linked()
      ensures lru == (if list == lruHead then old(lru) + [e] else old(lru))
      ensures inUse == (if list == lruHead then old(inUse) else old(inUse) + [e])
    {
      hide Lists, Nodes, Adds, NextsOf, PrevsOf;
      ghost var nexts, prevs, nodes := Nexts(), Prevs(), OnLists();
      ListedIsNode(lruHead, inUseHead, lru, inUse, list);
      Link(list);
      LinksOf(nodes);
      e.next := list;
      e.prev := list.prev;
      e.prev.next := e;
      e.next.prev := e;
      StoresAdd(nexts, prevs, nodes, list, e);
      ghost var nexts', prevs' := NextsOf(nodes + {e}), PrevsOf(nodes + {e});
      if list == lruHead {
        lru := lru + [e];
        NodesAdd(lruHead, inUseHead, old(lru), old(inUse), e);
        ListsGaveUp(nexts, prevs, nexts', prevs', lruHead, inUseHead, old(lru), inUse, e);
      } else {
        inUse := inUse + [e];
        NodesAdd(lruHead, inUseHead, old(lru), old(inUse), e);
        ListsTook(nexts, prevs, nexts', prevs', lruHead, inUseHead, lru, old(inUse), e);
      }
      assert OnLists() == nodes + {e};
    }

    /** What Core says of a handle that is not deleted. */
    lemma Tells(h: Handle)
      requires Core() && h in Live(S())
      ensures h.refs > 0 && (h.refs == 1 && h.inCache <==> h in lru)
      ensures h in inUse ==> h.inCache && h.refs > 1
      ensures h in held ==> (held[h] == 1 <==> h.refs == (if h.inCache then 2 else 1)) && (h.inCache <==> h in inUse)
    {
      hide Ok, Counts, Linked, Live, Knows;
      CountsTell(Refs(), InCache(), S(), h);
    }

    /** Ref: a client takes hold of a cached handle. */
    method Ref(e: Handle)
      requires Core() && Cached(S(), e)
      modifies this`lru, this`inUse, this`held, OnLists()`next, OnLists()`prev, e`refs
      ensures Core() && S() == Referenced(old(S()), e)
      ensures CachedSet(S()) == old(CachedSet(S())) && Live(S()) == old(Live(S()))
    {
      hide Core, Linked, Lists, Counts, Without, Nodes, NextsOf, PrevsOf, Referenced, CachedSet, Cached, Rest, Live, Ok;
      Parts();
      ghost var s, refs, cached := S(), Refs(), InCache();
      assert allocated(refs) && allocated(cached);
      CachedIsLive(s, e);
      ReferencedIs(s, e);
      ReferencedShape(s, e);
      Tells(e);
      ListedIsNode(lruHead, inUseHead, lru, inUse, e);
      if e.refs == 1 && e.inCache {
        LRU_Remove(e);
        LRU_Append(inUseHead, e);
      }
      e.refs := e.refs + 1;
      held := held + multiset{e};
      ReferencedRest(refs, cached, Refs(), s, usage, lruHead, inUseHead, e);
      assert InCache() == cached;
      Composed();
    }

    /** Unref: one count less, which may be the last, or the last beside the cache's own. */
    method Unref(e: Handle)
      requires Linked() && e.refs > 0 && (e.refs == 1 ==> !e.inCache) && (e.refs == 2 && e.inCache ==> e in inUse && e !in lru)
      modifies this`lru, this`inUse, this`deleted, OnLists()`next, OnLists()`prev, e`refs
      ensures Linked() && e.refs == old(e.refs) - 1
      ensures deleted == if e.refs == 0 then old(deleted) + [e] else old(deleted)
      ensures if e.inCache && e.refs == 1 then lru == old(lru) + [e] && inUse == Without(old(inUse), e)
              else lru == old(lru) && inUse == old(inUse)
    {
      hide Linked, Nodes, Without;
      e.refs := e.refs - 1;
      if e.refs == 0 {
        deleted := deleted + [e];
      } else if e.inCache && e.refs == 1 {
        ListedIsNode(lruHead, inUseHead, lru, inUse, e);
        WithoutNone(lru, e);
        LRU_Remove(e);
        LRU_Append(lruHead, e);
      }
    }

    /** Release: a client lets go of a handle. */
    method Release(h: Handle)
      requires Valid() && h in held
      modifies this`lru, this`inUse, this`deleted, this`held, OnLists()`next, OnLists()`prev, h`refs
      ensures Valid() && S() == Released(old(S()), h)
    {
      hide Core, Linked, S, Released, CachedSet, Live, Buckets, Placed, All;
      ghost var links := table.Links();
      assert allocated(links);
      UnrefHeld(h);
      assert table.Links() == links;
    }

    method UnrefHeld(h: Handle)
      requires Core() && h in held
      modifies this`lru, this`inUse, this`deleted, this`held, OnLists()`next, OnLists()`prev, h`refs
      ensures Core() && S() == Released(old(S()), h) && CachedSet(S()) == old(CachedSet(S()))
    {
      hide Core, Linked, Lists, Counts, Without, Nodes, Released, CachedSet, Cached, Rest, Live, Ok, Becomes;
      Parts();
      ghost var s, refs, cached := S(), Refs(), InCache();
      CachedIsLive(s, h);
      ReleasedIs(s, h);
      ReleasedShape(s, h);
      Tells(h);
      LetGo(h, s, refs, cached);
      ReleasedRest(refs, cached, Refs(), InCache(), s, usage, lruHead, inUseHead, h);
      Composed();
    }

    method LetGo(h: Handle, ghost s: State, ghost refs: map<Handle, nat>, ghost cached: map<Handle, bool>)
      requires Linked() && S() == s && Refs() == refs && InCache() == cached && h in refs && h.refs > 0 && h !in lru
      requires h in held && (held[h] == 1 <==> h.refs == (if h.inCache then 2 else 1)) && (h.inCache <==> h in inUse)
      requires h.inCache ==> h.refs > 1
      requires Live(Released(s, h)) <= Live(s)
      requires var left := held - multiset{h};
               Released(s, h) == if held[h] > 1 then State(lru, inUse, left, deleted)
                                 else if h in inUse then State(lru + [h], Without(inUse, h), left, deleted)
                                 else State(lru, inUse, left, deleted + [h])
      modifies this`lru, this`inUse, this`deleted, this`held, OnLists()`next, OnLists()`prev, h`refs
      ensures Linked() && S() == Released(s, h)
      ensures Becomes(refs, Refs(), h, refs[h] - 1) && Becomes(cached, InCache(), h, h.inCache)
    {
      hide Linked, Without, Nodes, Released, Live;
      Unref(h);
      held := held - multiset{h};
    }

    /** FinishErase: a cached handle that is out of the hash table leaves the cache. */
    method FinishErase(e: Handle?) returns (erased: bool)
      requires Core() && (e != null ==> Cached(S(), e))
      modifies this`lru, this`inUse, this`deleted, this`usage, OnLists()`next, OnLists()`prev
      modifies (if e == null then {} else {e})`refs, (if e == null then {} else {e})`inCache
      ensures Core() && erased == (e != null)
      ensures S() == if e == null then old(S()) else Uncached(old(S()), e)
      ensures CachedSet(S()) == old(CachedSet(S())) - if e == null then {} else {e}
      ensures Live(S()) <= old(Live(S())) && OnLists() <= old(OnLists())
    {
      hide Core, Linked, Lists, Counts, Without, Nodes, Uncached, CachedSet, Cached, Rest, Live, Ok;
      if e != null {
        Parts();
        ghost var s, refs, cached := S(), Refs(), InCache();
        CachedIsLive(s, e);
        UncachedIs(s, usage, e);
        UncachedShape(s, e);
        Tells(e);
        Leave(e, s, refs, cached);
        UncachedRest(refs, cached, Refs(), InCache(), s, usage, lruHead, inUseHead, e);
        Composed();
      }
      return e != null;
    }

    /** The statements of FinishErase: off its list, out of the cache, one count less. */
    method Leave(e: Handle, ghost s: State, ghost refs: map<Handle, nat>, ghost cached: map<Handle, bool>)
      requires Linked() && S() == s && Refs() == refs && InCache() == cached && e in refs && e.refs > 0 && e.charge <= usage
      requires (e in lru || e in inUse) && Live(Uncached(s, e)) <= Live(s) && (e.refs == 1 <==> e in lru)
      requires Uncached(s, e) == State(Without(lru, e), Without(inUse, e), held, if e in lru then deleted + [e] else deleted)
      modifies this`lru, this`inUse, this`deleted, this`usage, OnLists()`next, OnLists()`prev, e`refs, e`inCache
      ensures Linked() && S() == Uncached(s, e) && usage == old(usage) - e.charge && OnLists() <= old(OnLists())
      ensures Becomes(refs, Refs(), e, refs[e] - 1) && Becomes(cached, InCache(), e, false)
    {
      hide Linked, Without, Nodes, Uncached, Live;
      LRU_Remove(e);
      e.inCache := false;
      usage := usage - e.charge;
      Unref(e);
    }

    /** Lookup: the cached handle of a key, which the client then holds. */
    method Lookup(key: Bytes, hash: nat) returns (e: Handle?)
      requires Valid()
      modifies this`lru, this`inUse, this`held, OnLists()`next, OnLists()`prev, CachedSet(S())`refs
      ensures Valid()
      ensures e != null ==> Cached(old(S()), e) && Matches(e, key, hash) && S() == Referenced(old(S()), e)
      ensures e == null ==> S() == old(S()) && forall h :: h in CachedSet(S()) ==> !Matches(h, key, hash)
    {
      hide Core, Linked, S, Referenced, Live, Buckets, Placed, All;
      ghost var links := table.Links();
      assert allocated(links);
      e := FindInTable(key, hash);
      if e != null {
        CachedIsListed(S(), e);
        Ref(e);
        assert table.Links() == links;
      }
    }

    /** What the hash table has for a key. */
    method FindInTable(key: Bytes, hash: nat) returns (e: Handle?)
      requires Valid()
      ensures Valid()
      ensures e != null ==> e in CachedSet(S()) && Matches(e, key, hash)
      ensures e == null ==> forall h :: h in CachedSet(S()) ==> !Matches(h, key, hash)
    {
      hide Linked, S, CachedSet, Live, Counts, Rest, Buckets, Placed, All;
      ghost var nexts, prevs, refs, cached, links := Nexts(), Prevs(), Refs(), InCache(), table.Links();
      assert allocated(nexts) && allocated(prevs) && allocated(refs) && allocated(cached) && allocated(links);
      e := table.Lookup(key, hash);
      assert Nexts() == nexts && Prevs() == prevs && Refs() == refs && InCache() == cached && table.Links() == links;
    }

    /** Erase: the cached handle of a key, if there is one, leaves the cache. */
    method Erase(key: Bytes, hash: nat) returns (ghost out: Handle?)
      requires Valid()
      modifies this`lru, this`inUse, this`deleted, this`usage, OnLists()`next, OnLists()`prev
      modifies CachedSet(S())`refs, CachedSet(S())`inCache, CachedSet(S())`nextHash, table, table.list
      ensures Valid() && table.list == old(table.list)
      ensures out != null ==> Cached(old(S()), out) && Matches(out, key, hash) && S() == Uncached(old(S()), out)
      ensures out == null ==> S() == old(S()) && forall h :: h in CachedSet(S()) ==> !Matches(h, key, hash)
      ensures Live(S()) <= old(Live(S())) && OnLists() <= old(OnLists())
    {
      hide Core, S, OnLists, Uncached, Live, CachedSet, Cached, Matches, HandleTable.Valid, HandleTable.Elems;
      var e := RemoveFromTable(key, hash);
      if e != null {
        CachedIsListed(S(), e);
      }
      ghost var handles := table.Elems();
      assert allocated(handles);
      label Removed:
      var erased := FinishErase(e);
      table.Stays@Removed();
      out := e;
    }

    /** The hash table gives up a handle; the lists and counts stay. */
    method RemoveFromTable(key: Bytes, hash: nat) returns (e: Handle?)
      requires Valid()
      modifies CachedSet(S())`nextHash, table, table.list
      ensures Core() && S() == old(S()) && OnLists() == old(OnLists())
      ensures table.Valid() && table.list == old(table.list) && table.Elems() == CachedSet(S()) - if e == null then {} else {e}
      ensures e != null ==> e in CachedSet(S()) && Matches(e, key, hash)
      ensures e == null ==> forall h :: h in CachedSet(S()) ==> !Matches(h, key, hash)
    {
      hide Core, S, CachedSet, Live, OnLists, Matches, Buckets, Placed, All;
      ghost var nodes, live := OnLists(), Live(S());
      assert allocated(nodes) && allocated(live);
      e := table.Remove(key, hash);
      CoreStays();
    }

    /** The step both loops take: the handle nobody has held for longest leaves. */
    method EvictOldest()
      requires Valid() && lru != []
      modifies this`lru, this`inUse, this`deleted, this`usage, OnLists()`next, OnLists()`prev
      modifies CachedSet(S())`refs, CachedSet(S())`inCache, CachedSet(S())`nextHash, table, table.list
      ensures Valid() && table.list == old(table.list) && S() == Uncached(old(S()), old(lru)[0])
      ensures Live(S()) <= old(Live(S())) && OnLists() <= old(OnLists())
    {
      hide Core, Linked, Uncached, Live, Buckets, Placed, All, OnLists, Ring;
      Parts();
      OldestIs();
      var oldest := lruHead.next;
      CachedIsListed(S(), oldest);
      ghost var handles := CachedSet(S());
      NoTwoMatch();
      var out := Erase(oldest.key, oldest.hash);
      assert oldest in handles && Matches(oldest, oldest.key, oldest.hash);
    }

    /** No two cached handles match the same key. */
    lemma NoTwoMatch()
      requires Valid()
      ensures DistinctHandles(CachedSet(S()))
    {
      hide Core, CachedSet, Placed, DistinctHandles;
      TablePlaced();
      PlacedIsDistinct(table.chains);
    }

    lemma TablePlaced()
      requires table.Valid()
      ensures Placed(table.chains) && table.Elems() == All(table.chains)
    {
      hide Buckets, Placed;
    }

    /** Prune: everything nobody holds leaves. */
    method Prune()
      requires Valid()
      modifies this`lru, this`inUse, this`deleted, this`usage, OnLists()`next, OnLists()`prev
      modifies CachedSet(S())`refs, CachedSet(S())`inCache, CachedSet(S())`nextHash, table, table.list
      ensures Valid() && S() == Pruned(old(S()))
    {
      hide Valid, Uncached, Live, OnLists, Pruned;
      LruLeft();
      while lruHead.next != lruHead
        invariant Valid() && table.list == old(table.list) && Pruned(S()) == Pruned(old(S()))
        invariant OnLists() <= old(OnLists()) && CachedSet(S()) <= old(CachedSet(S()))
        invariant lruHead.next == lruHead <==> lru == []
        decreases |lru|
      {
        LruLeft();
        PrunedStep(S());
        EvictOldest();
        LruLeft();
      }
      PrunedNone(S());
    }

    lemma LruLeft()
      requires Valid()
      ensures lruHead.next == lruHead <==> lru == []
      ensures Ok(S()) && usage == Usage(S())
    {
      hide Lists, Ring, Counts, Ok, Knows, Cached;
      Parts();
      OldestIs();
      RingHeads(Nexts(), Prevs(), lruHead, inUseHead, lru, inUse);
    }

    method NewHandle(key: Bytes, hash: nat, value: int, charge: nat) returns (e: Handle)
      requires Valid()
      ensures Valid() && S() == old(S()) && table.list == old(table.list)
      ensures fresh(e) && e.key == key && e.hash == hash && e.value == value && e.charge == charge
      ensures !e.inCache && e.refs == 1 && !Knows(S(), e) && e !in OnLists()
    {
      hide Linked, S, CachedSet, Live, Counts, Rest, Buckets, Placed, All, Nodes, Knows;
      ghost var nexts, prevs, refs, cached, links := Nexts(), Prevs(), Refs(), InCache(), table.Links();
      assert allocated(nexts) && allocated(prevs) && allocated(refs) && allocated(cached) && allocated(links);
      ghost var known, nodes := Known(S()), OnLists();
      assert allocated(known) && allocated(nodes);
      e := new Handle(key, hash, value, charge);
      assert Nexts() == nexts && Prevs() == prevs && Refs() == refs && InCache() == cached && table.Links() == links;
      assert e !in known && e !in nodes;
      KnownIsIn(S(), e);
    }

    /** With caching off: the client alone holds the handle. */
    method HandOut(e: Handle)
      requires Valid() && !e.inCache && e.refs == 1 && !Knows(S(), e) && e !in OnLists()
      modifies this`held
      ensures Valid() && S() == old(S()).(held := old(held) + multiset{e}) && CachedSet(S()) == old(CachedSet(S()))
    {
      hide Core, Linked, Lists, Counts, Nodes, Rest, Live, Ok, Buckets, Placed, All, TakenInState, CachedSet, Knows;
      Parts();
      ghost var s, refs, cached := S(), Refs(), InCache();
      held := held + multiset{e};
      ListedIsNode(lruHead, inUseHead, lru, inUse, lruHead);
      ListedIsNode(lruHead, inUseHead, lru, inUse, inUseHead);
      TakenInShape(s, e, false);
      TakenInIs(s, e, false);
      TakenInRest(refs, cached, Refs(), InCache(), s, usage, lruHead, inUseHead, e, false);
      Composed();
    }

    /** With caching on: the cache holds the handle too. */
    method Admit(e: Handle)
      requires Core() && !e.inCache && e.refs == 1 && !Knows(S(), e) && e !in OnLists()
      modifies this`held, this`inUse, this`lru, this`usage, OnLists()`next, OnLists()`prev
      modifies e`next, e`prev, e`refs, e`inCache
      ensures Core() && S() == old(S()).(inUse := old(inUse) + [e], held := old(held) + multiset{e})
      ensures CachedSet(S()) == old(CachedSet(S())) + {e} && OnLists() == old(OnLists()) + {e}
    {
      hide Core, Linked, Lists, Counts, Nodes, Rest, Live, Ok, CachedSet, Knows, TakenInState;
      Parts();
      ghost var s, refs, cached := S(), Refs(), InCache();
      assert allocated(refs) && allocated(cached);
      ListedIsNode(lruHead, inUseHead, lru, inUse, lruHead);
      ListedIsNode(lruHead, inUseHead, lru, inUse, inUseHead);
      NodesAdd(lruHead, inUseHead, lru, inUse, e);
      e.refs := e.refs + 1;
      e.inCache := true;
      LRU_Append(inUseHead, e);
      usage := usage + e.charge;
      held := held + multiset{e};
      TakenInShape(s, e, true);
      TakenInIs(s, e, true);
      TakenInRest(refs, cached, Refs(), InCache(), s, usage - e.charge, lruHead, inUseHead, e, true);
      Composed();
    }

    method TakeIn(e: Handle) returns (out: Handle?)
      requires Valid() && !e.inCache && e.refs == 1 && !Knows(S(), e) && e !in OnLists()
      modifies this`held, this`inUse, this`lru, this`usage, this`deleted, OnLists()`next, OnLists()`prev, e
      modifies CachedSet(S())`refs, CachedSet(S())`inCache, CachedSet(S())`nextHash, table, table.list
      ensures Valid() && (table.list == old(table.list) || fresh(table.list))
      ensures var s := old(S()).(inUse := old(inUse) + [e], held := old(held) + multiset{e});
              S() == if out == null then s else Uncached(s, out)
      ensures OnLists() <= old(OnLists()) + {e} && CachedSet(S()) <= old(CachedSet(S())) + {e}
      ensures out != null ==> out in old(CachedSet(S())) && Matches(out, e.key, e.hash)
      ensures out == null ==> forall h :: h in old(CachedSet(S())) ==> !Matches(h, e.key, e.hash)
    {
      hide Core, OnLists, Live, CachedSet, Cached, Knows, Matches, Uncached, HandleTable.Valid, HandleTable.Elems;
      CachedIsKnown(S(), e);
      ghost var handles := table.Elems();
      assert allocated(handles);
      Admit(e);
      table.Stays();
      out := AddToTable(e);
      if out != null {
        CachedIsListed(S(), out);
      }
      handles := table.Elems();
      assert allocated(handles);
      label Added:
      var erased := FinishErase(out);
      table.Stays@Added();
    }

    /** The hash table takes a cached handle in; the lists and counts stay. */
    method AddToTable(e: Handle) returns (out: Handle?)
      requires Core() && table.Valid() && e in CachedSet(S()) && table.Elems() == CachedSet(S()) - {e}
      modifies CachedSet(S())`nextHash, table, table.list
      ensures Core() && S() == old(S()) && OnLists() == old(OnLists())
      ensures table.Valid() && (table.list == old(table.list) || fresh(table.list))
      ensures table.Elems() == CachedSet(S()) - if out == null then {} else {out}
      ensures out != null ==> out in CachedSet(S()) && out != e && Matches(out, e.key, e.hash)
      ensures out == null ==> forall h :: h in CachedSet(S()) && h != e ==> !Matches(h, e.key, e.hash)
    {
      hide *;
      ghost var nodes, live := OnLists(), Live(S());
      assert allocated(nodes) && allocated(live);
      out := table.Insert(e);
      CoreStays();
    }

    /** Insert: a new handle, held by the client; unless caching is off it takes the
        place of the cached handle of its key, and what nobody holds makes room. */
    method Insert(key: Bytes, hash: nat, value: int, charge: nat) returns (e: Handle, ghost out: Handle?)
      requires Valid()
      modifies this, OnLists()`next, OnLists()`prev
      modifies CachedSet(S())`refs, CachedSet(S())`inCache, CachedSet(S())`nextHash, table, table.list
      ensures Valid() && capacity == old(capacity)
      ensures fresh(e) && e.key == key && e.hash == hash && e.value == value && e.charge == charge
      ensures !Knows(old(S()), e) && S() == LruSpec.Inserted(old(S()), e, out, capacity)
      ensures out != null ==> Cached(old(S()), out) && Matches(out, key, hash)
      ensures out == null && capacity > 0 ==> forall h :: h in old(CachedSet(S())) ==> !Matches(h, key, hash)
      ensures usage <= capacity || lru == []
    {
      hide Core, Linked, Uncached, Live, Evicted, Nodes, Buckets, Placed, All, CachedSet, Cached, Knows, Matches, NextsOf, PrevsOf;
      e := NewHandle(key, hash, value, charge);
      ghost var before := S();
      if capacity > 0 {
        out := TakeIn(e);
        if out != null {
          CachedIsListed(before, out);
        }
      } else {
        e.next := null;
        out := null;
        HandOut(e);
      }
      LruLeft();
      ghost var s := S();
      while usage > capacity && lruHead.next != lruHead
        invariant Valid() && (table.list == old(table.list) || fresh(table.list)) && capacity == old(capacity)
        invariant Evicted(S(), capacity) == Evicted(s, capacity)
        invariant OnLists() <= old(OnLists()) + {e} && CachedSet(S()) <= old(CachedSet(S())) + {e}
        invariant lruHead.next == lruHead <==> lru == []
        decreases |lru|
      {
        LruLeft();
        EvictedStep(S(), usage, capacity);
        EvictOldest();
        LruLeft();
      }
      LruLeft();
      EvictedNone(S(), usage, capacity);
    }

    /** What the hash table does leaves the lists and the counts as they were. */
    twostate lemma CoreStays()
      requires old(Core()) && S() == old(S()) && usage == old(usage) && OnLists() == old(OnLists())
      requires forall h :: h in OnLists() ==> h.next == old(h.next) && h.prev == old(h.prev)
      requires forall h :: h in Live(S()) ==> h.refs == old(h.refs) && h.inCache == old(h.inCache)
      ensures Core()
    {
      hide Lists, Counts, Rest, Nodes, Live;
      assert Nexts() == old(Nexts()) && Prevs() == old(Prevs()) && Refs() == old(Refs()) && InCache() == old(InCache());
    }

    lemma Parts()
      requires Core()
      ensures Linked() && Counts(Refs(), InCache(), S()) && Rest(S(), usage, lruHead, inUseHead)
      ensures Ok(S()) && usage == Usage(S()) && lruHead != inUseHead
    {
      hide Counts;
    }

    lemma Composed()
      requires Linked() && Counts(Refs(), InCache(), S()) && Rest(S(), usage, lruHead, inUseHead)
      ensures Core()
    {
      hide Counts;
    }
  }

  /** What is left of Core beside the links and the counts. */
  ghost predicate Rest(s: State, usage: nat, a: Handle, b: Handle) {
    Ok(s) && usage == Usage(s) && a != b && !Knows(s, a) && !Knows(s, b)
  }

  /** What Ref does to everything but the links. */
  lemma ReferencedRest(refs: map<Handle, nat>, cached: map<Handle, bool>, refs': map<Handle, nat>, s: State, usage: nat,
                       a: Handle, b: Handle, e: Handle)
    requires Rest(s, usage, a, b) && Counts(refs, cached, s) && Cached(s, e)
    requires e in refs && refs'.Keys == Live(Referenced(s, e)) && Becomes(refs, refs', e, refs[e] + 1)
    ensures Rest(Referenced(s, e), usage, a, b) && Counts(refs', cached, Referenced(s, e))
  {
    hide Counts, Referenced, Ok, Knows, Keeps, Usage, Becomes;
    ReferencedKeeps(s, e);
    StaysUnknown(s, Referenced(s, e), a);
    StaysUnknown(s, Referenced(s, e), b);
    ReferencedCounts(refs, cached, refs', s, e);
  }

  /** What Unref does for Release, spelled out. */
  lemma ReleasedIs(s: State, h: Handle)
    requires Ok(s) && h in s.held
    ensures var held := s.held - multiset{h};
            Released(s, h) == if s.held[h] > 1 then State(s.lru, s.inUse, held, s.deleted)
                              else if h in s.inUse then State(s.lru + [h], Without(s.inUse, h), held, s.deleted)
                              else State(s.lru, s.inUse, held, s.deleted + [h])
    ensures h !in s.lru
  {
    hide Without;
  }

  /** What Release does to everything but the links. */
  lemma ReleasedRest(refs: map<Handle, nat>, cached: map<Handle, bool>, refs': map<Handle, nat>, cached': map<Handle, bool>,
                     s: State, usage: nat, a: Handle, b: Handle, h: Handle)
    requires Rest(s, usage, a, b) && Counts(refs, cached, s) && h in s.held
    requires h in refs && refs[h] > 0 && refs'.Keys == Live(Released(s, h)) == cached'.Keys
    requires h in cached && Becomes(refs, refs', h, refs[h] - 1) && Becomes(cached, cached', h, cached[h])
    ensures Rest(Released(s, h), usage, a, b) && Counts(refs', cached', Released(s, h))
  {
    hide Counts, Released, Ok, Knows, Keeps, Usage, Becomes;
    ReleasedKeeps(s, h);
    StaysUnknown(s, Released(s, h), a);
    StaysUnknown(s, Released(s, h), b);
    ReleasedCounts(refs, cached, refs', cached', s, h);
  }

  /** What FinishErase does, spelled out. */
  lemma UncachedIs(s: State, usage: nat, e: Handle)
    requires Ok(s) && usage == Usage(s) && Cached(s, e)
    ensures (e in s.lru || e in s.inUse) && (e in s.inUse ==> e !in s.lru) && e.charge <= usage
    ensures Uncached(s, e) == State(Without(s.lru, e), Without(s.inUse, e), s.held, if e in s.lru then s.deleted + [e] else s.deleted)
  {
    hide Without, Usage;
    UncachedKeeps(s, e);
    if e in s.lru {
      WithoutNone(s.inUse, e);
    } else {
      WithoutNone(s.lru, e);
    }
  }

  /** What FinishErase does to everything but the links. */
  lemma UncachedRest(refs: map<Handle, nat>, cached: map<Handle, bool>, refs': map<Handle, nat>, cached': map<Handle, bool>,
                     s: State, usage: nat, a: Handle, b: Handle, e: Handle)
    requires Rest(s, usage + e.charge, a, b) && Counts(refs, cached, s) && Cached(s, e)
    requires e in refs && refs[e] > 0 && refs'.Keys == Live(Uncached(s, e)) == cached'.Keys
    requires Becomes(refs, refs', e, refs[e] - 1) && Becomes(cached, cached', e, false)
    ensures Rest(Uncached(s, e), usage, a, b) && Counts(refs', cached', Uncached(s, e))
  {
    hide Counts, Uncached, Ok, Knows, Keeps, Usage, Becomes, Cached;
    UncachedKeeps(s, e);
    StaysUnknown(s, Uncached(s, e), a);
    StaysUnknown(s, Uncached(s, e), b);
    UncachedCounts(refs, cached, refs', cached', s, e);
  }

  lemma RingHeads(nexts: Links, prevs: Links, a: Handle, b: Handle, q: seq<Handle>, r: seq<Handle>)
    requires Lists(nexts, prevs, a, b, q, r)
    ensures a !in q && b !in r
  {
  }

  lemma PrunedStep(s: State)
    requires Ok(s) && s.lru != []
    ensures Pruned(Uncached(s, s.lru[0])) == Pruned(s) && Uncached(s, s.lru[0]).lru == s.lru[1..]
    ensures CachedSet(Uncached(s, s.lru[0])) <= CachedSet(s)
  {
    hide Uncached, Pruned, Ok;
    PrunedIsUncached(s);
    OldestUncached(s);
    UncachedShape(s, s.lru[0]);
  }

  lemma PrunedNone(s: State)
    requires s.lru == []
    ensures Pruned(s) == s
  {
    assert s.deleted + s.lru == s.deleted;
  }

  lemma CachedIsKnown(s: State, h: Handle)
    ensures h in CachedSet(s) ==> Knows(s, h)
  {
  }

  ghost function Known(s: State): set<Handle> {
    Live(s) + set h | h in s.deleted
  }

  lemma KnownIsIn(s: State, h: Handle)
    ensures h in Known(s) <==> Knows(s, h)
  {
  }

  /** What a new handle does to everything but the links. */
  lemma TakenInRest(refs: map<Handle, nat>, cached: map<Handle, bool>, refs': map<Handle, nat>, cached': map<Handle, bool>,
                    s: State, usage: nat, a: Handle, b: Handle, e: Handle, caching: bool)
    requires Rest(s, usage, a, b) && Counts(refs, cached, s) && !Knows(s, e) && e != a && e != b
    requires refs'.Keys == Live(TakenInState(s, e, caching)) == cached'.Keys
    requires forall h :: h in refs' && h != e ==> h in refs && h in cached && refs'[h] == refs[h] && cached'[h] == cached[h]
    requires e in refs' ==> refs'[e] == (if caching then 2 else 1) && cached'[e] == caching
    ensures var r := TakenInState(s, e, caching);
            Rest(r, usage + if caching then e.charge else 0, a, b) && Counts(refs', cached', r)
  {
    hide Ok, TakenInState, Knows, Cached, Usage, Live;
    TakenInShape(s, e, caching);
    TakenIn(s, e, caching);
    TakenInIs(s, e, caching);
    TakenInUnknown(s, e, caching, a);
    TakenInUnknown(s, e, caching, b);
    CachedIsIn(s);
    CachedIsIn(TakenInState(s, e, caching));
    KnowsCached(s, e);
  }

  lemma KnowsCached(s: State, e: Handle)
    requires !Knows(s, e)
    ensures !Cached(s, e) && e !in s.held
  {
  }

  lemma TakenInIs(s: State, e: Handle, caching: bool)
    ensures TakenInState(s, e, caching)
         == if caching then s.(inUse := s.inUse + [e], held := s.held + multiset{e}) else s.(held := s.held + multiset{e})
    ensures Usage(TakenInState(s, e, caching)) == Usage(s) + if caching then e.charge else 0
  {
    hide Charges;
    ChargesAppend(s.inUse, e);
  }

  lemma TakenInUnknown(s: State, e: Handle, caching: bool, h: Handle)
    requires !Knows(s, h) && h != e
    ensures !Knows(TakenInState(s, e, caching), h)
  {
  }

  lemma TakenInShape(s: State, e: Handle, caching: bool)
    ensures var r := TakenInState(s, e, caching);
            && CachedSet(r) == CachedSet(s) + (if caching then {e} else {}) && Live(r) == Live(s) + {e}
            && r.held == s.held + multiset{e}
  {
    Listed(s.inUse, e);
  }

  function TakenInState(s: State, e: Handle, caching: bool): State {
    if caching then s.(inUse := s.inUse + [e], held := s.held + multiset{e}) else s.(held := s.held + multiset{e})
  }

  lemma EvictedStep(s: State, usage: nat, capacity: nat)
    requires Ok(s) && usage == Usage(s) > capacity && s.lru != []
    ensures Evicted(Uncached(s, s.lru[0]), capacity) == Evicted(s, capacity) && Uncached(s, s.lru[0]).lru == s.lru[1..]
    ensures CachedSet(Uncached(s, s.lru[0])) <= CachedSet(s)
  {
    hide Uncached, Ok, Usage;
    OldestUncached(s);
    UncachedShape(s, s.lru[0]);
  }

  lemma EvictedNone(s: State, usage: nat, capacity: nat)
    requires usage == Usage(s) && (usage <= capacity || s.lru == [])
    ensures Evicted(s, capacity) == s
  {
  }

  lemma ListsAt(nexts: Links, prevs: Links, a: Handle, b: Handle, q: seq<Handle>, r: seq<Handle>, h: Handle)
    requires Lists(nexts, prevs, a, b, q, r) && h in Nodes(a, b, q, r)
    ensures h in nexts && nexts[h] != null && nexts[h] in Nodes(a, b, q, r)
    ensures h in prevs && prevs[h] != null && prevs[h] in Nodes(a, b, q, r)
  {
    hide Ring, Distinct, Apart;
    if h == a || h in q {
      var j := AroundTo(a, q, h);
      RingBeside(nexts, prevs, a, q, j);
      AroundIsNode(a, b, q, r, j + 1);
      AroundIsNode(a, b, q, r, if j > 0 then j - 1 else |q|);
    } else {
      var j := AroundTo(b, r, h);
      RingBeside(nexts, prevs, b, r, j);
      AroundIsNode(a, b, q, r, j + 1);
      AroundIsNode(a, b, q, r, if j > 0 then j - 1 else |r|);
    }
  }

  lemma AroundTo(head: Handle, q: seq<Handle>, h: Handle) returns (j: nat)
    requires h == head || h in q
    ensures j <= |q| && Around(head, q, j) == h
  {
    if h == head {
      j := 0;
    } else {
      var k :| 0 <= k < |q| && q[k] == h;
      j := k + 1;
    }
  }

  lemma ListedIsNode(a: Handle, b: Handle, q: seq<Handle>, r: seq<Handle>, h: Handle)
    requires h == a || h == b || h in q || h in r
    ensures h in Nodes(a, b, q, r)
  {
  }

  lemma EmptyRing(nexts: Links, prevs: Links, head: Handle)
    requires head in nexts && nexts[head] == head && head in prevs && prevs[head] == head
    ensures Ring(nexts, prevs, head, [])
  {
  }

  lemma EmptyApart(a: Handle, b: Handle)
    requires a != b
    ensures Distinct(a, []) && Distinct(b, []) && Apart(a, b, [], [])
  {
  }

  lemma EmptyIsOk(refs: map<Handle, nat>, cached: map<Handle, bool>, h: Handle)
    requires refs == map[] && cached == map[]
    ensures var s := State([], [], multiset{}, []);
            Ok(s) && Counts(refs, cached, s) && Usage(s) == 0 && !Knows(s, h) && CachedSet(s) == {}
  {
  }

  lemma RingBeside(nexts: Links, prevs: Links, head: Handle, q: seq<Handle>, j: nat)
    requires Ring(nexts, prevs, head, q) && j <= |q|
    ensures var h := Around(head, q, j);
            && h in nexts && nexts[h] == Around(head, q, j + 1)
            && h in prevs && prevs[h] == Around(head, q, if j > 0 then j - 1 else |q|)
  {
    RingAt(nexts, prevs, head, q, j);
    RingAt(nexts, prevs, head, q, if j > 0 then j - 1 else |q|);
  }

  lemma NodesWithout(nexts: Links, prevs: Links, a: Handle, b: Handle, q: seq<Handle>, r: seq<Handle>, e: Handle)
    requires Lists(nexts, prevs, a, b, q, r) && (e in q || e in r)
    ensures Nodes(a, b, Without(q, e), Without(r, e)) == Nodes(a, b, q, r) - {e}
  {
    hide Without, Ring;
    WithoutHolds(q, e);
    WithoutHolds(r, e);
  }

  lemma NodesAdd(a: Handle, b: Handle, q: seq<Handle>, r: seq<Handle>, e: Handle)
    ensures Nodes(a, b, q + [e], r) == Nodes(a, b, q, r) + {e} == Nodes(a, b, q, r + [e])
  {
  }

  lemma CachedIsLive(s: State, h: Handle)
    requires Cached(s, h) || h in s.held
    ensures h in Live(s)
  {
  }

  lemma StaysUnknown(s: State, s': State, h: Handle)
    requires Keeps(s, s') && !Knows(s, h)
    ensures Ok(s') && !Knows(s', h)
  {
  }

  /** The two moves of Ref, spelled out. */
  lemma ReferencedIs(s: State, e: Handle)
    requires Ok(s) && Cached(s, e)
    ensures (e in s.lru || e in s.inUse) && (e in s.inUse ==> e !in s.lru)
    ensures var held := s.held + multiset{e};
            Referenced(s, e) == if e in s.lru then State(Without(s.lru, e), Without(s.inUse, e) + [e], held, s.deleted)
                                else State(s.lru, s.inUse, held, s.deleted)
  {
    hide Without;
    if e in s.lru {
      WithoutNone(s.inUse, e);
    }
  }
}
