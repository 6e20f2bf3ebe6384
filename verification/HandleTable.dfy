/** The hash table of the cache (`util/cache.cc`): buckets of handles chained
    through the handles themselves. */
module HandleTable {
  import opened Keys

  /** LRUHandle. The value is what the client stored; keys are compared with their hashes. */
  class Handle {
    const key: Bytes
    const hash: nat
    const value: int
    const charge: nat
    var nextHash: Handle?
    var next: Handle?
    var prev: Handle?
    var inCache: bool
    var refs: nat

    constructor (key: Bytes, hash: nat, value: int, charge: nat)
      ensures this.key == key && this.hash == hash && this.value == value && this.charge == charge
      ensures !inCache && refs == 1
    {
      this.key := key;
      this.hash := hash;
      this.value := value;
      this.charge := charge;
      nextHash := null;
      next := null;
      prev := null;
      inCache := false;
      refs := 1;
    }
  }

  predicate Matches(h: Handle, key: Bytes, hash: nat) {
    h.hash == hash && h.key == key
  }

  // ----- chains

  function At(chain: seq<Handle>, j: nat): Handle? {
    if j < |chain| then chain[j] else null
  }

  ghost predicate LinkedFrom(links: map<Handle, Handle?>, chain: seq<Handle>) {
    forall j: nat {:trigger chain[j]} :: j < |chain| ==> chain[j] in links && links[chain[j]] == At(chain, j + 1)
  }

  /** Every bucket leads through its chain. */
  ghost predicate Buckets(links: map<Handle, Handle?>, list: seq<Handle?>, chains: seq<seq<Handle>>) {
    && |list| == |chains|
    && forall b :: 0 <= b < |chains| ==> list[b] == At(chains[b], 0) && LinkedFrom(links, chains[b])
  }

  /** The handles of bucket `b` of `n`: each once, and no two that match the same key. */
  ghost predicate ChainOk(chain: seq<Handle>, b: nat, n: nat)
    requires n > 0
  {
    && (forall h :: h in chain ==> h.hash % n == b)
    && forall i, j :: 0 <= i < j < |chain| ==> chain[i] != chain[j] && !Matches(chain[i], chain[j].key, chain[j].hash)
  }

  /** Handles are in the bucket of their hash. */
  ghost predicate Placed(chains: seq<seq<Handle>>) {
    |chains| > 0 && forall b: nat {:trigger ChainOk(chains[b], b, |chains|)} :: b < |chains| ==> ChainOk(chains[b], b, |chains|)
  }

  /** A handle can only be in the bucket of its hash. */
  lemma OwnBucket(chains: seq<seq<Handle>>, h: Handle)
    requires Placed(chains)
    ensures h in All(chains) <==> h in chains[h.hash % |chains|]
  {
    if h in All(chains) {
      var b :| 0 <= b < |chains| && h in chains[b];
      assert ChainOk(chains[b], b, |chains|);
    }
  }

  ghost function All(chains: seq<seq<Handle>>): set<Handle> {
    set b, h | 0 <= b < |chains| && h in chains[b] :: h
  }

  /** The stored handles, no two of which match the same key. */
  ghost predicate DistinctHandles(hs: set<Handle>) {
    forall g, h :: g in hs && h in hs && Matches(g, h.key, h.hash) ==> g == h
  }

  lemma PlacedIsDistinct(chains: seq<seq<Handle>>)
    requires Placed(chains)
    ensures DistinctHandles(All(chains))
  {
    forall g, h | g in All(chains) && h in All(chains) && Matches(g, h.key, h.hash)
      ensures g == h
    {
      var b := h.hash % |chains|;
      OwnBucket(chains, g);
      OwnBucket(chains, h);
      assert ChainOk(chains[b], b, |chains|);
      var i :| 0 <= i < |chains[b]| && chains[b][i] == g;
      var j :| 0 <= j < |chains[b]| && chains[b][j] == h;
    }
  }

  lemma InAll(chains: seq<seq<Handle>>, b: nat, j: nat)
    requires b < |chains| && j < |chains[b]|
    ensures chains[b][j] in All(chains)
  {
    assert chains[b][j] in chains[b];
  }

  class HandleTable {
    var list: array<Handle?>
    var elems: nat
    ghost var chains: seq<seq<Handle>>

    ghost function Elems(): set<Handle>
      reads this`chains
    {
      All(chains)
    }

    ghost function Links(): map<Handle, Handle?>
      reads this`chains, Elems()`nextHash
    {
      map h: Handle | h in Elems() :: h.nextHash
    }

    ghost predicate Valid()
      reads this, list, Elems()`nextHash
    {
      Buckets(Links(), list[..], chains) && Placed(chains) && elems == |Elems()|
    }

    /** A table does not depend on anything but its slots and hash links. */
    twostate lemma Stays()
      requires old(Valid()) && list == old(list) && list[..] == old(list[..]) && chains == old(chains) && elems == old(elems)
      requires forall h :: h in Elems() ==> h.nextHash == old(h.nextHash)
      ensures Valid()
    {
      hide Buckets, Placed, All;
      assert Links() == old(Links());
    }

    constructor ()
      ensures Valid() && Elems() == {} && fresh(list)
    {
      list := new Handle?[4](_ => null);
      elems := 0;
      chains := seq(4, _ => []);
    }

    lemma Lengths()
      requires Valid()
      ensures |chains| == list.Length > 0
    {
    }

    lemma Bucket(b: nat)
      requires Valid() && b < list.Length
      ensures list[b] == At(chains[b], 0)
    {
    }

    lemma HashLink(b: nat, j: nat)
      requires Valid() && b < |chains| && j < |chains[b]|
      ensures chains[b][j] in Elems() && chains[b][j].nextHash == At(chains[b], j + 1)
    {
      assert LinkedFrom(Links(), chains[b]);
      InAll(chains, b, j);
    }

    /** The slot where a match is, or the slot at the end of the chain: its bucket,
        the handle before it if there is one, and what it holds. */
    method FindPointer(key: Bytes, hash: nat) returns (b: nat, before: Handle?, cur: Handle?, ghost j: nat)
      requires Valid()
      ensures Valid() && b < |chains| && b == hash % |chains| && j <= |chains[b]| && cur == At(chains[b], j)
      ensures before == if j == 0 then null else chains[b][j - 1]
      ensures forall k :: 0 <= k < j ==> !Matches(chains[b][k], key, hash)
      ensures cur != null ==> Matches(cur, key, hash)
    {
      hide Buckets, Placed, All;
      Lengths();
      b := hash % list.Length;
      Bucket(b);
      before := null;
      cur := list[b];
      j := 0;
      while cur != null && (cur.hash != hash || key != cur.key)
        invariant Valid() && j <= |chains[b]| && cur == At(chains[b], j)
        invariant before == if j == 0 then null else chains[b][j - 1]
        invariant forall k :: 0 <= k < j ==> !Matches(chains[b][k], key, hash)
        decreases |chains[b]| - j
      {
        HashLink(b, j);
        before := cur;
        cur := cur.nextHash;
        j := j + 1;
      }
    }

    /** The matching handle, or null when there is none. */
    method Lookup(key: Bytes, hash: nat) returns (r: Handle?)
      requires Valid()
      ensures r != null ==> r in Elems() && Matches(r, key, hash)
      ensures r == null ==> forall h :: h in Elems() ==> !Matches(h, key, hash)
    {
      var b, before;
      ghost var j;
      b, before, r, j := FindPointer(key, hash);
      NoOtherMatch(chains, b, j, key, hash);
    }
  
    /** The slot before place `j` of bucket `b` is given a new handle, or what follows
        place `k`. */
    method Splice(b: nat, before: Handle?, ghost j: nat, h: Handle?, rest: Handle?, ghost k: nat)
      requires Valid() && b < |chains| && CanSplice(chains[b], b, |chains|, j, Optional(h), k)
      requires before == (if j == 0 then null else chains[b][j - 1]) && rest == At(chains[b], k)
      requires h != null ==> h !in Elems()
      modifies list, this`chains, Elems()`nextHash, if h == null then {} else {h}`nextHash
      ensures chains == old(chains)[b := Spliced(old(chains[b]), j, Optional(h), k)]
      ensures Buckets(Links(), list[..], chains) && Placed(chains)
    {
      hide Buckets, Placed, ChainOk, Spliced;
      ghost var links, slots, was, mid := Links(), list[..], chains, Optional(h);
      Lengths();
      if j > 0 {
        InAll(chains, b, j - 1);
      }
      SplicedPlaced(chains, b, j, mid, k);
      if h != null {
        h.nextHash := rest;
      }
      var target := if h != null then h else rest;
      if before == null {
        list[b] := target;
      } else {
        before.nextHash := target;
      }
      chains := chains[b := Spliced(chains[b], j, mid, k)];
      LinksCover();
      if h != null {
        SplicedHolds(was[b], j, mid, k, h);
        assert h in chains[b];
      }
      if j > 0 {
        SplicedHolds(was[b], j, mid, k, before);
        assert before in chains[b];
      }
      SplicedBuckets(links, Links(), slots, list[..], was, b, j, mid, k);
    }

    /** Resize: a new array of slots, to which the handles are moved one at a time. */
    method Resize()
      requires Buckets(Links(), list[..], chains) && Placed(chains) && elems == |Elems()|
      modifies this, Elems()`nextHash
      ensures Valid() && fresh(list) && Elems() == old(Elems()) && elems == old(elems)
    {
      hide Buckets, Placed, Moved, UnmovedFrom;
      var newLength := 4;
      while newLength < elems
        invariant newLength >= 4
      {
        newLength := newLength * 2;
      }
      var newList := new Handle?[newLength](_ => null);
      ghost var newChains: seq<seq<Handle>> := seq(newLength, _ => []);
      NothingMoved(Links(), list[..], newList[..], chains, newChains);
      for i := 0 to list.Length
        invariant |chains| == list.Length && list == old(list) && fresh(newList) && chains == old(chains)
        invariant Placed(newChains) && Buckets(Links(), newList[..], newChains) && All(newChains) == Moved(chains, i, 0)
        invariant UnmovedFrom(Links(), list[..], chains, i, 0)
        modifies Elems()`nextHash, newList
      {
        newChains := MoveBucket(newList, newChains, i);
      }
      AllMoved(chains);
      ghost var links := Links();
      chains := newChains;
      list := newList;
      assert Links() == links;
    }

    /** Moves the handles of one bucket to the front of their new buckets. */
    method MoveBucket(newList: array<Handle?>, ghost newChains: seq<seq<Handle>>, i: nat) returns (ghost newChains': seq<seq<Handle>>)
      requires i < |chains| == list.Length && newList != list && Placed(chains)
      requires Placed(newChains) && Buckets(Links(), newList[..], newChains) && All(newChains) == Moved(chains, i, 0)
      requires UnmovedFrom(Links(), list[..], chains, i, 0)
      modifies Elems()`nextHash, newList
      ensures Placed(newChains') && Buckets(Links(), newList[..], newChains') && All(newChains') == Moved(chains, i + 1, 0)
      ensures UnmovedFrom(Links(), list[..], chains, i + 1, 0)
    {
      hide Buckets, Placed, Moved, UnmovedFrom, All;
      newChains' := newChains;
      UnmovedBegins(Links(), list[..], chains, i);
      var h := list[i];
      ghost var j: nat := 0;
      while h != null
        invariant j <= |chains[i]| && h == At(chains[i], j)
        invariant Placed(newChains') && Buckets(Links(), newList[..], newChains') && All(newChains') == Moved(chains, i, j)
        invariant UnmovedFrom(Links(), list[..], chains, i, j)
        decreases |chains[i]| - j
      {
        UnmovedNext(Links(), list[..], chains, i, j);
        var next := h.nextHash;
        newChains' := MoveHandle(newList, newChains', h, i, j);
        h := next;
        j := j + 1;
      }
      BucketMoved(Links(), list[..], chains, i);
    }

    /** `h`, at place `j` of bucket `i`, becomes the first handle of its new bucket. */
    method MoveHandle(newList: array<Handle?>, ghost newChains: seq<seq<Handle>>, h: Handle, ghost i: nat, ghost j: nat)
      returns (ghost newChains': seq<seq<Handle>>)
      requires i < |chains| == list.Length && newList != list && j < |chains[i]| && h == chains[i][j] && h in Elems() && Placed(chains)
      requires Placed(newChains) && Buckets(Links(), newList[..], newChains) && All(newChains) == Moved(chains, i, j)
      requires UnmovedFrom(Links(), list[..], chains, i, j)
      modifies h`nextHash, newList
      ensures Placed(newChains') && Buckets(Links(), newList[..], newChains') && All(newChains') == Moved(chains, i, j + 1)
      ensures UnmovedFrom(Links(), list[..], chains, i, j + 1)
    {
      hide Buckets, Placed, Moved, UnmovedFrom, All, ChainOk, Spliced;
      ghost var links, slots := Links(), newList[..];
      SameLength(links, slots, newChains);
      var b := h.hash % newList.Length;
      MoveSplices(chains, newChains, i, j, b);
      h.nextHash := newList[b];
      newList[b] := h;
      newChains' := newChains[b := Spliced(newChains[b], 0, [h], 0)];
      SplicedPlaced(newChains, b, 0, [h], 0);
      SplicedAll(newChains, b, 0, [h], 0);
      MovedCovered(Links(), chains, i, j, newChains');
      SplicedBuckets(links, Links(), slots, newList[..], newChains, b, 0, [h], 0);
      UnmovedStep(links, Links(), list[..], chains, i, j);
    }

    /** Puts in the handle, in the place of one that matches if there is one. */
    method Insert(h: Handle) returns (old': Handle?)
      requires Valid() && h !in Elems()
      modifies this, list, Elems()`nextHash, h`nextHash
      ensures Valid() && (list == old(list) || fresh(list))
      ensures Elems() == old(Elems()) - (if old' == null then {} else {old'}) + {h}
      ensures old' != null ==> old' in old(Elems()) && Matches(old', h.key, h.hash)
      ensures old' == null ==> forall g :: g in old(Elems()) ==> !Matches(g, h.key, h.hash)
    {
      hide Buckets, Placed, ChainOk, Spliced, All, Matches;
      var b, before;
      ghost var j;
      b, before, old', j := FindPointer(h.key, h.hash);
      ghost var k := if old' == null then j else j + 1;
      InsertSplices(chains, b, j, k, h);
      HashLinkOrEnd(b, j);
      SplicedAll(chains, b, j, [h], k);
      Splice(b, before, j, h, if old' == null then null else old'.nextHash, k);
      CountAfter(old(Elems()), Elems(), old', h);
      if old' == null {
        elems := elems + 1;
        if elems > list.Length {
          Resize();
        }
      }
    }

    /** Takes out the matching handle, if there is one. */
    method Remove(key: Bytes, hash: nat) returns (r: Handle?)
      requires Valid()
      modifies this, list, Elems()`nextHash
      ensures Valid() && list == old(list) && Elems() == old(Elems()) - (if r == null then {} else {r})
      ensures r != null ==> r in old(Elems()) && Matches(r, key, hash)
      ensures r == null ==> forall g :: g in old(Elems()) ==> !Matches(g, key, hash)
    {
      hide Buckets, Placed, ChainOk, Spliced, All, Matches;
      var b, before;
      ghost var j;
      b, before, r, j := FindPointer(key, hash);
      NoOtherMatch(chains, b, j, key, hash);
      if r != null {
        RemoveSplices(chains, b, j);
        HashLinkOrEnd(b, j);
        SplicedAll(chains, b, j, [], j + 1);
        Splice(b, before, j, null, r.nextHash, j + 1);
        elems := elems - 1;
      }
    }

    lemma HashLinkOrEnd(b: nat, j: nat)
      requires Valid() && b < |chains| && j <= |chains[b]|
      ensures j < |chains[b]| ==> chains[b][j] in Elems() && chains[b][j].nextHash == At(chains[b], j + 1)
      ensures elems == |Elems()|
    {
      if j < |chains[b]| {
        HashLink(b, j);
      }
    }

    lemma LinksCover()
      ensures Covers(Links(), chains)
    {
    }
  }

  /** Where a search for the key of a new handle ends, the handle can go in. */
  lemma InsertSplices(chains: seq<seq<Handle>>, b: nat, j: nat, k: nat, h: Handle)
    requires Placed(chains) && b < |chains| && b == h.hash % |chains| && h !in All(chains) && j <= |chains[b]|
    requires forall i :: 0 <= i < j ==> !Matches(chains[b][i], h.key, h.hash)
    requires k == if j < |chains[b]| then j + 1 else j
    requires j < |chains[b]| ==> Matches(chains[b][j], h.key, h.hash)
    ensures CanSplice(chains[b], b, |chains|, j, [h], k) && (j < |chains[b]| ==> chains[b][j] in All(chains))
    ensures j == |chains[b]| ==> forall g :: g in All(chains) ==> !Matches(g, h.key, h.hash)
  {
    assert ChainOk(chains[b], b, |chains|);
    OwnBucket(chains, h);
    NoOtherMatch(chains, b, j, h.key, h.hash);
  }

  lemma RemoveSplices(chains: seq<seq<Handle>>, b: nat, j: nat)
    requires Placed(chains) && b < |chains| && j < |chains[b]|
    ensures CanSplice(chains[b], b, |chains|, j, [], j + 1)
  {
    assert ChainOk(chains[b], b, |chains|);
  }

  lemma CountAfter(before: set<Handle>, after: set<Handle>, out: Handle?, h: Handle)
    requires h !in before && after == before - (if out == null then {} else {out}) + {h} && (out != null ==> out in before)
    ensures |after| == |before| + if out == null then 1 else 0
  {
    if out != null {
      assert before - {out} + {h} == after;
    }
  }

  function Optional(h: Handle?): seq<Handle> {
    if h == null then [] else [h]
  }

  /** A search that ends with nothing has seen every handle that could match. */
  lemma NoOtherMatch(chains: seq<seq<Handle>>, b: nat, j: nat, key: Bytes, hash: nat)
    requires Placed(chains) && b < |chains| && b == hash % |chains| && j <= |chains[b]|
    requires forall k :: 0 <= k < j ==> !Matches(chains[b][k], key, hash)
    ensures j == |chains[b]| ==> forall h :: h in All(chains) ==> !Matches(h, key, hash)
    ensures j < |chains[b]| ==> chains[b][j] in All(chains)
  {
    forall h | h in All(chains) && Matches(h, key, hash)
      ensures h in chains[b]
    {
      OwnBucket(chains, h);
    }
    if j < |chains[b]| {
      InAll(chains, b, j);
    }
  }

  // ----- moving to new buckets

  /** The handles moved when the first `i` buckets and `j` handles of the next are. */
  ghost function Moved(chains: seq<seq<Handle>>, i: nat, j: nat): set<Handle>
    requires i <= |chains| && (i < |chains| ==> j <= |chains[i]|)
  {
    (set b, h | 0 <= b < i && h in chains[b] :: h) + if i < |chains| then set h | h in chains[i][..j] else {}
  }

  /** The others are still linked as they were. */
  ghost predicate UnmovedFrom(links: map<Handle, Handle?>, list: seq<Handle?>, chains: seq<seq<Handle>>, i: nat, j: nat) {
    && |list| == |chains| && i <= |chains|
    && (i < |chains| ==> j <= |chains[i]| && (j == 0 ==> list[i] == At(chains[i], 0)) && LinkedFrom(links, chains[i][j..]))
    && forall c :: i < c < |chains| ==> list[c] == At(chains[c], 0) && LinkedFrom(links, chains[c])
  }

  lemma NothingMoved(links: map<Handle, Handle?>, list: seq<Handle?>, newList: seq<Handle?>, chains: seq<seq<Handle>>, newChains: seq<seq<Handle>>)
    requires Buckets(links, list, chains) && Placed(chains) && |newList| == |newChains| > 0
    requires (forall b :: 0 <= b < |newList| ==> newList[b] == null) && forall b :: 0 <= b < |newChains| ==> newChains[b] == []
    ensures |chains| == |list| && Placed(newChains) && Buckets(links, newList, newChains)
    ensures All(newChains) == Moved(chains, 0, 0) && UnmovedFrom(links, list, chains, 0, 0)
  {
    assert chains[0][0..] == chains[0];
  }

  lemma AllMoved(chains: seq<seq<Handle>>)
    ensures Moved(chains, |chains|, 0) == All(chains)
  {
  }

  lemma UnmovedBegins(links: map<Handle, Handle?>, list: seq<Handle?>, chains: seq<seq<Handle>>, i: nat)
    requires UnmovedFrom(links, list, chains, i, 0) && i < |chains|
    ensures list[i] == At(chains[i], 0)
  {
  }

  lemma UnmovedNext(links: map<Handle, Handle?>, list: seq<Handle?>, chains: seq<seq<Handle>>, i: nat, j: nat)
    requires UnmovedFrom(links, list, chains, i, j) && i < |chains| && j < |chains[i]|
    ensures chains[i][j] in links && links[chains[i][j]] == At(chains[i], j + 1) && chains[i][j] in All(chains)
  {
    InAll(chains, i, j);
    assert chains[i][j..][0] == chains[i][j];
  }

  lemma BucketMoved(links: map<Handle, Handle?>, list: seq<Handle?>, chains: seq<seq<Handle>>, i: nat)
    requires i < |chains| && UnmovedFrom(links, list, chains, i, |chains[i]|)
    ensures UnmovedFrom(links, list, chains, i + 1, 0) && Moved(chains, i + 1, 0) == Moved(chains, i, |chains[i]|)
  {
    assert chains[i][..|chains[i]|] == chains[i];
    if i + 1 < |chains| {
      assert chains[i + 1][0..] == chains[i + 1] && chains[i + 1][..0] == [];
    }
  }

  lemma SameLength(links: map<Handle, Handle?>, list: seq<Handle?>, chains: seq<seq<Handle>>)
    requires Buckets(links, list, chains) && Placed(chains)
    ensures |list| == |chains| > 0 && forall b :: 0 <= b < |list| ==> list[b] == At(chains[b], 0)
  {
  }

  /** The next handle has not been moved yet, and fits at the front of its new bucket. */
  lemma MoveSplices(chains: seq<seq<Handle>>, newChains: seq<seq<Handle>>, i: nat, j: nat, b: nat)
    requires Placed(chains) && Placed(newChains) && i < |chains| && j < |chains[i]|
    requires All(newChains) == Moved(chains, i, j) && b == chains[i][j].hash % |newChains|
    ensures CanSplice(newChains[b], b, |newChains|, 0, [chains[i][j]], 0)
    ensures Moved(chains, i, j + 1) == Moved(chains, i, j) + {chains[i][j]}
  {
    var h := chains[i][j];
    assert ChainOk(newChains[b], b, |newChains|);
    InAll(chains, i, j);
    forall g | g in Moved(chains, i, j)
      ensures g in All(chains) && g != h
    {
      assert ChainOk(chains[i], i, |chains|);
      if g in chains[i][..j] {
        assert g in chains[i];
      } else {
        var c :| 0 <= c < i && g in chains[c];
        assert ChainOk(chains[c], c, |chains|);
      }
    }
    PlacedIsDistinct(chains);
    forall g | g in newChains[b]
      ensures g in All(newChains)
    {
    }
    assert chains[i][..j + 1] == chains[i][..j] + [h];
  }

  lemma MovedCovered(links: map<Handle, Handle?>, chains: seq<seq<Handle>>, i: nat, j: nat, newChains: seq<seq<Handle>>)
    requires links.Keys == All(chains) && i < |chains| && j < |chains[i]|
    requires All(newChains) == Moved(chains, i, j + 1)
    ensures Covers(links, newChains)
  {
    forall b: nat, h | b < |newChains| && h in newChains[b]
      ensures h in links
    {
      assert h in All(newChains);
      if h in chains[i][..j + 1] {
        assert h in chains[i];
      }
    }
  }

  /** Changing the link of the handle just moved leaves the rest as it was. */
  lemma UnmovedStep(links: map<Handle, Handle?>, links': map<Handle, Handle?>, list: seq<Handle?>, chains: seq<seq<Handle>>, i: nat, j: nat)
    requires UnmovedFrom(links, list, chains, i, j) && Placed(chains) && i < |chains| && j < |chains[i]|
    requires links'.Keys == links.Keys && forall g :: g in links && g != chains[i][j] ==> links'[g] == links[g]
    ensures UnmovedFrom(links', list, chains, i, j + 1)
  {
    assert ChainOk(chains[i], i, |chains|);
    var rest, next := chains[i][j..], chains[i][j + 1..];
    forall k: nat | k < |next|
      ensures next[k] in links' && links'[next[k]] == At(next, k + 1)
    {
      assert rest[k + 1] == next[k] == chains[i][j + 1 + k];
    }
    forall c | i < c < |chains|
      ensures LinkedFrom(links', chains[c])
    {
      assert ChainOk(chains[c], c, |chains|);
      forall k: nat | k < |chains[c]|
        ensures chains[c][k] in links' && links'[chains[c][k]] == At(chains[c], k + 1)
      {
        assert chains[c][k] in chains[c] && chains[i][j] in chains[i];
      }
    }
  }

  // ----- replacing a stretch of a chain

  /** `chain` with the handles from place `j` up to place `k` replaced. */
  function Spliced(chain: seq<Handle>, j: nat, mid: seq<Handle>, k: nat): seq<Handle>
    requires j <= k <= |chain|
  {
    chain[..j] + mid + chain[k..]
  }

  lemma SplicedAt(chain: seq<Handle>, j: nat, mid: seq<Handle>, k: nat, i: nat)
    requires j <= k <= |chain|
    ensures |Spliced(chain, j, mid, k)| == j + |mid| + |chain| - k
    ensures i < |Spliced(chain, j, mid, k)| ==>
              Spliced(chain, j, mid, k)[i] == if i < j then chain[i] else if i < j + |mid| then mid[i - j] else chain[i - j - |mid| + k]
  {
  }

  lemma SplicedHolds(chain: seq<Handle>, j: nat, mid: seq<Handle>, k: nat, h: Handle)
    requires j <= k <= |chain|
    ensures h in Spliced(chain, j, mid, k) <==> h in mid || h in chain[..j] || h in chain[k..]
  {
  }

  /** At most one new handle takes the place of part of bucket `b`, and matches nothing that stays. */
  ghost predicate CanSplice(chain: seq<Handle>, b: nat, n: nat, j: nat, mid: seq<Handle>, k: nat) {
    && n > 0 && ChainOk(chain, b, n) && j <= k <= |chain| && |mid| <= 1
    && (forall h :: h in mid ==> h.hash % n == b && h !in chain)
    && forall h, i :: h in mid && 0 <= i < |chain| && !(j <= i < k) ==> !Matches(chain[i], h.key, h.hash)
  }

  lemma SplicedOk(chain: seq<Handle>, b: nat, n: nat, j: nat, mid: seq<Handle>, k: nat)
    requires CanSplice(chain, b, n, j, mid, k)
    ensures ChainOk(Spliced(chain, j, mid, k), b, n)
  {
    var after := Spliced(chain, j, mid, k);
    forall h | h in after
      ensures h.hash % n == b
    {
      SplicedHolds(chain, j, mid, k, h);
    }
    forall i, l | 0 <= i < l < |after|
      ensures after[i] != after[l] && !Matches(after[i], after[l].key, after[l].hash)
    {
      SplicedAt(chain, j, mid, k, i);
      SplicedAt(chain, j, mid, k, l);
      assert mid != [] ==> mid[0] in mid;
      assert i < j ==> chain[i] in chain;
      assert l >= j + |mid| ==> chain[l - j - |mid| + k] in chain;
    }
  }

  lemma SplicedPlaced(chains: seq<seq<Handle>>, b: nat, j: nat, mid: seq<Handle>, k: nat)
    requires Placed(chains) && b < |chains| && CanSplice(chains[b], b, |chains|, j, mid, k)
    ensures Placed(chains[b := Spliced(chains[b], j, mid, k)])
  {
    var chains' := chains[b := Spliced(chains[b], j, mid, k)];
    SplicedOk(chains[b], b, |chains|, j, mid, k);
    forall c: nat | c < |chains'|
      ensures ChainOk(chains'[c], c, |chains'|)
    {
      assert ChainOk(chains[c], c, |chains|);
    }
  }

  /** What a splice does to the stored handles. */
  lemma SplicedAll(chains: seq<seq<Handle>>, b: nat, j: nat, mid: seq<Handle>, k: nat)
    requires Placed(chains) && b < |chains| && CanSplice(chains[b], b, |chains|, j, mid, k) && k <= j + 1
    ensures All(chains[b := Spliced(chains[b], j, mid, k)])
         == All(chains) - (if j < k then {chains[b][j]} else {}) + (if mid == [] then {} else {mid[0]})
  {
    var chain := chains[b];
    var chains' := chains[b := Spliced(chain, j, mid, k)];
    SplicedPlaced(chains, b, j, mid, k);
    assert ChainOk(chain, b, |chains|);
    forall h: Handle
      ensures h in All(chains') <==> (h in All(chains) && !(j < k && h == chain[j])) || (mid != [] && h == mid[0])
    {
      OwnBucket(chains, h);
      OwnBucket(chains', h);
      SplicedHolds(chain, j, mid, k, h);
      InParts(chain, b, |chains|, j, k, h);
    }
  }

  lemma InParts(chain: seq<Handle>, b: nat, n: nat, j: nat, k: nat, h: Handle)
    requires n > 0 && ChainOk(chain, b, n) && j <= k <= |chain| && k <= j + 1
    ensures h in chain[..j] || h in chain[k..] <==> h in chain && !(j < k && h == chain[j])
    ensures j < k ==> chain[j] in chain
  {
    if j < k {
      assert chain == chain[..j] + [chain[j]] + chain[k..];
    } else {
      assert chain == chain[..j] + chain[j..];
    }
  }

  /** The links and slots after a splice: the slot before place `j` leads to what follows. */
  ghost predicate SpliceStored(links: map<Handle, Handle?>, links': map<Handle, Handle?>, list: seq<Handle?>, list': seq<Handle?>,
                               chains: seq<seq<Handle>>, b: nat, j: nat, mid: seq<Handle>, k: nat)
    requires b < |chains| && j <= k <= |chains[b]|
  {
    var target := At(mid + chains[b][k..], 0);
    && |list| == |chains|
    && (list' == if j == 0 then list[b := target] else list)
    && (forall h :: h in mid ==> h in links' && links'[h] == At(chains[b], k))
    && (forall h :: h in links && h in links' && h !in mid && !(j > 0 && h == chains[b][j - 1]) ==> links'[h] == links[h])
    && (j > 0 ==> chains[b][j - 1] in links' && links'[chains[b][j - 1]] == target)
  }

  ghost predicate Covers(links: map<Handle, Handle?>, chains: seq<seq<Handle>>) {
    forall b: nat, h :: b < |chains| && h in chains[b] ==> h in links
  }

  lemma SplicedBuckets(links: map<Handle, Handle?>, links': map<Handle, Handle?>, list: seq<Handle?>, list': seq<Handle?>,
                       chains: seq<seq<Handle>>, b: nat, j: nat, mid: seq<Handle>, k: nat)
    requires Placed(chains) && b < |chains| && CanSplice(chains[b], b, |chains|, j, mid, k) && Buckets(links, list, chains)
    requires SpliceStored(links, links', list, list', chains, b, j, mid, k)
    requires Covers(links', chains[b := Spliced(chains[b], j, mid, k)])
    ensures Buckets(links', list', chains[b := Spliced(chains[b], j, mid, k)])
  {
    hide Spliced;
    var chains' := chains[b := Spliced(chains[b], j, mid, k)];
    forall c: nat | c < |chains|
      ensures list'[c] == At(chains'[c], 0) && LinkedFrom(links', chains'[c])
    {
      assert LinkedFrom(links, chains[c]);
      assert ChainOk(chains[c], c, |chains|);
      if c != b {
        assert chains'[c] == chains[c];
        OtherBucket(links, links', chains, b, c, j, mid, k);
      } else {
        forall h | h in chains'[b]
          ensures h in links'
        {
        }
        SplicedLinks(links, links', chains[b], j, mid, k);
        SplicedAt(chains[b], j, mid, k, 0);
      }
    }
  }

  lemma OtherBucket(links: map<Handle, Handle?>, links': map<Handle, Handle?>, chains: seq<seq<Handle>>, b: nat, c: nat,
                    j: nat, mid: seq<Handle>, k: nat)
    requires Placed(chains) && b < |chains| && CanSplice(chains[b], b, |chains|, j, mid, k) && c < |chains| && c != b
    requires LinkedFrom(links, chains[c]) && forall h :: h in chains[c] ==> h in links'
    requires forall h :: h in links && h in links' && h !in mid && !(j > 0 && h == chains[b][j - 1]) ==> links'[h] == links[h]
    ensures LinkedFrom(links', chains[c])
  {
    assert ChainOk(chains[c], c, |chains|);
    forall i: nat | i < |chains[c]|
      ensures chains[c][i] in links' && links'[chains[c][i]] == At(chains[c], i + 1)
    {
      assert chains[c][i] in chains[c];
      assert j > 0 ==> chains[b][j - 1] in chains[b];
    }
  }

  lemma SplicedLinks(links: map<Handle, Handle?>, links': map<Handle, Handle?>, chain: seq<Handle>, j: nat, mid: seq<Handle>, k: nat)
    requires LinkedFrom(links, chain) && j <= k <= |chain| && |mid| <= 1
    requires (forall a, c :: 0 <= a < c < |chain| ==> chain[a] != chain[c]) && forall h :: h in mid ==> h !in chain
    requires forall h :: h in Spliced(chain, j, mid, k) ==> h in links'
    requires forall h :: h in mid ==> h in links' && links'[h] == At(chain, k)
    requires forall h :: h in links && h in links' && h !in mid && !(j > 0 && h == chain[j - 1]) ==> links'[h] == links[h]
    requires j > 0 ==> chain[j - 1] in links' && links'[chain[j - 1]] == At(mid + chain[k..], 0)
    ensures LinkedFrom(links', Spliced(chain, j, mid, k))
  {
    hide Spliced, LinkedFrom;
    var after := Spliced(chain, j, mid, k);
    forall i: nat | i < |after|
      ensures after[i] in links' && links'[after[i]] == At(after, i + 1)
    {
      assert after[i] in after;
      SplicedLink(links, links', chain, j, mid, k, i);
    }
    MakeLinked(links', after);
  }

  /** One link of the spliced chain: of a handle before the splice, in it, or after it. */
  lemma SplicedLink(links: map<Handle, Handle?>, links': map<Handle, Handle?>, chain: seq<Handle>, j: nat, mid: seq<Handle>, k: nat, i: nat)
    requires LinkedFrom(links, chain) && j <= k <= |chain| && |mid| <= 1 && i < |Spliced(chain, j, mid, k)|
    requires (forall a, c :: 0 <= a < c < |chain| ==> chain[a] != chain[c]) && forall h :: h in mid ==> h !in chain
    requires Spliced(chain, j, mid, k)[i] in links'
    requires forall h :: h in mid ==> h in links' && links'[h] == At(chain, k)
    requires forall h :: h in links && h in links' && h !in mid && !(j > 0 && h == chain[j - 1]) ==> links'[h] == links[h]
    requires j > 0 ==> chain[j - 1] in links' && links'[chain[j - 1]] == At(mid + chain[k..], 0)
    ensures links'[Spliced(chain, j, mid, k)[i]] == At(Spliced(chain, j, mid, k), i + 1)
  {
    hide Spliced, LinkedFrom;
    SplicedAt(chain, j, mid, k, i);
    SplicedAt(chain, j, mid, k, i + 1);
    FirstOf(chain, k);
    if i < j {
      LinkAt(links, chain, i);
    } else if i < j + |mid| {
      assert mid[i - j] in mid;
    } else {
      LinkAt(links, chain, i - j - |mid| + k);
    }
  }

  lemma LinkAt(links: map<Handle, Handle?>, chain: seq<Handle>, i: nat)
    requires LinkedFrom(links, chain) && i < |chain|
    ensures chain[i] in chain && chain[i] in links && links[chain[i]] == At(chain, i + 1)
  {
  }

  lemma MakeLinked(links: map<Handle, Handle?>, chain: seq<Handle>)
    requires forall i: nat :: i < |chain| ==> chain[i] in links && links[chain[i]] == At(chain, i + 1)
    ensures LinkedFrom(links, chain)
  {
  }

  lemma FirstOf(chain: seq<Handle>, k: nat)
    requires k <= |chain|
    ensures At(chain[k..], 0) == At(chain, k)
  {
  }
}
