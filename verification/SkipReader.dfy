/** Searches of the skip list that other threads insert into meanwhile: loads of one
    reader and stores of a writer, in any order (`db/skiplist.h`). */
module SkipReader {
  import opened Keys
  import opened SkipList

  /** A search goes on before a key, or, for the last node, as long as it can. */
  datatype Target = Key(key: IKey) | End

  /** Where a search stands, or where it ended: at a node, and with what came next there. */
  datatype Reader = At(x: Node, level: nat) | Done(x: Node, next: Node?)

  predicate GoesOn(t: Target, n: Node?) {
    if t.Key? then KeyIsAfterNode(t.key, n) else n != null
  }

  /** Where a linear search ends. */
  function Stop(nodes: seq<Node>, t: Target): (c: nat)
    ensures c <= |nodes|
  {
    if t.Key? then Cut(nodes, t.key) else |nodes|
  }

  /** The search begins at the head, on the highest level in use at that moment. */
  ghost predicate Starts(head: Node, v: View, r: Reader) {
    r.At? && r.x == head && r.level + 1 == v.maxHeight
  }

  /** One load of FindGreaterOrEqual, FindLessThan or FindLast, and what it does with it. */
  ghost predicate Load(v: View, t: Target, r: Reader, r': Reader) {
    && r.At? && r.x in v.links && r.level < |v.links[r.x]|
    && var next := v.links[r.x][r.level];
       r' == if GoesOn(t, next) then At(next, r.level) else if r.level == 0 then Done(r.x, next) else At(r.x, r.level - 1)
  }

  ghost predicate Step(head: Node, t: Target, v: View, r: Reader, v': View, r': Reader) {
    (Store(head, v, v') && r' == r) || (v' == v && Load(v, t, r, r'))
  }

  ghost predicate Run(head: Node, t: Target, vs: seq<View>, rs: seq<Reader>) {
    && |vs| == |rs| > 0 && ViewOk(head, vs[0]) && Starts(head, vs[0], rs[0])
    && forall i: nat :: i + 1 < |vs| ==> Step(head, t, vs[i], rs[i], vs[i + 1], rs[i + 1])
  }

  /** A search stands well: at the head, or at a node of its level it went on to. */
  ghost predicate StandsWell(head: Node, t: Target, v: View, r: Reader) {
    r.At? ==> r.level < |v.lists| && (r.x == head || (r.x in v.lists[r.level] && GoesOn(t, r.x)))
  }

  lemma LinkOf(head: Node, v: View, x: Node, l: nat) returns (i: nat)
    requires ViewOk(head, v) && l < MAX_HEIGHT && (x == head || x in v.lists[l])
    ensures i <= |v.lists[l]| && x == LeftOf(head, v.lists[l], i)
    ensures x in v.links && l < |v.links[x]| && v.links[x][l] == RightOf(v.lists[l], i)
  {
    if x == head {
      i := 0;
    } else {
      var k :| 0 <= k < |v.lists[l]| && v.lists[l][k] == x;
      i := k + 1;
    }
    assert Linked(v.links, head, v.lists[l], l);
    assert LinkAt(v.links, head, v.lists[l], l, i);
  }

  /** A store leaves a search standing well, and a load moves it so; a load that ends
      the search does so where a search of the bottom level ends at that moment. */
  lemma StepStandsWell(head: Node, t: Target, v: View, r: Reader, v': View, r': Reader)
    requires ViewOk(head, v) && StandsWell(head, t, v, r) && Step(head, t, v, r, v', r')
    ensures ViewOk(head, v') && StandsWell(head, t, v', r')
    ensures r.At? && r'.Done? ==> EndsAt(head, t, v, r')
  {
    if v' == v && Load(v, t, r, r') {
      var i := LinkOf(head, v, r.x, r.level);
      if r'.Done? && t.Key? {
        CutIs(v.lists[0], t.key, i);
      }
    }
  }

  /** The search ended between the node before the stop of the bottom level and the one at it. */
  ghost predicate EndsAt(head: Node, t: Target, v: View, r: Reader) {
    && r.Done? && |v.lists| > 0
    && var c := Stop(v.lists[0], t);
       r.x == LeftOf(head, v.lists[0], c) && r.next == RightOf(v.lists[0], c)
  }

  /** A search that is not done can always go on. */
  lemma CanLoad(head: Node, t: Target, v: View, r: Reader) returns (r': Reader)
    requires ViewOk(head, v) && StandsWell(head, t, v, r) && r.At?
    ensures Load(v, t, r, r')
  {
    var i := LinkOf(head, v, r.x, r.level);
    var next := v.links[r.x][r.level];
    r' := if GoesOn(t, next) then At(next, r.level) else if r.level == 0 then Done(r.x, next) else At(r.x, r.level - 1);
  }

  lemma {:induction false} RunStandsWell(head: Node, t: Target, vs: seq<View>, rs: seq<Reader>, i: nat)
    requires Run(head, t, vs, rs) && i < |vs|
    ensures ViewOk(head, vs[i]) && StandsWell(head, t, vs[i], rs[i])
  {
    if i > 0 {
      RunStandsWell(head, t, vs, rs, i - 1);
      StepStandsWell(head, t, vs[i - 1], rs[i - 1], vs[i], rs[i]);
    }
  }

  /** No node ever leaves a level. */
  lemma {:induction false} NodesStay(head: Node, t: Target, vs: seq<View>, rs: seq<Reader>, i: nat, j: nat)
    requires Run(head, t, vs, rs) && i <= j < |vs|
    ensures ViewOk(head, vs[i]) && ViewOk(head, vs[j])
    ensures forall l, n :: 0 <= l < MAX_HEIGHT && n in vs[i].lists[l] ==> n in vs[j].lists[l]
    decreases j
  {
    RunStandsWell(head, t, vs, rs, j);
    if i < j {
      NodesStay(head, t, vs, rs, i, j - 1);
      assert Step(head, t, vs[j - 1], rs[j - 1], vs[j], rs[j]);
    }
  }

  /** However many stores come between its loads, a search ends where a linear search
      ends in the list of the moment of its last load. */
  lemma SearchIsLinear(head: Node, t: Target, vs: seq<View>, rs: seq<Reader>, i: nat)
    requires Run(head, t, vs, rs) && i + 1 < |vs| && rs[i].At? && rs[i + 1].Done?
    ensures ViewOk(head, vs[i]) && EndsAt(head, t, vs[i], rs[i + 1])
  {
    RunStandsWell(head, t, vs, rs, i);
    StepStandsWell(head, t, vs[i], rs[i], vs[i + 1], rs[i + 1]);
  }

  /** Nothing that was in the list when a search for a key began is passed over. */
  lemma NothingIsMissed(head: Node, key: IKey, vs: seq<View>, rs: seq<Reader>, i: nat, n: Node)
    requires Run(head, Key(key), vs, rs) && i + 1 < |vs| && rs[i].At? && rs[i + 1].Done?
    requires |vs[0].lists| > 0 && n in vs[0].lists[0] && !Before(n.entry.key, key)
    ensures rs[i + 1].next != null && AtOrBefore(rs[i + 1].next.entry.key, n.entry.key)
    ensures n.entry.key == key ==> rs[i + 1].next.entry.key == key
  {
    SearchIsLinear(head, Key(key), vs, rs, i);
    NodesStay(head, Key(key), vs, rs, 0, i);
    var nodes := vs[i].lists[0];
    var k :| 0 <= k < |nodes| && nodes[k] == n;
    var c := Cut(nodes, key);
    if c < k {
      assert Before(EntriesOf(nodes)[c].key, EntriesOf(nodes)[k].key);
    }
    OrderIsTotal(nodes[c].entry.key, key);
  }

  lemma NotBeforeCut(nodes: seq<Node>, key: IKey, k: nat)
    requires Sorted(EntriesOf(nodes)) && Cut(nodes, key) <= k < |nodes|
    ensures !Before(nodes[k].entry.key, key)
  {
    var c := Cut(nodes, key);
    if c < k {
      assert Before(EntriesOf(nodes)[c].key, EntriesOf(nodes)[k].key);
    }
  }

  /** Nor when one for the node before a key, or for the last node, began: it ends at a
      node at or after any that was there and before the target. */
  lemma NothingIsLeftBehind(head: Node, t: Target, vs: seq<View>, rs: seq<Reader>, i: nat, n: Node)
    requires Run(head, t, vs, rs) && i + 1 < |vs| && rs[i].At? && rs[i + 1].Done?
    requires |vs[0].lists| > 0 && n in vs[0].lists[0] && GoesOn(t, n)
    ensures rs[i + 1].x != head && GoesOn(t, rs[i + 1].x) && AtOrBefore(n.entry.key, rs[i + 1].x.entry.key)
  {
    SearchIsLinear(head, t, vs, rs, i);
    NodesStay(head, t, vs, rs, 0, i);
    var nodes := vs[i].lists[0];
    var k :| 0 <= k < |nodes| && nodes[k] == n;
    var c := Stop(nodes, t);
    if t.Key? && c <= k {
      NotBeforeCut(nodes, t.key, k);
    }
    if k < c - 1 {
      assert Before(EntriesOf(nodes)[k].key, EntriesOf(nodes)[c - 1].key);
    }
  }
}
