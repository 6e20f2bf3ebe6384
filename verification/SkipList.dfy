/** The skip list under the memtable (`db/skiplist.h`). Every level is a sorted
    linked list whose nodes are also on the level below; the multi-level searches
    find what a search of the bottom level finds; and this stays so after each
    single pointer store of an insertion. */
module SkipList {
  import opened Keys

  const MAX_HEIGHT: nat := 12

  class Node {
    const entry: Entry
    var next: seq<Node?>

    constructor (entry: Entry, height: nat)
      ensures this.entry == entry && |next| == height
    {
      this.entry := entry;
      next := seq(height, _ => null);
    }
  }

  predicate KeyIsAfterNode(key: IKey, n: Node?) {
    n != null && Before(n.entry.key, key)
  }

  function EntriesOf(nodes: seq<Node>): (es: seq<Entry>)
    ensures |es| == |nodes| && forall i :: 0 <= i < |nodes| ==> es[i] == nodes[i].entry
  {
    seq(|nodes|, i requires 0 <= i < |nodes| => nodes[i].entry)
  }

  /** How many of the nodes come before `key`. */
  function Cut(nodes: seq<Node>, key: IKey): (c: nat)
    ensures c <= |nodes|
    ensures forall i :: 0 <= i < c ==> Before(nodes[i].entry.key, key)
    ensures c < |nodes| ==> !Before(nodes[c].entry.key, key)
  {
    SeekIndex(EntriesOf(nodes), key)
  }

  /** A count that splits sorted nodes at the key is the cut. */
  lemma CutIs(nodes: seq<Node>, key: IKey, c: nat)
    requires Sorted(EntriesOf(nodes)) && c <= |nodes|
    requires c > 0 ==> Before(nodes[c - 1].entry.key, key)
    requires c < |nodes| ==> !Before(nodes[c].entry.key, key)
    ensures Cut(nodes, key) == c
  {
    var es := EntriesOf(nodes);
    forall k | 0 <= k < c
      ensures Before(nodes[k].entry.key, key)
    {
      if k < c - 1 {
        assert Before(es[k].key, es[c - 1].key);
      }
    }
  }

  ghost function LeftOf(head: Node, nodes: seq<Node>, i: nat): Node
    requires i <= |nodes|
  {
    if i == 0 then head else nodes[i - 1]
  }

  ghost function RightOf(nodes: seq<Node>, i: nat): Node?
    requires i <= |nodes|
  {
    if i < |nodes| then nodes[i] else null
  }

  /** The link of the node before place `i` leads to place `i`. */
  ghost predicate LinkAt(links: map<Node, seq<Node?>>, head: Node, nodes: seq<Node>, l: nat, i: nat)
    requires i <= |nodes|
  {
    var n := LeftOf(head, nodes, i);
    n in links && l < |links[n]| && links[n][l] == RightOf(nodes, i)
  }

  /** The links of level `l` run through its nodes. */
  ghost predicate Linked(links: map<Node, seq<Node?>>, head: Node, nodes: seq<Node>, l: nat) {
    forall i: nat {:trigger LinkAt(links, head, nodes, l, i)} :: i <= |nodes| ==> LinkAt(links, head, nodes, l, i)
  }

  ghost predicate AllLinked(links: map<Node, seq<Node?>>, head: Node, lists: seq<seq<Node>>) {
    forall l: nat {:trigger Linked(links, head, lists[l], l)} :: l < |lists| ==> Linked(links, head, lists[l], l)
  }

  /** Every level is sorted, and its nodes are also on the levels below it. */
  ghost predicate Levels(lists: seq<seq<Node>>, maxHeight: nat) {
    && |lists| == MAX_HEIGHT && 1 <= maxHeight <= MAX_HEIGHT
    && (forall k, l, n :: 0 <= k < l < MAX_HEIGHT && n in lists[l] ==> n in lists[k])
    && (forall l :: 0 <= l < MAX_HEIGHT ==> Sorted(EntriesOf(lists[l])))
    && (forall l :: maxHeight <= l < MAX_HEIGHT ==> lists[l] == [])
  }

  /** The node goes to a place where the level stays sorted. */
  ghost predicate Fits(lists: seq<seq<Node>>, maxHeight: nat, x: Node, l: nat, c: nat) {
    && Levels(lists, maxHeight) && l < maxHeight && c <= |lists[l]| && x !in lists[l]
    && (forall k :: 0 <= k < l ==> x in lists[k]) && (forall k :: l < k < MAX_HEIGHT ==> x !in lists[k])
    && Sorted(EntriesOf(WithNode(lists[l], c, x)))
  }

  lemma LevelsGrow(lists: seq<seq<Node>>, maxHeight: nat, x: Node, l: nat, c: nat)
    requires Fits(lists, maxHeight, x, l, c)
    ensures Levels(lists[l := WithNode(lists[l], c, x)], maxHeight)
  {
    forall n
      ensures n in WithNode(lists[l], c, x) <==> n in lists[l] || n == x
    {
      WithNodeHolds(lists[l], c, x, n);
    }
  }

  lemma WithNodeHolds(nodes: seq<Node>, c: nat, x: Node, n: Node)
    requires c <= |nodes|
    ensures n in WithNode(nodes, c, x) <==> n in nodes || n == x
  {
    assert nodes == nodes[..c] + nodes[c..];
  }

  /** What a reader can load. */
  datatype View = View(links: map<Node, seq<Node?>>, lists: seq<seq<Node>>, maxHeight: nat)

  ghost predicate ViewOk(head: Node, v: View) {
    Levels(v.lists, v.maxHeight) && head !in v.lists[0] && AllLinked(v.links, head, v.lists)
  }

  /** A store of a writer: the list stays right, and no node leaves a level. */
  ghost predicate Store(head: Node, v: View, v': View) {
    && ViewOk(head, v) && ViewOk(head, v') && v.maxHeight <= v'.maxHeight
    && forall l, n :: 0 <= l < MAX_HEIGHT && n in v.lists[l] ==> n in v'.lists[l]
  }

  class SkipList {
    const head: Node
    var maxHeight: nat
    ghost var lists: seq<seq<Node>>    // the nodes on each level, in order

    ghost function Nodes(): set<Node>
      reads this
    {
      if lists == [] then {} else set n | n in lists[0]
    }

    /** The node whose link leads to place `i` of level `l`. */
    ghost function Left(l: nat, i: nat): Node
      requires l < |lists| && i <= |lists[l]|
      reads this
    {
      LeftOf(head, lists[l], i)
    }

    /** The node at place `i`, or null past the end. */
    ghost function Right(l: nat, i: nat): Node?
      requires l < |lists| && i <= |lists[l]|
      reads this
    {
      RightOf(lists[l], i)
    }

    /** All links there are. */
    ghost function Links(): map<Node, seq<Node?>>
      reads this, head, Nodes()
    {
      map n: Node | n in Nodes() + {head} :: n.next
    }

    ghost predicate Valid()
      reads this, head, Nodes()
    {
      Levels(lists, maxHeight) && head !in Nodes() && AllLinked(Links(), head, lists)
    }

    ghost function Loads(): View
      reads this, head, Nodes()
    {
      View(Links(), lists, maxHeight)
    }

    /** The entries, in order. */
    ghost function Contents(): seq<Entry>
      requires lists != []
      reads this
    {
      EntriesOf(lists[0])
    }

    constructor ()
      ensures Valid() && Contents() == [] && fresh(head)
    {
      var e := Entry(SeekKey(0.0, 0), []);    // any key will do
      var h := new Node(e, MAX_HEIGHT);
      head := h;
      maxHeight := 1;
      lists := seq(MAX_HEIGHT, _ => []);
      new;
      var i := 0;
      while i < MAX_HEIGHT
        invariant 0 <= i <= MAX_HEIGHT && |head.next| == MAX_HEIGHT
        invariant forall l :: 0 <= l < i ==> head.next[l] == null
        invariant lists == seq(MAX_HEIGHT, _ => []) && maxHeight == 1
        modifies head
      {
        head.next := head.next[i := null];
        i := i + 1;
      }
    }

    // ----- searching

    /** Where a search for `key` may stand on level `l`: at the head, or at a node before the key. */
    ghost predicate SearchAt(x: Node, l: nat, key: IKey)
      requires l < |lists|
      reads this
    {
      x == head || (x in lists[l] && Before(x.entry.key, key))
    }

    lemma Link(l: nat, i: nat)
      requires Valid() && l < MAX_HEIGHT && i <= |lists[l]|
      ensures l < |Left(l, i).next| && Left(l, i).next[l] == Right(l, i)
    {
      assert Linked(Links(), head, lists[l], l);
      assert LinkAt(Links(), head, lists[l], l, i);
    }

    /** The place just after a node that is also on level `l`. */
    lemma PlaceAfter(x: Node, l: nat) returns (i: nat)
      requires Valid() && l < MAX_HEIGHT && (x == head || x in lists[l])
      ensures i <= |lists[l]| && Left(l, i) == x
    {
      if x == head {
        i := 0;
      } else {
        var k :| 0 <= k < |lists[l]| && lists[l][k] == x;
        i := k + 1;
      }
    }

    /** A search that has gone as far as it can on a level stands just before the cut. */
    lemma StopsAtCut(x: Node, l: nat, key: IKey, i: nat)
      requires Valid() && l < MAX_HEIGHT && SearchAt(x, l, key) && i <= |lists[l]| && Left(l, i) == x
      requires i < |lists[l]| ==> !Before(lists[l][i].entry.key, key)
      ensures i == Cut(lists[l], key)
    {
      assert i > 0 ==> lists[l][i - 1] == x && x in Nodes();
      CutIs(lists[l], key, i);
    }

    /** One load of a search. It needs the list to be valid only at that moment: if
        the search goes on, it stands well again; if it has gone as far as it can,
        it stands just before the cut. */
    method SearchStep(x: Node, level: nat, key: IKey, ghost i: nat) returns (next: Node?, goesOn: bool)
      requires Valid() && level < MAX_HEIGHT && SearchAt(x, level, key) && i <= |lists[level]| && Left(level, i) == x
      ensures goesOn <==> KeyIsAfterNode(key, next)
      ensures goesOn ==> i < |lists[level]| && next == Left(level, i + 1) && SearchAt(next, level, key)
      ensures !goesOn ==> i == Cut(lists[level], key) && next == Right(level, i)
      ensures !goesOn && level > 0 ==> SearchAt(x, level - 1, key)
    {
      Link(level, i);
      next := x.next[level];
      goesOn := KeyIsAfterNode(key, next);
      if !goesOn {
        StopsAtCut(x, level, key, i);
      }
    }

    /** The first node at or after `key`, and the nodes to its left on all levels in use. */
    method FindGreaterOrEqual(key: IKey) returns (r: Node?, prev: seq<Node>)
      requires Valid()
      ensures r == Right(0, Cut(lists[0], key)) && |prev| == MAX_HEIGHT
      ensures forall l :: 0 <= l < maxHeight ==> prev[l] == Left(l, Cut(lists[l], key))
    {
      prev := seq(MAX_HEIGHT, _ => head);
      var x: Node := head;
      var level := maxHeight - 1;
      ghost var i: nat := 0;
      while true
        invariant 0 <= level < maxHeight && |prev| == MAX_HEIGHT && SearchAt(x, level, key)
        invariant i <= |lists[level]| && Left(level, i) == x
        invariant forall l :: level < l < maxHeight ==> prev[l] == Left(l, Cut(lists[l], key))
        decreases level, |lists[level]| - i
      {
        var next, goesOn := SearchStep(x, level, key, i);
        if goesOn {
          x := next;
          i := i + 1;
        } else {
          prev := prev[level := x];
          if level == 0 {
            return next, prev;
          }
          level := level - 1;
          i := PlaceAfter(x, level);
        }
      }
    }

    /** The last node before `key`, or the head. */
    method FindLessThan(key: IKey) returns (x: Node)
      requires Valid()
      ensures x == Left(0, Cut(lists[0], key))
    {
      x := head;
      var level := maxHeight - 1;
      ghost var i: nat := 0;
      while true
        invariant 0 <= level < maxHeight && SearchAt(x, level, key)
        invariant i <= |lists[level]| && Left(level, i) == x
        decreases level, |lists[level]| - i
      {
        Link(level, i);
        var next := x.next[level];
        if next == null || !Before(next.entry.key, key) {
          StopsAtCut(x, level, key, i);
          if level == 0 {
            return;
          }
          level := level - 1;
          i := PlaceAfter(x, level);
        } else {
          x := next;
          i := i + 1;
        }
      }
    }

    /** The last node, or the head. */
    method FindLast() returns (x: Node)
      requires Valid()
      ensures x == Left(0, |lists[0]|)
    {
      x := head;
      var level := maxHeight - 1;
      ghost var i: nat := 0;
      while true
        invariant 0 <= level < maxHeight && i <= |lists[level]| && Left(level, i) == x
        decreases level, |lists[level]| - i
      {
        Link(level, i);
        var next := x.next[level];
        if next == null {
          if level == 0 {
            return;
          }
          level := level - 1;
          i := PlaceAfter(x, level);
        } else {
          x := next;
          i := i + 1;
        }
      }
    }

    method Contains(key: IKey) returns (b: bool)
      requires Valid()
      ensures b <==> exists e :: e in Contents() && e.key == key
    {
      var x, prev := FindGreaterOrEqual(key);
      b := x != null && x.entry.key == key;
      ghost var c := Cut(lists[0], key);
      if b {
        assert Contents()[c].key == key;
      } else {
        forall e | e in Contents()
          ensures e.key != key
        {
          var k :| 0 <= k < |Contents()| && Contents()[k] == e;
          OrderIsTotal(e.key, key);
          if c < k {
            assert Before(Contents()[c].key, Contents()[k].key);
          }
          if c <= k {
            OrderIsTotal(Contents()[c].key, key);
          }
        }
      }
    }

    // ----- inserting

    /** `x` is ready to be put on level `l` at place `c`, after `p`: it is on the
        levels below, and its own link already leads on. */
    ghost predicate CanPublish(p: Node, x: Node, l: nat, c: nat)
      reads this, head, Nodes(), p, x
    {
      && Valid() && Fits(lists, maxHeight, x, l, c) && p == Left(l, c) && x != head
      && |x.next| > l && |p.next| > l && x.next[l] == p.next[l]
    }

    /** SetNext: the one store that puts `x` on level `l`. */
    method Publish(p: Node, x: Node, l: nat, ghost c: nat)
      requires CanPublish(p, x, l, c)
      modifies this`lists, p
      ensures lists == old(lists)[l := WithNode(old(lists[l]), c, x)] && Valid()
      ensures Store(head, old(Loads()), Loads())
    {
      hide AllLinked, WithNode, Sorted;
      ghost var links := Links();
      LevelFacts(lists, maxHeight, head, l);
      LevelsGrow(lists, maxHeight, x, l, c);
      p.next := p.next[l := x];
      lists := lists[l := WithNode(lists[l], c, x)];
      NodesGrow(old(lists), l, c, x);
      StoreKeepsLinks(links, Links(), head, old(lists), maxHeight, p, x, l, c, x.next);
      forall n | n in old(lists[l])
        ensures n in lists[l]
      {
        WithNodeHolds(old(lists[l]), c, x, n);
      }
    }

    /** NoBarrier_SetNext: a link of `x` on a level where `x` is not yet. */
    method PrepareLink(p: Node, x: Node, l: nat)
      requires Valid() && l < MAX_HEIGHT && l < |x.next| && l < |p.next| && x != head
      requires forall k :: l <= k < MAX_HEIGHT ==> x !in lists[k]
      modifies x
      ensures Valid() && x.next == old(x.next)[l := old(p.next[l])]
      ensures Store(head, old(Loads()), Loads())
    {
      ghost var links := Links();
      x.next := x.next[l := p.next[l]];
      UnusedLinkIsFree(links, Links(), head, lists, x, l);
    }

    method RandomHeight(flip: nat -> bool) returns (height: nat)
      ensures 1 <= height <= 12 && (forall i :: 1 <= i < height ==> flip(i)) && (height < 12 ==> !flip(height))
    {
      height := 1;
      while height < MAX_HEIGHT && flip(height)
        invariant 1 <= height <= MAX_HEIGHT && forall i :: 1 <= i < height ==> flip(i)
      {
        height := height + 1;
      }
    }

    /** The levels that come into use are empty, and a reader that sees them drops through. */
    method RaiseHeight(prev: seq<Node>, height: nat, ghost key: IKey) returns (prev': seq<Node>)
      requires Valid() && maxHeight < height <= MAX_HEIGHT && |prev| == MAX_HEIGHT
      requires forall l :: 0 <= l < maxHeight ==> prev[l] == Left(l, Cut(lists[l], key))
      modifies this`maxHeight
      ensures Valid() && maxHeight == height && |prev'| == MAX_HEIGHT
      ensures Store(head, old(Loads()), Loads())
      ensures forall l :: 0 <= l < maxHeight ==> prev'[l] == Left(l, Cut(lists[l], key))
    {
      prev' := prev;
      for i := maxHeight to height
        invariant |prev'| == MAX_HEIGHT
        invariant forall l :: 0 <= l < i ==> prev'[l] == Left(l, Cut(lists[l], key))
      {
        prev' := prev'[i := head];
      }
      ghost var links := Links();
      maxHeight := height;
      assert Links() == links;
    }

    /** One turn of the loop of Insert: two stores put `x` on level `i`. */
    method PutOnLevel(p: Node, x: Node, i: nat, ghost before: seq<seq<Node>>)
      requires Valid() && InsertsAt(before, lists, maxHeight, x, i) && i < |x.next| && x != head
      requires p == LeftOf(head, before[i], Cut(before[i], x.entry.key))
      modifies this`lists, p, x
      ensures Valid() && Partly(before, lists, x, i + 1) && |x.next| == old(|x.next|)
    {
      PlaceFits(before, lists, maxHeight, x, i);
      Link(i, Cut(before[i], x.entry.key));
      PrepareLink(p, x, i);
      Publish(p, x, i, Cut(before[i], x.entry.key));
    }

    /** Insert: the node is put on its levels one store at a time, from the bottom
        up, and the list is valid after every store. */
    method Insert(e: Entry, flip: nat -> bool)
      requires Valid() && forall x :: x in Contents() ==> x.key != e.key
      modifies this, head, Nodes()
      ensures Valid() && Contents() == Inserted(old(Contents()), e)
      ensures fresh(Nodes() - old(Nodes()))
    {
      var r, prev := FindGreaterOrEqual(e.key);
      var height := RandomHeight(flip);
      if height > maxHeight {
        prev := RaiseHeight(prev, height, e.key);
      }
      NotYetIn(e.key);
      var x := new Node(e, height);
      ghost var before := lists;
      LinkLevels(x, height, prev, before);
      NodesGrow(before, 0, Cut(before[0], e.key), x);
      EntriesWithNode(before[0], Cut(before[0], e.key), x);
    }

    lemma NotYetIn(key: IKey)
      requires Valid() && forall x :: x in Contents() ==> x.key != key
      ensures forall n :: n in lists[0] ==> n.entry.key != key
    {
      forall n | n in lists[0]
        ensures n.entry.key != key
      {
        var i :| 0 <= i < |lists[0]| && lists[0][i] == n;
        assert Contents()[i] == n.entry;
      }
    }

    method LinkLevels(x: Node, height: nat, prev: seq<Node>, ghost before: seq<seq<Node>>)
      requires Valid() && before == lists && 1 <= height <= maxHeight && |x.next| == height && x != head && x !in Nodes()
      requires forall n :: n in lists[0] ==> n.entry.key != x.entry.key
      requires |prev| == MAX_HEIGHT && forall k :: 0 <= k < height ==> prev[k] == LeftOf(head, before[k], Cut(before[k], x.entry.key))
      modifies this`lists, head, Nodes(), x
      ensures Valid() && Partly(before, lists, x, height)
    {
      hide AllLinked, WithNode, Cut;
      for i := 0 to height
        invariant Valid() && |x.next| == height && Partly(before, lists, x, i)
        modifies this`lists, set n | n in before[0] + [head, x]
      {
        assert prev[i] == head || prev[i] in before[i];
        PutOnLevel(prev[i], x, i, before);
      }
    }
  }

  /** The iterator: a cursor over the entries that finds its way back by searching. */
  class Iterator {
    const list: SkipList
    var node: Node?
    ghost var pos: nat    // the number of entries when not valid

    ghost predicate Ok()
      reads this, list, list.head, list.Nodes()
    {
      list.Valid() && pos <= |list.lists[0]| && node == RightOf(list.lists[0], pos)
    }

    constructor (list: SkipList)
      requires list.Valid()
      ensures Ok() && this.list == list && pos == |list.lists[0]|
    {
      this.list := list;
      node := null;
      pos := |list.lists[0]|;
    }

    predicate Valid()
      reads this
    {
      node != null
    }

    method Key() returns (key: IKey)
      requires Ok() && Valid()
      ensures pos < |list.Contents()| && key == list.Contents()[pos].key
    {
      key := node.entry.key;
    }

    method Next()
      requires Ok() && Valid()
      modifies this
      ensures Ok() && pos == old(pos) + 1
    {
      list.Link(0, pos + 1);
      node := node.next[0];
      pos := pos + 1;
    }

    method Prev()
      requires Ok() && Valid()
      modifies this
      ensures Ok() && pos == if old(pos) == 0 then |list.lists[0]| else old(pos) - 1
    {
      ghost var es := list.Contents();
      if pos > 0 {
        assert Before(es[pos - 1].key, es[pos].key);
      }
      CutIs(list.lists[0], node.entry.key, pos);
      node := list.FindLessThan(node.entry.key);
      LevelFacts(list.lists, list.maxHeight, list.head, 0);
      if node == list.head {
        node := null;
      }
      pos := if pos == 0 then |list.lists[0]| else pos - 1;
    }

    method Seek(target: IKey)
      requires Ok()
      modifies this
      ensures Ok() && pos == SeekIndex(list.Contents(), target)
    {
      hide AllLinked, Sorted, SeekIndex, LeftOf;
      var prev;
      node, prev := list.FindGreaterOrEqual(target);
      pos := Cut(list.lists[0], target);
    }

    method SeekToFirst()
      requires Ok()
      modifies this
      ensures Ok() && pos == 0
    {
      list.Link(0, 0);
      node := list.head.next[0];
      pos := 0;
    }

    method SeekToLast()
      requires Ok()
      modifies this
      ensures Ok() && pos == if |list.lists[0]| == 0 then 0 else |list.lists[0]| - 1
    {
      node := list.FindLast();
      LevelFacts(list.lists, list.maxHeight, list.head, 0);
      if node == list.head {
        node := null;
      }
      pos := if |list.lists[0]| == 0 then 0 else |list.lists[0]| - 1;
    }
  }

  /** Part of the way through an insertion: `x` is on the first `i` levels. */
  ghost predicate Partly(before: seq<seq<Node>>, lists: seq<seq<Node>>, x: Node, i: nat) {
    && |before| == |lists| == MAX_HEIGHT && (forall k :: 0 <= k < MAX_HEIGHT ==> x !in before[k])
    && forall k :: 0 <= k < MAX_HEIGHT ==> lists[k] == if k < i then WithNode(before[k], Cut(before[k], x.entry.key), x) else before[k]
  }

  /** The insertion of `x`, whose key is new, has come to level `i`. */
  ghost predicate InsertsAt(before: seq<seq<Node>>, lists: seq<seq<Node>>, maxHeight: nat, x: Node, i: nat) {
    && Partly(before, lists, x, i) && i < maxHeight && Levels(before, maxHeight)
    && forall n :: n in before[0] ==> n.entry.key != x.entry.key
  }

  /** On the next level the new node fits at the cut. */
  lemma PlaceFits(before: seq<seq<Node>>, lists: seq<seq<Node>>, maxHeight: nat, x: Node, i: nat)
    requires Levels(lists, maxHeight) && InsertsAt(before, lists, maxHeight, x, i)
    ensures Fits(lists, maxHeight, x, i, Cut(before[i], x.entry.key))
  {
    forall k | 0 <= k < i
      ensures x in lists[k]
    {
      WithNodeHolds(before[k], Cut(before[k], x.entry.key), x, x);
    }
    var es := EntriesOf(before[i]);
    forall e | e in es
      ensures e.key != x.entry.key
    {
      var k :| 0 <= k < |es| && es[k] == e;
      assert before[i][k] in before[0];
    }
    InsertedIsSorted(es, x.entry);
    EntriesWithNode(before[i], Cut(before[i], x.entry.key), x);
  }

  lemma EntriesWithNode(nodes: seq<Node>, c: nat, x: Node)
    requires c == Cut(nodes, x.entry.key)
    ensures EntriesOf(WithNode(nodes, c, x)) == Inserted(EntriesOf(nodes), x.entry)
  {
  }

  lemma UnusedLinkIsFree(links: map<Node, seq<Node?>>, links': map<Node, seq<Node?>>, head: Node, lists: seq<seq<Node>>, x: Node, l: nat)
    requires AllLinked(links, head, lists) && links'.Keys == links.Keys && x != head
    requires forall n :: n in links && n != x ==> links'[n] == links[n]
    requires x in links ==> |links'[x]| == |links[x]| && forall k :: 0 <= k < |links[x]| && k != l ==> links'[x][k] == links[x][k]
    requires l < |lists| && forall k :: l <= k < |lists| ==> x !in lists[k]
    ensures AllLinked(links', head, lists)
  {
    forall k: nat | k < |lists|
      ensures Linked(links', head, lists[k], k)
    {
      assert Linked(links, head, lists[k], k);
      forall i: nat | i <= |lists[k]|
        ensures LinkAt(links', head, lists[k], k, i)
      {
        assert LinkAt(links, head, lists[k], k, i);
      }
    }
  }

  lemma NodesGrow(lists: seq<seq<Node>>, l: nat, c: nat, x: Node)
    requires l < |lists| && c <= |lists[l]| && (l > 0 ==> x in lists[0])
    ensures var after := lists[l := WithNode(lists[l], c, x)];
            forall n :: n in after[0] <==> n in lists[0] || n == x
  {
    forall n
      ensures n in WithNode(lists[l], c, x) <==> n in lists[l] || n == x
    {
      WithNodeHolds(lists[l], c, x, n);
    }
  }

  /** The nodes of a level are different from one another and from the head. */
  lemma LevelFacts(lists: seq<seq<Node>>, maxHeight: nat, head: Node, l: nat)
    requires Levels(lists, maxHeight) && head !in lists[0] && l < MAX_HEIGHT
    ensures forall a, b :: 0 <= a < b < |lists[l]| ==> lists[l][a] != lists[l][b]
    ensures head !in lists[l]
  {
    forall a, b | 0 <= a < b < |lists[l]|
      ensures lists[l][a] != lists[l][b]
    {
      assert Before(EntriesOf(lists[l])[a].key, EntriesOf(lists[l])[b].key);
    }
  }

  ghost predicate StoredLinks(links: map<Node, seq<Node?>>, links': map<Node, seq<Node?>>, p: Node, x: Node, l: nat, next: seq<Node?>) {
    && p in links && l < |links[p]| && links'.Keys == links.Keys + {x}
    && forall n :: n in links' ==> links'[n] == if n == x then next else if n == p then links[p][l := x] else links[n]
  }

  /** After the store all levels are linked, the one it changed and the others. */
  lemma StoreKeepsLinks(links: map<Node, seq<Node?>>, links': map<Node, seq<Node?>>, head: Node, lists: seq<seq<Node>>,
                        maxHeight: nat, p: Node, x: Node, l: nat, c: nat, next: seq<Node?>)
    requires Fits(lists, maxHeight, x, l, c) && head !in lists[0] && head != x && AllLinked(links, head, lists)
    requires p == LeftOf(head, lists[l], c) && p in links && l < |links[p]| && StoredLinks(links, links', p, x, l, next)
    requires l < |next| && next[l] == links[p][l] && (x in links ==> links[x] == next)
    requires forall k :: l < k < MAX_HEIGHT ==> x !in lists[k]
    ensures AllLinked(links', head, lists[l := WithNode(lists[l], c, x)])
  {
    LevelFacts(lists, maxHeight, head, l);
    var after := lists[l := WithNode(lists[l], c, x)];
    forall k: nat | k < MAX_HEIGHT
      ensures Linked(links', head, after[k], k)
    {
      assert Linked(links, head, lists[k], k);
      if k == l {
        StoreLinksLevel(links, links', head, lists[l], p, x, l, c, next);
      } else {
        forall i: nat | i <= |lists[k]|
          ensures LinkAt(links', head, lists[k], k, i)
        {
          assert LinkAt(links, head, lists[k], k, i);
        }
      }
    }
  }

  /** On its level the new node is linked in where it belongs. */
  lemma StoreLinksLevel(links: map<Node, seq<Node?>>, links': map<Node, seq<Node?>>, head: Node, nodes: seq<Node>,
                        p: Node, x: Node, l: nat, c: nat, next: seq<Node?>)
    requires Linked(links, head, nodes, l) && c <= |nodes| && x !in nodes && x != head && head !in nodes
    requires p == LeftOf(head, nodes, c) && p in links && l < |links[p]| && StoredLinks(links, links', p, x, l, next)
    requires l < |next| && next[l] == links[p][l]
    requires forall a, b :: 0 <= a < b < |nodes| ==> nodes[a] != nodes[b]
    ensures Linked(links', head, WithNode(nodes, c, x), l)
  {
    var after := WithNode(nodes, c, x);
    forall i: nat | i <= |after|
      ensures LinkAt(links', head, after, l, i)
    {
      if i <= c {
        assert LinkAt(links, head, nodes, l, i);
      } else {
        assert LinkAt(links, head, nodes, l, i - 1);
      }
    }
  }

  function WithNode(nodes: seq<Node>, c: nat, x: Node): seq<Node>
    requires c <= |nodes|
  {
    nodes[..c] + [x] + nodes[c..]
  }
}
