/** The order of a table's keys, and where a search through the index leads. */
module TableOrder {
  import opened Comparator
  import opened Concat
  import opened Keys

  type Pairs = seq<(Bytes, Bytes)>

  /** InternalKeyComparator, which only sees encoded internal keys. */
  predicate KeyLess(a: Bytes, b: Bytes) {
    |a| >= 8 && |b| >= 8 && InternalLess(a, b)
  }

  lemma KeyOrder(a: Bytes, b: Bytes, c: Bytes)
    requires |a| >= 8 && |b| >= 8 && |c| >= 8
    ensures !KeyLess(a, a) && !(KeyLess(a, b) && KeyLess(b, a))
    ensures KeyLess(a, b) && KeyLess(b, c) ==> KeyLess(a, c)
    ensures !KeyLess(b, a) && KeyLess(b, c) ==> KeyLess(a, c)
    ensures KeyLess(a, b) && !KeyLess(c, b) ==> KeyLess(a, c)
    ensures !KeyLess(b, a) && !KeyLess(c, b) ==> !KeyLess(c, a)
  {
    var x, y, z := ExtractUserKey(a), ExtractUserKey(b), ExtractUserKey(c);
    PlaceKeepsOrder(x, y);
    PlaceKeepsOrder(y, x);
    PlaceKeepsOrder(y, z);
    PlaceKeepsOrder(z, y);
    PlaceKeepsOrder(x, z);
    PlaceKeepsOrder(z, x);
    PlaceKeepsOrder(x, x);
  }

  lemma KeyLessIsTransitive()
    ensures forall a, b, c :: KeyLess(a, b) && KeyLess(b, c) ==> KeyLess(a, c)
  {
    hide InternalLess;
    forall a, b, c | KeyLess(a, b) && KeyLess(b, c)
      ensures KeyLess(a, c)
    {
      KeyOrder(a, b, c);
    }
  }

  // ----- blocks and what separates them

  ghost predicate SortedPairs(ps: Pairs) {
    && (forall i :: 0 <= i < |ps| ==> |ps[i].0| >= 8)
    && forall i, j :: 0 <= i < j < |ps| ==> KeyLess(ps[i].0, ps[j].0)
  }

  /** A separator is not before any key of its block, and before all keys further on. */
  ghost predicate Separated(blocks: seq<Pairs>, seps: seq<Bytes>) {
    && |seps| == |blocks| && (forall b :: 0 <= b < |seps| ==> |seps[b]| >= 8 && SortedPairs(blocks[b]))
    && (forall b, i :: 0 <= b < |blocks| && 0 <= i < |blocks[b]| ==> !KeyLess(seps[b], blocks[b][i].0))
    && (forall b, c, i :: 0 <= b < c < |blocks| && 0 <= i < |blocks[c]| ==> KeyLess(seps[b], blocks[c][i].0))
    && (forall b, c :: 0 <= b < c < |seps| ==> KeyLess(seps[b], seps[c]))
  }

  /** `k` is the place of the first key that is not before the target. */
  ghost predicate FirstFrom(all: Pairs, target: Bytes, k: nat) {
    k <= |all| && (forall j :: 0 <= j < k ==> KeyLess(all[j].0, target)) && (k < |all| ==> !KeyLess(all[k].0, target))
  }

  lemma OneFirst(all: Pairs, target: Bytes, j: nat, k: nat)
    requires FirstFrom(all, target, j) && FirstFrom(all, target, k)
    ensures j == k
  {
  }

  /** The first separator that is not before the target leads to the block with the
      first such key, or to the end of the block before it. */
  ghost predicate Lands(blocks: seq<Pairs>, seps: seq<Bytes>, target: Bytes, b: nat, i: nat)
    requires |seps| == |blocks|
  {
    && b <= |blocks| && (forall c :: 0 <= c < b ==> KeyLess(seps[c], target))
    && (b < |blocks| ==> !KeyLess(seps[b], target) && FirstFrom(blocks[b], target, i))
  }

  lemma SeekLands(blocks: seq<Pairs>, seps: seq<Bytes>, target: Bytes, b: nat, i: nat)
    requires Separated(blocks, seps) && |target| >= 8 && Lands(blocks, seps, target, b, i)
    ensures var k := Ends(blocks, b) + if b < |blocks| then i else 0;
            FirstFrom(Flat(blocks), target, k)
  {
    hide KeyLess, Flat, Lands, Ends, Separated;
    SameCount(blocks, seps);
    LandsFacts(blocks, seps, target, b, i);
    var k, all := Ends(blocks, b) + (if b < |blocks| then i else 0), Flat(blocks);
    EndsGrow(blocks, b, |blocks|);
    if b < |blocks| {
      FlatAt(blocks, b);
    }
    forall j | 0 <= j < |all|
      ensures j < k ==> KeyLess(all[j].0, target)
      ensures j == k ==> !KeyLess(all[j].0, target)
    {
      var c, m := FlatFind(blocks, |blocks|, j);
      FlatElem(blocks, c, m);
      LandsAt(blocks, seps, target, b, i, c, m);
      if c < b {
        EndsGrow(blocks, c, b);
      } else if b < c {
        EndsGrow(blocks, b, c);
      }
    }
  }

  lemma SameCount(blocks: seq<Pairs>, seps: seq<Bytes>)
    requires Separated(blocks, seps)
    ensures |seps| == |blocks|
  {
  }

  lemma LandsFacts(blocks: seq<Pairs>, seps: seq<Bytes>, target: Bytes, b: nat, i: nat)
    requires |seps| == |blocks| && Lands(blocks, seps, target, b, i)
    ensures b <= |blocks| && (b < |blocks| ==> i <= |blocks[b]|)
  {
  }

  /** On which side of the target a key is. */
  lemma LandsAt(blocks: seq<Pairs>, seps: seq<Bytes>, target: Bytes, b: nat, i: nat, c: nat, m: nat)
    requires Separated(blocks, seps) && |target| >= 8 && Lands(blocks, seps, target, b, i) && c < |blocks| && m < |blocks[c]|
    ensures c < b || (c == b && m < i) ==> KeyLess(blocks[c][m].0, target)
    ensures c > b || (c == b && m == i) ==> !KeyLess(blocks[c][m].0, target)
  {
    hide KeyLess;
    KeysAreKeys(blocks, seps, c, m);
    if c < b {
      KeyOrder(blocks[c][m].0, seps[c], target);
    } else if c > b {
      KeyOrder(target, seps[b], blocks[c][m].0);
      KeyOrder(target, blocks[c][m].0, target);
    }
  }

  lemma KeysAreKeys(blocks: seq<Pairs>, seps: seq<Bytes>, b: nat, i: nat)
    requires Separated(blocks, seps) && b < |blocks| && i < |blocks[b]|
    ensures |blocks[b][i].0| >= 8 && |seps[b]| >= 8
  {
    assert SortedPairs(blocks[b]);
  }

  // ----- what a lookup by way of one block can miss

  /** Between two blocks the separator is the last key, or has a user key before that
      of the next block's first key. */
  ghost predicate Tight(blocks: seq<Pairs>, seps: seq<Bytes>)
    requires Separated(blocks, seps)
  {
    && (forall b :: 0 <= b < |blocks| ==> blocks[b] != [])
    && forall b :: 0 <= b && b + 1 < |blocks| ==> TightAt(blocks[b], seps[b], blocks[b + 1])
  }

  ghost predicate TightAt(block: Pairs, sep: Bytes, next: Pairs) {
    block != [] && next != [] && |sep| >= 8 && |next[0].0| >= 8
    && (sep == block[|block| - 1].0 || Less(ExtractUserKey(sep), ExtractUserKey(next[0].0)))
  }

  /** A target between the last key of a block and the separator behind it: the next
      key is of another user key. So looking in one block finds the first key from the
      target on whenever it has the target's user key. */
  lemma GapHasNoUserKey(blocks: seq<Pairs>, seps: seq<Bytes>, target: Bytes, b: nat, i: nat, k: nat)
    requires Separated(blocks, seps) && Tight(blocks, seps) && |target| >= 8 && Lands(blocks, seps, target, b, i)
    requires b < |blocks| && i == |blocks[b]| && FirstFrom(Flat(blocks), target, k) && k < |Flat(blocks)|
    ensures k == Ends(blocks, b + 1) && b + 1 < |blocks| && Flat(blocks)[k] == blocks[b + 1][0]
    ensures |Flat(blocks)[k].0| >= 8 && ExtractUserKey(Flat(blocks)[k].0) != ExtractUserKey(target)
  {
    hide Flat, SortedPairs, KeyLess;
    SeekLands(blocks, seps, target, b, i);
    OneFirst(Flat(blocks), target, k, Ends(blocks, b) + i);
    FlatAt(blocks, b);
    assert b + 1 < |blocks| by {
      EndsGrow(blocks, b + 1, |blocks|);
    }
    assert TightAt(blocks[b], seps[b], blocks[b + 1]);
    FlatElem(blocks, b + 1, 0);
    GapAt(blocks[b], seps[b], blocks[b + 1], target);
  }

  lemma GapAt(block: Pairs, sep: Bytes, next: Pairs, target: Bytes)
    requires TightAt(block, sep, next) && |target| >= 8 && !KeyLess(sep, target) && FirstFrom(block, target, |block|)
    ensures ExtractUserKey(next[0].0) != ExtractUserKey(target)
  {
    assert KeyLess(block[|block| - 1].0, target);
    LessIsTotal(ExtractUserKey(sep), ExtractUserKey(target));
    LessIsTotal(ExtractUserKey(sep), ExtractUserKey(next[0].0));
  }
}
