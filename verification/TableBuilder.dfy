/** Writing a table (`table/table_builder.cc`): data blocks, an index with a separator
    for each of them, filters, and the footer. */
module TableBuilder {
  import opened Block
  import opened BlockReader
  import Bloom
  import opened Comparator
  import opened Concat
  import FilterBlock
  import opened Keys
  import opened TableFormat
  import opened TableOrder

  /** "filter." and the name of the filter policy. */
  function FilterKey(): Bytes {
    Ascii("filter.leveldb.BuiltinBloomFilter2")
  }

  function Ascii(s: string): Bytes {
    seq(|s|, i requires 0 <= i < |s| => s[i] as int % 256)
  }

  // ----- what a table holds

  /** A block: its entries, how they are laid out, and where it is in the file. */
  datatype BlockInfo = BlockInfo(pairs: Pairs, items: seq<Item>, points: seq<nat>, handle: BlockHandle)

  ghost predicate Shaped(items: seq<Item>, points: seq<nat>) {
    ItemsOk(items) && PointsOk(items, points) && forall j :: 0 <= j < |points| ==> points[j] <= |items|
  }

  ghost predicate InFile(file: Bytes, info: BlockInfo) {
    && Shaped(info.items, info.points) && Holds(info.items, info.pairs)
    && Stored(file, info.handle, Contents(info.items, info.points))
  }

  ghost predicate AllInFile(file: Bytes, infos: seq<BlockInfo>) {
    forall b :: 0 <= b < |infos| ==> InFile(file, infos[b])
  }

  function BlocksOf(infos: seq<BlockInfo>): (r: seq<Pairs>)
    ensures |r| == |infos| && forall b :: 0 <= b < |r| ==> r[b] == infos[b].pairs
  {
    seq(|infos|, b requires 0 <= b < |infos| => infos[b].pairs)
  }

  /** The entries of the index: a separator and the handle of its block. */
  function IndexPairs(seps: seq<Bytes>, infos: seq<BlockInfo>): (r: Pairs)
    requires |seps| <= |infos|
    ensures |r| == |seps| && forall b :: 0 <= b < |r| ==> r[b] == (seps[b], EncodeHandle(infos[b].handle))
  {
    seq(|seps|, b requires 0 <= b < |seps| => (seps[b], EncodeHandle(infos[b].handle)))
  }

  /** Blocks come one after the other. */
  ghost predicate Ascending(file: Bytes, infos: seq<BlockInfo>) {
    && (forall b, c :: 0 <= b < c < |infos| ==> infos[b].handle.offset < infos[c].handle.offset)
    && forall b :: 0 <= b < |infos| ==> infos[b].handle.offset < |file|
  }

  // ----- the order so far

  /** The first key after block `b`. */
  function After(blocks: seq<Pairs>, current: Pairs, b: nat): Pairs {
    if b + 1 < |blocks| then blocks[b + 1] else current
  }

  function LastKey(ps: Pairs): Bytes
    requires ps != []
  {
    ps[|ps| - 1].0
  }

  /** A separator between two blocks, the second of which may not have begun. */
  ghost predicate Between(block: Pairs, sep: Bytes, next: Pairs) {
    && block != [] && |sep| >= 8 && !KeyLess(sep, LastKey(block))
    && (next != [] ==> KeyLess(sep, next[0].0) && TightAt(block, sep, next))
  }

  /** Sorted blocks with separators between them; the last block may have none yet. */
  ghost predicate Chained(blocks: seq<Pairs>, seps: seq<Bytes>, current: Pairs) {
    && |seps| <= |blocks| <= |seps| + 1 && (current != [] ==> |seps| == |blocks|)
    && (forall b :: 0 <= b < |blocks| ==> blocks[b] != [] && SortedPairs(blocks[b])) && SortedPairs(current)
    && forall b: nat {:trigger seps[b]} :: b < |seps| ==> Between(blocks[b], seps[b], After(blocks, current, b))
  }

  lemma ChainedAt(blocks: seq<Pairs>, seps: seq<Bytes>, b: nat)
    requires Chained(blocks, seps, []) && |seps| == |blocks| && b < |blocks|
    ensures |seps[b]| >= 8 && blocks[b] != [] && SortedPairs(blocks[b]) && !KeyLess(seps[b], LastKey(blocks[b]))
    ensures b + 1 < |blocks| ==> blocks[b + 1] != [] && KeyLess(seps[b], blocks[b + 1][0].0) && TightAt(blocks[b], seps[b], blocks[b + 1])
  {
    assert Between(blocks[b], seps[b], After(blocks, [], b));
  }

  lemma KeyInBlock(ps: Pairs, i: nat)
    requires SortedPairs(ps) && i < |ps|
    ensures |ps[i].0| >= 8 && |ps[0].0| >= 8 && |LastKey(ps)| >= 8
    ensures !KeyLess(ps[i].0, ps[0].0) && !KeyLess(LastKey(ps), ps[i].0)
  {
    hide KeyLess;
    KeyOrder(ps[i].0, ps[0].0, ps[i].0);
    KeyOrder(ps[0].0, ps[i].0, ps[0].0);
    KeyOrder(LastKey(ps), ps[i].0, ps[i].0);
    KeyOrder(ps[i].0, LastKey(ps), ps[i].0);
  }

  /** A separator is before every key of a later block, and before its separator. */
  lemma {:induction false} SepBefore(blocks: seq<Pairs>, seps: seq<Bytes>, b: nat, c: nat, i: nat)
    requires Chained(blocks, seps, []) && |seps| == |blocks| && b < c < |blocks| && i < |blocks[c]|
    ensures |seps[b]| >= 8 && |seps[c]| >= 8 && KeyLess(seps[b], blocks[c][i].0) && KeyLess(seps[b], seps[c])
    decreases c
  {
    hide KeyLess, Chained, SortedPairs, TightAt;
    ChainedAt(blocks, seps, b);
    ChainedAt(blocks, seps, c);
    ChainedAt(blocks, seps, c - 1);
    KeyInBlock(blocks[c], i);
    KeyInBlock(blocks[c], 0);
    if b < c - 1 {
      KeyInBlock(blocks[c - 1], 0);
      SepBefore(blocks, seps, b, c - 1, 0);
      KeyOrder(seps[b], seps[c - 1], blocks[c][0].0);
    }
    KeyOrder(seps[b], blocks[c][0].0, blocks[c][i].0);
    KeyOrder(seps[b], blocks[c][0].0, LastKey(blocks[c]));
    KeyOrder(seps[b], LastKey(blocks[c]), seps[c]);
  }

  lemma BlockBelowSep(blocks: seq<Pairs>, seps: seq<Bytes>, b: nat, i: nat)
    requires Chained(blocks, seps, []) && |seps| == |blocks| && b < |blocks| && i < |blocks[b]|
    ensures |seps[b]| >= 8 && |blocks[b][i].0| >= 8 && !KeyLess(seps[b], blocks[b][i].0)
  {
    hide KeyLess, Chained, SortedPairs, TightAt;
    ChainedAt(blocks, seps, b);
    KeyInBlock(blocks[b], i);
    KeyOrder(blocks[b][i].0, LastKey(blocks[b]), seps[b]);
  }

  lemma SepsIncrease(blocks: seq<Pairs>, seps: seq<Bytes>, b: nat, c: nat)
    requires Chained(blocks, seps, []) && |seps| == |blocks| && b < c < |blocks|
    ensures |seps[b]| >= 8 && |seps[c]| >= 8 && KeyLess(seps[b], seps[c])
  {
    hide KeyLess, Chained, SortedPairs, TightAt;
    ChainedAt(blocks, seps, c);
    SepBefore(blocks, seps, b, c, 0);
  }

  /** The separators of a finished table do their work. */
  lemma ChainSeparates(blocks: seq<Pairs>, seps: seq<Bytes>)
    requires Chained(blocks, seps, []) && |seps| == |blocks|
    ensures Separated(blocks, seps) && Tight(blocks, seps)
  {
    hide KeyLess, Chained, SortedPairs, TightAt;
    forall b | 0 <= b < |blocks|
      ensures |seps[b]| >= 8 && SortedPairs(blocks[b]) && blocks[b] != []
    {
      ChainedAt(blocks, seps, b);
    }
    forall b, i | 0 <= b < |blocks| && 0 <= i < |blocks[b]|
      ensures !KeyLess(seps[b], blocks[b][i].0)
    {
      BlockBelowSep(blocks, seps, b, i);
    }
    forall b, c, i | 0 <= b < c < |blocks| && 0 <= i < |blocks[c]|
      ensures KeyLess(seps[b], blocks[c][i].0)
    {
      SepBefore(blocks, seps, b, c, i);
    }
    forall b, c | 0 <= b < c < |seps|
      ensures KeyLess(seps[b], seps[c])
    {
      SepsIncrease(blocks, seps, b, c);
    }
    assert Separated(blocks, seps);
    forall b | 0 <= b && b + 1 < |blocks|
      ensures TightAt(blocks[b], seps[b], blocks[b + 1])
    {
      ChainedAt(blocks, seps, b);
    }
  }

  // ----- what the filters cover

  /** The key is in the filter of its block's offset, or waits for it. */
  predicate Covers(groups: seq<seq<Bytes>>, pending: seq<Bytes>, offset: nat, key: Bytes) {
    var i := offset / FilterBlock.FILTER_BASE;
    if i < |groups| then key in groups[i] else i == |groups| && key in pending
  }

  ghost predicate CoversAll(groups: seq<seq<Bytes>>, pending: seq<Bytes>, offset: nat, ps: Pairs) {
    forall i :: 0 <= i < |ps| ==> Covers(groups, pending, offset, ps[i].0)
  }

  ghost predicate CoversBlocks(groups: seq<seq<Bytes>>, pending: seq<Bytes>, infos: seq<BlockInfo>) {
    forall b :: 0 <= b < |infos| ==> CoversAll(groups, pending, infos[b].handle.offset, infos[b].pairs)
  }

  // ----- a finished table

  datatype FilterInfo = FilterInfo(policy: Bloom.Policy, groups: seq<seq<Bytes>>, filters: seq<Bytes>, at: seq<nat>, handle: BlockHandle)

  datatype TableInfo = TableInfo(infos: seq<BlockInfo>, seps: seq<Bytes>, index: BlockInfo, meta: BlockInfo, filter: Option<FilterInfo>)

  function MetaPairs(filter: Option<FilterInfo>): Pairs {
    if filter.Some? then [(FilterKey(), EncodeHandle(filter.value.handle))] else []
  }

  ghost predicate HasFilter(file: Bytes, infos: seq<BlockInfo>, f: FilterInfo) {
    && Bloom.IsPolicy(f.policy) && FilterBlock.AllFilter(f.policy, f.groups, f.filters) && FilterBlock.Begins(f.filters, f.at)
    && CoversBlocks(f.groups, [], infos) && Stored(file, f.handle, FilterBlock.FilterContents(f.filters, f.at))
  }

  ghost predicate HasFooter(file: Bytes, meta: BlockHandle, index: BlockHandle) {
    |file| >= FOOTER_SIZE && file[|file| - FOOTER_SIZE..] == EncodeFooter(meta, index)
  }

  /** The data blocks in order, an index with a separator for each, the filters if there
      are any, and a footer that leads to all this. */
  ghost predicate IsTable(file: Bytes, t: TableInfo) {
    && AllInFile(file, t.infos) && Ascending(file, t.infos)
    && |t.seps| == |t.infos| && Chained(BlocksOf(t.infos), t.seps, [])
    && InFile(file, t.index) && t.index.pairs == IndexPairs(t.seps, t.infos)
    && InFile(file, t.meta) && t.meta.pairs == MetaPairs(t.filter)
    && (t.filter.Some? ==> HasFilter(file, t.infos, t.filter.value))
    && HasFooter(file, t.meta.handle, t.index.handle)
  }

  /** The entries of a table. */
  function Entries(t: TableInfo): Pairs {
    Flat(BlocksOf(t.infos))
  }

  // ----- what the steps of the builder keep

  lemma ChainSep(blocks: seq<Pairs>, seps: seq<Bytes>, sep: Bytes)
    requires Chained(blocks, seps, []) && |seps| + 1 == |blocks| && |sep| >= 8 && !KeyLess(sep, LastKey(blocks[|seps|]))
    ensures Chained(blocks, seps + [sep], [])
  {
    hide KeyLess, SortedPairs, TightAt;
    var more := seps + [sep];
    forall b: nat {:trigger more[b]} | b < |more|
      ensures Between(blocks[b], more[b], After(blocks, [], b))
    {
      if b < |seps| {
        assert more[b] == seps[b] && Between(blocks[b], seps[b], After(blocks, [], b));
      }
    }
  }

  /** A key may follow: it is after the last key, or, at the start of a block, after
      the separator. */
  ghost predicate MayFollow(blocks: seq<Pairs>, seps: seq<Bytes>, current: Pairs, key: Bytes) {
    && |seps| == |blocks| && |key| >= 8 && (current != [] ==> KeyLess(LastKey(current), key))
    && (current == [] && blocks != [] && blocks[|blocks| - 1] != [] ==>
          var sep := seps[|seps| - 1];
          && |sep| >= 8 && KeyLess(sep, key)
          && (sep == LastKey(blocks[|blocks| - 1]) || Less(ExtractUserKey(sep), ExtractUserKey(key))))
  }

  lemma ChainAppend(blocks: seq<Pairs>, seps: seq<Bytes>, current: Pairs, key: Bytes, value: Bytes)
    requires Chained(blocks, seps, current) && MayFollow(blocks, seps, current, key)
    ensures Chained(blocks, seps, current + [(key, value)])
  {
    hide KeyLess, SortedPairs, TightAt, MayFollow;
    MayFollowFacts(blocks, seps, current, key);
    var more := current + [(key, value)];
    SortedGrows(current, key, value);
    forall b: nat {:trigger seps[b]} | b < |seps|
      ensures Between(blocks[b], seps[b], After(blocks, more, b))
    {
      assert Between(blocks[b], seps[b], After(blocks, current, b));
      if b + 1 == |blocks| {
        NextGrows(blocks, seps, current, key, value);
      }
    }
  }

  lemma MayFollowFacts(blocks: seq<Pairs>, seps: seq<Bytes>, current: Pairs, key: Bytes)
    requires MayFollow(blocks, seps, current, key)
    ensures |seps| == |blocks| && |key| >= 8 && (current != [] ==> KeyLess(LastKey(current), key))
  {
  }

  lemma SortedGrows(ps: Pairs, key: Bytes, value: Bytes)
    requires SortedPairs(ps) && |key| >= 8 && (ps != [] ==> KeyLess(LastKey(ps), key))
    ensures SortedPairs(ps + [(key, value)])
  {
    hide KeyLess;
    var more := ps + [(key, value)];
    forall i, j | 0 <= i < j < |more|
      ensures KeyLess(more[i].0, more[j].0)
    {
      if j == |ps| {
        KeyInBlock(ps, i);
        KeyOrder(ps[i].0, LastKey(ps), key);
      }
    }
  }

  lemma NextGrows(blocks: seq<Pairs>, seps: seq<Bytes>, current: Pairs, key: Bytes, value: Bytes)
    requires MayFollow(blocks, seps, current, key) && blocks != [] && SortedPairs(current)
    requires var b := |blocks| - 1;
             Between(blocks[b], seps[b], current)
    ensures var b := |blocks| - 1;
            Between(blocks[b], seps[b], current + [(key, value)])
  {
    hide KeyLess, Less;
    if current != [] {
      assert (current + [(key, value)])[0] == current[0];
    }
  }

  lemma ChainFlush(blocks: seq<Pairs>, seps: seq<Bytes>, current: Pairs)
    requires Chained(blocks, seps, current) && current != []
    ensures Chained(blocks + [current], seps, [])
  {
    hide KeyLess, SortedPairs, TightAt, Between;
    var more := blocks + [current];
    forall b | 0 <= b < |more|
      ensures more[b] != [] && SortedPairs(more[b])
    {
      assert more[b] == if b < |blocks| then blocks[b] else current;
    }
    assert SortedPairs([]) by { NoneSorted(); }
    forall b: nat {:trigger seps[b]} | b < |seps|
      ensures Between(more[b], seps[b], After(more, [], b))
    {
      assert Between(blocks[b], seps[b], After(blocks, current, b));
      assert After(more, [], b) == After(blocks, current, b);
    }
  }

  lemma NoneSorted()
    ensures SortedPairs([])
  {
  }

  lemma BlocksGrow(infos: seq<BlockInfo>, info: BlockInfo)
    ensures BlocksOf(infos + [info]) == BlocksOf(infos) + [info.pairs]
    ensures Flat(BlocksOf(infos + [info])) == Flat(BlocksOf(infos)) + info.pairs
  {
    hide Flat;
    var blocks := BlocksOf(infos + [info]);
    assert blocks == BlocksOf(infos) + [info.pairs];
    FlatNext(blocks, |infos|);
    assert blocks[..|infos|] == BlocksOf(infos);
  }

  lemma InFileStays(file: Bytes, file': Bytes, info: BlockInfo)
    requires InFile(file, info) && file <= file'
    ensures InFile(file', info)
  {
    hide Contents, Stored, Holds, ItemsOk, PointsOk;
    StoredStays(file, file', info.handle, Contents(info.items, info.points));
  }

  lemma FileGrows(file: Bytes, file': Bytes, infos: seq<BlockInfo>)
    requires AllInFile(file, infos) && file <= file'
    ensures AllInFile(file', infos)
  {
    hide InFile;
    forall b | 0 <= b < |infos|
      ensures InFile(file', infos[b])
    {
      InFileStays(file, file', infos[b]);
    }
  }

  lemma HoldsAppend(items: seq<Item>, items': seq<Item>, ps: Pairs, key: Bytes, value: Bytes)
    requires Holds(items, ps) && |items'| == |items| + 1 && items'[..|items|] == items
    requires items'[|items|].key == key && items'[|items|].value == value
    ensures Holds(items', ps + [(key, value)])
  {
    forall i | 0 <= i < |items'|
      ensures items'[i].key == (ps + [(key, value)])[i].0 && items'[i].value == (ps + [(key, value)])[i].1
    {
      if i < |items| {
        assert items'[i] == items'[..|items|][i];
      }
    }
  }

  lemma IndexGrows(seps: seq<Bytes>, infos: seq<BlockInfo>, sep: Bytes)
    requires |seps| < |infos|
    ensures IndexPairs(seps + [sep], infos) == IndexPairs(seps, infos) + [(sep, EncodeHandle(infos[|seps|].handle))]
  {
  }

  lemma IndexStays(seps: seq<Bytes>, infos: seq<BlockInfo>, info: BlockInfo)
    requires |seps| <= |infos|
    ensures IndexPairs(seps, infos + [info]) == IndexPairs(seps, infos)
  {
  }

  // ----- the builder

  /** One more block, of these pairs, laid out like this. */
  ghost predicate Flushed(before: seq<BlockInfo>, infos: seq<BlockInfo>, ps: Pairs, items: seq<Item>, points: seq<nat>) {
    && |infos| == |before| + 1 && infos[..|before|] == before
    && var info := infos[|before|];
       info.pairs == ps && info.items == items && info.points == points
  }

  lemma FlushedIs(before: seq<BlockInfo>, info: BlockInfo)
    ensures Flushed(before, before + [info], info.pairs, info.items, info.points)
  {
  }

  /** The block that holds `ps` stays open as long as it is small, and is flushed as soon as it is not. */
  ghost predicate AddedTo(before: seq<BlockInfo>, infos: seq<BlockInfo>, ps: Pairs, current: Pairs,
                          items: seq<Item>, points: seq<nat>, blockSize: nat) {
    if current != [] then infos == before && current == ps && SizeEstimate(items, points) < blockSize
    else |infos| == |before| + 1 && Flushed(before, infos, ps, infos[|before|].items, infos[|before|].points)
         && SizeEstimate(infos[|before|].items, infos[|before|].points) >= blockSize
  }

  lemma AddedIs(before: seq<BlockInfo>, infos: seq<BlockInfo>, ps: Pairs, current: Pairs, items: seq<Item>, points: seq<nat>,
                items': seq<Item>, points': seq<nat>, blockSize: nat)
    requires ps != []
    requires if SizeEstimate(items, points) >= blockSize then current == [] && Flushed(before, infos, ps, items, points)
             else current == ps && infos == before && items' == items && points' == points
    ensures AddedTo(before, infos, ps, current, items', points', blockSize)
  {
  }

  class TableBuilder {
    const blockSize: nat
    const interval: nat
    const dataBlock: BlockBuilder
    const indexBlock: BlockBuilder
    const filterBlock: FilterBlock.FilterBlockBuilder?
    var file: Bytes
    var offset: nat
    var lastKey: Bytes
    var numEntries: nat
    var closed: bool
    var pendingIndexEntry: bool
    var pendingHandle: BlockHandle
    var filterHandle: BlockHandle
    /** The blocks in the file, the separators in the index, and the block begun. */
    ghost var infos: seq<BlockInfo>
    ghost var seps: seq<Bytes>
    ghost var current: Pairs

    /** Everything added so far. */
    ghost function All(): Pairs
      reads this`infos, this`current
    {
      Flat(BlocksOf(infos)) + current
    }

    ghost predicate InOrder()
      reads this`infos, this`seps, this`current, this`pendingIndexEntry, this`pendingHandle
    {
      && Chained(BlocksOf(infos), seps, current) && (pendingIndexEntry <==> |seps| < |infos|)
      && (pendingIndexEntry ==> pendingHandle == infos[|infos| - 1].handle)
    }

    ghost predicate InPlace()
      reads this`file, this`offset, this`infos
    {
      offset == |file| && AllInFile(file, infos) && Ascending(file, infos)
    }

    ghost predicate KnowsLast()
      reads this`numEntries, this`lastKey, this`infos, this`current
    {
      numEntries == |All()| && (numEntries > 0 ==> lastKey == LastKey(All()) && |lastKey| < WORD32)
    }

    ghost predicate DataHeld()
      reads this`current, dataBlock
    {
      dataBlock.Open() && Holds(dataBlock.items, current)
    }

    ghost predicate IndexHeld()
      reads this`seps, this`infos, indexBlock
    {
      indexBlock.Open() && |seps| <= |infos| && Holds(indexBlock.items, IndexPairs(seps, infos))
    }

    /** The filters know the keys of the blocks in the file, and of these entries of the
        block begun. */
    ghost predicate Filtered(ps: Pairs)
      reads this`file, this`infos, if filterBlock == null then {} else {filterBlock}
    {
      filterBlock != null ==>
        && filterBlock.Valid() && |filterBlock.groups| == |file| / FilterBlock.FILTER_BASE
        && CoversBlocks(filterBlock.groups, filterBlock.pending, infos)
        && CoversAll(filterBlock.groups, filterBlock.pending, |file|, ps)
    }

    ghost predicate Valid()
      reads this, dataBlock, indexBlock, if filterBlock == null then {} else {filterBlock}
    {
      && interval >= 1 && dataBlock != indexBlock
      && InOrder() && InPlace() && KnowsLast() && DataHeld() && IndexHeld() && Filtered(current)
      && (current == [] && infos != [] ==> pendingIndexEntry)
    }

    constructor (blockSize: nat, interval: nat, policy: Option<Bloom.Policy>)
      requires interval >= 1 && (policy.Some? ==> Bloom.IsPolicy(policy.value))
      ensures Valid() && !closed && All() == [] && fresh(dataBlock) && fresh(indexBlock)
      ensures (filterBlock != null <==> policy.Some?) && (filterBlock != null ==> fresh(filterBlock) && filterBlock.policy == policy.value)
    {
      this.blockSize := blockSize;
      this.interval := interval;
      hide *;
      var filter := NewFilter(policy);
      dataBlock := new BlockBuilder(interval);
      indexBlock := new BlockBuilder(1);
      filterBlock := filter;
      file, offset, lastKey, numEntries, closed := [], 0, [], 0, false;
      pendingIndexEntry, pendingHandle, filterHandle := false, BlockHandle(0, 0), BlockHandle(0, 0);
      infos, seps, current := [], [], [];
      new;
      Begun();
    }

    lemma Begun()
      requires interval >= 1 && dataBlock != indexBlock && dataBlock.Open() && indexBlock.Open() && dataBlock.items == [] && indexBlock.items == []
      requires filterBlock != null ==> filterBlock.Valid() && filterBlock.groups == [] && filterBlock.pending == []
      requires file == [] && offset == 0 && numEntries == 0 && !pendingIndexEntry && infos == [] && seps == [] && current == []
      ensures Valid() && All() == []
    {
      hide Chained, AllInFile, Ascending, Holds, Laid, AreOffsets, CoversBlocks, CoversAll, Flat, IndexPairs, Data;
      NothingYet();
    }

    /** The part of Add that puts a separator into the index, and the part of Finish. */
    method AddIndexEntry(sep: Bytes)
      requires InOrder() && KnowsLast() && IndexHeld() && pendingIndexEntry && current == []
      requires 8 <= |sep| < WORD32 && !KeyLess(sep, lastKey)
      modifies this`pendingIndexEntry, this`seps, indexBlock
      ensures InOrder() && IndexHeld() && seps == old(seps) + [sep] && !pendingIndexEntry
    {
      hide *;
      OrderFacts();
      IndexFacts();
      HandleIsShort(pendingHandle);
      ChainSep(BlocksOf(infos), seps, sep);
      ghost var was := indexBlock.items;
      indexBlock.Add(sep, EncodeHandle(pendingHandle));
      HoldsAppend(was, indexBlock.items, IndexPairs(seps, infos), sep, EncodeHandle(pendingHandle));
      IndexGrows(seps, infos, sep);
      seps := seps + [sep];
      pendingIndexEntry := false;
      MakeOrder();
      MakeIndex();
    }

    lemma OrderFacts()
      requires InOrder() && KnowsLast() && pendingIndexEntry && current == []
      ensures |seps| + 1 == |infos| == |BlocksOf(infos)| && Chained(BlocksOf(infos), seps, []) && pendingHandle == infos[|seps|].handle
      ensures BlocksOf(infos)[|seps|] != [] && lastKey == LastKey(BlocksOf(infos)[|seps|]) && |lastKey| >= 8 && All() != []
    {
      hide Chained, Flat;
      ChainedLast(BlocksOf(infos), seps, current);
      LastOfAll(infos, current);
    }

    lemma IndexFacts()
      requires IndexHeld()
      ensures indexBlock.Open() && |seps| <= |infos| && Holds(indexBlock.items, IndexPairs(seps, infos))
    {
    }

    /** The part of Add that puts the entry into the block begun. */
    method AddEntry(key: Bytes, value: Bytes)
      requires InOrder() && DataHeld() && MayFollow(BlocksOf(infos), seps, current, key) && |key| < WORD32 && |value| < WORD32
      requires numEntries == |All()|
      modifies this`lastKey, this`numEntries, this`current, dataBlock
      ensures InOrder() && KnowsLast() && DataHeld() && current == old(current) + [(key, value)] && All() == old(All()) + [(key, value)]
    {
      hide *;
      DataFacts();
      OrderAppends(key, value);
      AllIs();
      ghost var was, all := dataBlock.items, All();
      lastKey := key;
      numEntries := numEntries + 1;
      dataBlock.Add(key, value);
      HoldsAppend(was, dataBlock.items, current, key, value);
      current := current + [(key, value)];
      MakeData();
      MakeOrder();
      AllIs();
      AddedLast(infos, old(current), key, value, all);
      MakeLast(key, value, all);
    }

    lemma AllIs()
      ensures All() == Flat(BlocksOf(infos)) + current
    {
    }

    lemma DataFacts()
      requires DataHeld()
      ensures dataBlock.Open() && Holds(dataBlock.items, current)
    {
    }

    lemma MakeData()
      requires dataBlock.Open() && Holds(dataBlock.items, current)
      ensures DataHeld()
    {
    }

    lemma OrderAppends(key: Bytes, value: Bytes)
      requires InOrder() && MayFollow(BlocksOf(infos), seps, current, key)
      ensures Chained(BlocksOf(infos), seps, current + [(key, value)]) && |seps| == |infos| && !pendingIndexEntry
    {
      hide Chained;
      ChainAppend(BlocksOf(infos), seps, current, key, value);
    }

    lemma MakeLast(key: Bytes, value: Bytes, all: Pairs)
      requires All() == all + [(key, value)] && numEntries == |all| + 1 && lastKey == key && |key| < WORD32
      ensures KnowsLast()
    {
    }

    method AddToFilter(key: Bytes, ghost value: Bytes)
      requires Filtered(current) && |key| >= 8
      modifies if filterBlock == null then {} else {filterBlock}
      ensures Filtered(current + [(key, value)])
    {
      hide CoversBlocks, CoversAll;
      if filterBlock != null {
        CoversMore(filterBlock.groups, filterBlock.pending, infos, |file|, current, key, value);
        filterBlock.AddKey(key);
      }
    }

    /** The end of Flush: filters up to where the next block begins. */
    method StartFilters(ghost was: nat, ghost before: seq<BlockInfo>, ghost info: BlockInfo)
      requires was <= |file| && infos == before + [info] && info.handle.offset == was && offset == |file|
      requires filterBlock != null ==>
        && filterBlock.Valid() && |filterBlock.groups| == was / FilterBlock.FILTER_BASE
        && CoversBlocks(filterBlock.groups, filterBlock.pending, before)
        && CoversAll(filterBlock.groups, filterBlock.pending, was, info.pairs)
      modifies if filterBlock == null then {} else {filterBlock}
      ensures Filtered([])
    {
      hide CoversBlocks;
      if filterBlock != null {
        ghost var groups, pending := filterBlock.groups, filterBlock.pending;
        BlockCovered(groups, pending, before, info);
        LaterFilter(was, |file|);
        filterBlock.StartBlock(offset);
        BlocksMove(groups, pending, filterBlock.groups, filterBlock.pending, infos);
      }
    }

    /** Flush: the block begun, unless it is empty, goes into the file. */
    method Flush()
      requires Valid() && !closed
      modifies this, dataBlock, if filterBlock == null then {} else {filterBlock}
      ensures Valid() && !closed && current == [] && All() == old(All()) && old(file) <= file
      ensures if old(current) == [] then infos == old(infos)
              else Flushed(old(infos), infos, old(current), old(dataBlock.items), old(dataBlock.points))
    {
      hide *;
      ValidParts();
      DataFacts();
      var empty := dataBlock.Empty();
      HeldCount(dataBlock.items, current);
      if empty {
        return;
      }
      FlushBlock();
    }

    /** Flush on a block that is not empty. */
    method FlushBlock()
      requires Valid() && !closed && current != []
      modifies this, dataBlock, if filterBlock == null then {} else {filterBlock}
      ensures Valid() && !closed && current == [] && All() == old(All()) && old(file) <= file
      ensures Flushed(old(infos), infos, old(current), old(dataBlock.items), old(dataBlock.points))
    {
      hide *;
      ValidParts();
      DataFacts();
      AllIs();
      FilterParts(current);
      ChainFlush(BlocksOf(infos), seps, current);
      ghost var was, before, items, points := |file|, infos, [], [];
      file, pendingHandle, items, points := WriteBlock(file, dataBlock);
      ghost var info := BlockInfo(current, items, points, pendingHandle);
      BlocksGrow(infos, info);
      MakeInFile(file, info);
      PlaceGrows(old(file), file, infos, info);
      IndexStays(seps, infos, info);
      LastStays(infos, info, current);
      FlushedIs(infos, info);
      infos := infos + [info];
      current := [];
      pendingIndexEntry := true;
      offset := |file|;
      NothingYet();
      StartFilters(was, before, info);
      MakeOrder();
      MakePlace();
      MakeIndex();
      MakeData();
      AllIs();
      SameLast(old(All()));
      MakeValid();
    }

    lemma ValidParts()
      requires Valid()
      ensures interval >= 1 && dataBlock != indexBlock
      ensures InOrder() && InPlace() && KnowsLast() && DataHeld() && IndexHeld() && Filtered(current)
      ensures current == [] && infos != [] ==> pendingIndexEntry
      ensures current != [] ==> |seps| == |infos|
      ensures Chained(BlocksOf(infos), seps, current) && (pendingIndexEntry <==> |seps| < |infos|)
      ensures offset == |file| && AllInFile(file, infos) && Ascending(file, infos)
      ensures indexBlock.Open() && |seps| <= |infos| && Holds(indexBlock.items, IndexPairs(seps, infos))
      ensures numEntries == |All()| && (numEntries > 0 ==> lastKey == LastKey(All()) && |lastKey| < WORD32)
    {
      hide Chained, AllInFile, Ascending, Holds, Flat, CoversAll, CoversBlocks;
      ChainedCounts(BlocksOf(infos), seps, current);
    }

    lemma FilterParts(ps: Pairs)
      requires Filtered(ps)
      ensures filterBlock != null ==>
        && filterBlock.Valid() && |filterBlock.groups| == |file| / FilterBlock.FILTER_BASE
        && CoversBlocks(filterBlock.groups, filterBlock.pending, infos)
        && CoversAll(filterBlock.groups, filterBlock.pending, |file|, ps)
    {
      hide CoversAll, CoversBlocks;
    }

    lemma MakePlace()
      requires offset == |file| && AllInFile(file, infos) && Ascending(file, infos)
      ensures InPlace()
    {
    }

    lemma SameLast(all: Pairs)
      requires All() == all && numEntries == |all| && (numEntries > 0 ==> lastKey == LastKey(all) && |lastKey| < WORD32)
      ensures KnowsLast()
    {
    }

    lemma MakeValid()
      requires interval >= 1 && dataBlock != indexBlock
      requires InOrder() && InPlace() && KnowsLast() && DataHeld() && IndexHeld() && Filtered(current)
      requires current == [] && infos != [] ==> pendingIndexEntry
      ensures Valid()
    {
    }

    /** Add: keys come in increasing order. */
    method Add(key: Bytes, value: Bytes)
      requires Valid() && !closed && 8 <= |key| < WORD32 && |value| < WORD32
      requires All() != [] ==> KeyLess(LastKey(All()), key)
      modifies this, dataBlock, indexBlock, if filterBlock == null then {} else {filterBlock}
      ensures Valid() && !closed && All() == old(All()) + [(key, value)] && old(file) <= file
      ensures AddedTo(old(infos), infos, old(current) + [(key, value)], current, dataBlock.items, dataBlock.points, blockSize)
    {
      hide *;
      ValidParts();
      AllIs();
      CurrentLast(infos, current);
      if pendingIndexEntry {
        OrderFacts();
        var sep := InternalShortestSeparator(lastKey, key);
        ChosenSep(lastKey, key, sep);
        SepAllows(BlocksOf(infos), seps, sep, key);
        AddIndexEntry(sep);
        AllIs();
      } else {
        BlockAllows(BlocksOf(infos), seps, current, key);
      }
      AddToFilter(key, value);
      AddEntry(key, value);
      MakeValid();
      DataFacts();
      var estimated := dataBlock.CurrentSizeEstimate();
      ghost var before, ps, items, points := infos, current, dataBlock.items, dataBlock.points;
      if estimated >= blockSize {
        Flush();
      }
      AddedIs(before, infos, ps, current, items, points, dataBlock.items, dataBlock.points, blockSize);
    }

    /** Finish: the last block, the filters, the metaindex block, the index block with
        its last separator, and the footer. */
    method Finish() returns (ghost t: TableInfo)
      requires Valid() && !closed
      modifies this, dataBlock, indexBlock, if filterBlock == null then {} else {filterBlock}
      ensures closed && IsTable(file, t) && Entries(t) == old(All()) && old(file) <= file
      ensures t.filter.Some? <==> filterBlock != null
      ensures t.filter.Some? ==> t.filter.value.policy == filterBlock.policy
    {
      hide *;
      ghost var all := All();
      Flush();
      ValidParts();
      AllIs();
      closed := true;
      ghost var start := file;
      ghost var filter := WriteFilter();
      ghost var file1, meta, index := file, NoBlock(), NoBlock();
      var metaHandle, indexHandle;
      metaHandle, meta := WriteMeta(filter);
      ghost var file2 := file;
      if pendingIndexEntry {
        OrderFacts();
        var sep := InternalShortSuccessor(lastKey);
        SuccessorIsLater(lastKey, sep);
        AddIndexEntry(sep);
      }
      OrderDone();
      indexHandle, index := WriteIndex();
      ghost var file3 := file;
      WriteFooter(metaHandle, indexHandle);
      t := TableInfo(infos, seps, index, meta, filter);
      MakeTable(start, file1, file2, file3, file, t);
      AllEntries(t, current, all);
    }

    lemma OrderDone()
      requires InOrder() && !pendingIndexEntry && current == []
      ensures |seps| == |infos| && Chained(BlocksOf(infos), seps, [])
    {
      hide Chained;
      ChainedCounts(BlocksOf(infos), seps, current);
    }

    /** The filter block, if there are filters. */
    method WriteFilter() returns (ghost filter: Option<FilterInfo>)
      requires Filtered([]) && offset == |file|
      modifies this`file, this`offset, this`filterHandle, if filterBlock == null then {} else {filterBlock}
      ensures old(file) <= file && offset == |file| && (filter.Some? <==> filterBlock != null)
      ensures filter.Some? ==> HasFilter(file, infos, filter.value) && filter.value.handle == filterHandle && filter.value.policy == filterBlock.policy
    {
      hide CoversBlocks, CoversAll, Stored, FilterBlock.FilterContents, Bloom.IsFilter;
      filter := None;
      if filterBlock != null {
        ghost var groups, pending := filterBlock.groups, filterBlock.pending;
        var contents := filterBlock.Finish();
        BlocksMove(groups, pending, filterBlock.groups, [], infos);
        file, filterHandle := WriteRawBlock(file, contents);
        offset := |file|;
        filter := Some(FilterInfo(filterBlock.policy, filterBlock.groups, filterBlock.filters, filterBlock.filterOffsets, filterHandle));
      }
    }

    /** The metaindex block: where the filter block is. */
    method WriteMeta(ghost filter: Option<FilterInfo>) returns (h: BlockHandle, ghost meta: BlockInfo)
      requires offset == |file| && interval >= 1 && (filter.Some? <==> filterBlock != null)
      requires filter.Some? ==> filter.value.handle == filterHandle
      modifies this`file, this`offset
      ensures old(file) <= file && offset == |file| && InFile(file, meta) && meta.pairs == MetaPairs(filter) && meta.handle == h
    {
      hide *;
      var block := new BlockBuilder(interval);
      NothingHeld();
      MetaIs(filter);
      if filterBlock != null {
        HandleIsShort(filterHandle);
        FilterKeyIsShort();
        block.Add(FilterKey(), EncodeHandle(filterHandle));
        HoldsAppend([], block.items, [], FilterKey(), EncodeHandle(filterHandle));
      }
      ghost var items, points;
      file, h, items, points := WriteBlock(file, block);
      offset := |file|;
      meta := BlockInfo(MetaPairs(filter), items, points, h);
      MakeInFile(file, meta);
    }

    method WriteIndex() returns (h: BlockHandle, ghost index: BlockInfo)
      requires IndexHeld() && offset == |file|
      modifies this`file, this`offset, indexBlock
      ensures old(file) <= file && offset == |file| && |seps| <= |infos| && InFile(file, index) && index.pairs == IndexPairs(seps, infos)
      ensures index.handle == h
    {
      hide *;
      IndexFacts();
      ghost var items, points;
      file, h, items, points := WriteBlock(file, indexBlock);
      offset := |file|;
      index := BlockInfo(IndexPairs(seps, infos), items, points, h);
      MakeInFile(file, index);
    }

    method WriteFooter(meta: BlockHandle, index: BlockHandle)
      requires offset == |file|
      modifies this`file, this`offset
      ensures old(file) <= file && HasFooter(file, meta, index)
    {
      var footer := EncodeFooter(meta, index);
      file := file + footer;
      offset := offset + |footer|;
    }

    lemma MakeOrder()
      requires Chained(BlocksOf(infos), seps, current) && (pendingIndexEntry <==> |seps| < |infos|)
      requires pendingIndexEntry ==> pendingHandle == infos[|infos| - 1].handle
      ensures InOrder()
    {
    }

    lemma MakeIndex()
      requires indexBlock.Open() && |seps| <= |infos| && Holds(indexBlock.items, IndexPairs(seps, infos))
      ensures IndexHeld()
    {
    }
  }

  lemma AddedLast(infos: seq<BlockInfo>, current: Pairs, key: Bytes, value: Bytes, all: Pairs)
    requires all == Flat(BlocksOf(infos)) + current
    ensures Flat(BlocksOf(infos)) + (current + [(key, value)]) == all + [(key, value)]
  {
  }

  lemma ChainedCounts(blocks: seq<Pairs>, seps: seq<Bytes>, current: Pairs)
    requires Chained(blocks, seps, current)
    ensures |seps| <= |blocks| <= |seps| + 1 && (current != [] ==> |seps| == |blocks|)
  {
  }

  lemma MakeInFile(file: Bytes, info: BlockInfo)
    requires Shaped(info.items, info.points) && Holds(info.items, info.pairs)
    requires Stored(file, info.handle, Contents(info.items, info.points))
    ensures InFile(file, info)
  {
  }

  lemma PlaceGrows(file: Bytes, file': Bytes, infos: seq<BlockInfo>, info: BlockInfo)
    requires AllInFile(file, infos) && Ascending(file, infos) && file <= file' && InFile(file', info)
    requires info.handle.offset == |file| < |file'|
    ensures AllInFile(file', infos + [info]) && Ascending(file', infos + [info])
  {
    hide InFile;
    FileGrows(file, file', infos);
  }

  lemma LastStays(infos: seq<BlockInfo>, info: BlockInfo, current: Pairs)
    requires info.pairs == current
    ensures Flat(BlocksOf(infos + [info])) + [] == Flat(BlocksOf(infos)) + current
  {
    hide Flat;
    BlocksGrow(infos, info);
  }

  /** The last key of all is that of the block begun, if one has begun. */
  lemma CurrentLast(infos: seq<BlockInfo>, current: Pairs)
    ensures current != [] ==> LastKey(Flat(BlocksOf(infos)) + current) == LastKey(current)
  {
  }

  lemma ChosenSep(last: Bytes, key: Bytes, sep: Bytes)
    requires |last| >= 8 && |key| >= 8 && |sep| >= 8 && KeyLess(last, key)
    requires (sep == last || InternalLess(last, sep)) && (InternalLess(last, key) ==> InternalLess(sep, key))
    requires sep == last || !InternalLess(last, key) || Less(ExtractUserKey(sep), ExtractUserKey(key))
    ensures !KeyLess(sep, last) && KeyLess(sep, key) && (sep == last || Less(ExtractUserKey(sep), ExtractUserKey(key)))
  {
    KeyOrder(sep, last, sep);
  }

  lemma SepAllows(blocks: seq<Pairs>, seps: seq<Bytes>, sep: Bytes, key: Bytes)
    requires |seps| + 1 == |blocks| && |sep| >= 8 && |key| >= 8 && KeyLess(sep, key) && blocks[|seps|] != []
    requires sep == LastKey(blocks[|seps|]) || Less(ExtractUserKey(sep), ExtractUserKey(key))
    ensures MayFollow(blocks, seps + [sep], [], key)
  {
    hide KeyLess, Less;
  }

  lemma BlockAllows(blocks: seq<Pairs>, seps: seq<Bytes>, current: Pairs, key: Bytes)
    requires |seps| == |blocks| && |key| >= 8 && (current != [] ==> KeyLess(LastKey(current), key)) && (current == [] ==> blocks == [])
    ensures MayFollow(blocks, seps, current, key)
  {
  }

  method WriteBlock(file: Bytes, block: BlockBuilder) returns (file': Bytes, h: BlockHandle, ghost items: seq<Item>, ghost points: seq<nat>)
    requires block.Open()
    modifies block
    ensures file <= file' && h.offset == |file| < |file'| && block.Open() && block.items == []
    ensures items == old(block.items) && points == old(block.points)
    ensures Shaped(items, points) && Stored(file', h, Contents(items, points))
  {
    hide Contents, Data, Stored, Laid, ItemsOk, PointsOk;
    BlockFacts(block);
    items, points := block.items, block.points;
    var contents := block.Finish();
    LaidIsOk(block.items, block.points, block.interval);
    PointsInRange(block.items, block.points);
    items, points := block.items, block.points;
    file', h := WriteRawBlock(file, contents);
    block.Reset();
  }

  lemma BlockFacts(block: BlockBuilder)
    requires block.Open()
    ensures block.interval >= 1
  {
  }

  function NoBlock(): BlockInfo {
    BlockInfo([], [], [], BlockHandle(0, 0))
  }

  lemma SuccessorIsLater(last: Bytes, sep: Bytes)
    requires |last| >= 8 && |sep| >= 8 && (sep == last || InternalLess(last, sep))
    ensures !KeyLess(sep, last)
  {
    KeyOrder(sep, last, sep);
  }

  lemma MetaIs(filter: Option<FilterInfo>)
    ensures MetaPairs(filter) == if filter.Some? then [] + [(FilterKey(), EncodeHandle(filter.value.handle))] else []
  {
  }

  lemma FilterKeyIsShort()
    ensures |FilterKey()| < WORD32
  {
  }

  lemma MakeTable(start: Bytes, file1: Bytes, file2: Bytes, file3: Bytes, file: Bytes, t: TableInfo)
    requires start <= file1 <= file2 <= file3 <= file
    requires AllInFile(start, t.infos) && Ascending(start, t.infos)
    requires |t.seps| == |t.infos| && Chained(BlocksOf(t.infos), t.seps, [])
    requires t.filter.Some? ==> HasFilter(file1, t.infos, t.filter.value)
    requires InFile(file2, t.meta) && t.meta.pairs == MetaPairs(t.filter)
    requires InFile(file3, t.index) && t.index.pairs == IndexPairs(t.seps, t.infos)
    requires HasFooter(file, t.meta.handle, t.index.handle)
    ensures IsTable(file, t)
  {
    hide InFile, Chained, Stored, HasFooter, CoversBlocks, FilterBlock.FilterContents;
    FileGrows(start, file, t.infos);
    InFileStays(file2, file, t.meta);
    InFileStays(file3, file, t.index);
    if t.filter.Some? {
      var f := t.filter.value;
      StoredStays(file1, file, f.handle, FilterBlock.FilterContents(f.filters, f.at));
    }
  }

  lemma AllEntries(t: TableInfo, current: Pairs, all: Pairs)
    requires current == [] && Flat(BlocksOf(t.infos)) + current == all
    ensures Entries(t) == all
  {
  }

  lemma HandleIsShort(h: BlockHandle)
    ensures |EncodeHandle(h)| < WORD32
  {
  }

  lemma ChainedLast(blocks: seq<Pairs>, seps: seq<Bytes>, current: Pairs)
    requires Chained(blocks, seps, current) && blocks != []
    ensures blocks[|blocks| - 1] != [] && |LastKey(blocks[|blocks| - 1])| >= 8 && |seps| <= |blocks| <= |seps| + 1
  {
  }

  /** Between two blocks the last key is that of the last block. */
  lemma LastOfAll(infos: seq<BlockInfo>, current: Pairs)
    requires infos != [] && infos[|infos| - 1].pairs != [] && current == []
    ensures var all := Flat(BlocksOf(infos)) + current;
            all != [] && LastKey(all) == LastKey(infos[|infos| - 1].pairs)
  {
    var last := |infos| - 1;
    assert infos == infos[..last] + [infos[last]];
    BlocksGrow(infos[..last], infos[last]);
  }

  method NewFilter(policy: Option<Bloom.Policy>) returns (f: FilterBlock.FilterBlockBuilder?)
    requires policy.Some? ==> Bloom.IsPolicy(policy.value)
    ensures f != null <==> policy.Some?
    ensures f != null ==> fresh(f) && f.Valid() && f.policy == policy.value && f.groups == [] && f.pending == []
  {
    f := null;
    if policy.Some? {
      f := new FilterBlock.FilterBlockBuilder(policy.value);
      f.StartBlock(0);
    }
  }

  // ----- what the filters keep

  lemma CoversMore(groups: seq<seq<Bytes>>, pending: seq<Bytes>, infos: seq<BlockInfo>, offset: nat, ps: Pairs, key: Bytes, value: Bytes)
    requires CoversBlocks(groups, pending, infos) && CoversAll(groups, pending, offset, ps) && |groups| == offset / FilterBlock.FILTER_BASE
    ensures CoversBlocks(groups, pending + [key], infos) && CoversAll(groups, pending + [key], offset, ps + [(key, value)])
  {
    var more := ps + [(key, value)];
    forall i | 0 <= i < |more|
      ensures Covers(groups, pending + [key], offset, more[i].0)
    {
      if i < |ps| {
        assert more[i] == ps[i] && Covers(groups, pending, offset, ps[i].0);
      }
    }
    forall b | 0 <= b < |infos|
      ensures CoversAll(groups, pending + [key], infos[b].handle.offset, infos[b].pairs)
    {
      assert CoversAll(groups, pending, infos[b].handle.offset, infos[b].pairs);
    }
  }

  /** What StartBlock and Finish do to the filters. */
  ghost predicate Moves(groups: seq<seq<Bytes>>, pending: seq<Bytes>, groups': seq<seq<Bytes>>, pending': seq<Bytes>) {
    && groups <= groups'
    && if |groups'| == |groups| then pending' == pending else groups'[|groups|] == pending
  }

  lemma CoversMoves(groups: seq<seq<Bytes>>, pending: seq<Bytes>, groups': seq<seq<Bytes>>, pending': seq<Bytes>, offset: nat, key: Bytes)
    requires Moves(groups, pending, groups', pending') && Covers(groups, pending, offset, key)
    ensures Covers(groups', pending', offset, key)
  {
  }

  lemma BlocksMove(groups: seq<seq<Bytes>>, pending: seq<Bytes>, groups': seq<seq<Bytes>>, pending': seq<Bytes>, infos: seq<BlockInfo>)
    requires Moves(groups, pending, groups', pending') && CoversBlocks(groups, pending, infos)
    ensures CoversBlocks(groups', pending', infos)
  {
    hide Covers, Moves;
    forall b | 0 <= b < |infos|
      ensures CoversAll(groups', pending', infos[b].handle.offset, infos[b].pairs)
    {
      forall i | 0 <= i < |infos[b].pairs|
        ensures Covers(groups', pending', infos[b].handle.offset, infos[b].pairs[i].0)
      {
        assert CoversAll(groups, pending, infos[b].handle.offset, infos[b].pairs);
        CoversMoves(groups, pending, groups', pending', infos[b].handle.offset, infos[b].pairs[i].0);
      }
    }
  }

  lemma BlockCovered(groups: seq<seq<Bytes>>, pending: seq<Bytes>, infos: seq<BlockInfo>, info: BlockInfo)
    requires CoversBlocks(groups, pending, infos) && CoversAll(groups, pending, info.handle.offset, info.pairs)
    ensures CoversBlocks(groups, pending, infos + [info])
  {
    hide CoversAll;
  }

  lemma LaterFilter(a: nat, b: nat)
    requires a <= b
    ensures a / FilterBlock.FILTER_BASE <= b / FilterBlock.FILTER_BASE
  {
  }

  lemma NothingYet()
    ensures Chained([], [], []) && AllInFile([], []) && Ascending([], []) && Holds([], []) && BlocksOf([]) == [] && Flat<(Bytes, Bytes)>([]) == []
    ensures CoversBlocks([], [], []) && CoversAll([], [], 0, []) && IndexPairs([], []) == []
  {
  }
}
