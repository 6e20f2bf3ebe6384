/** Reading a table (`table/table.cc`): opening it, and looking a key up through the
    index, the filter and one block. */
module Table {
  import opened Block
  import opened BlockReader
  import Bloom
  import opened Comparator
  import opened Concat
  import FilterBlock
  import opened Keys
  import opened TableBuilder
  import opened TableFormat
  import opened TableOrder

  // ----- a table that can be read

  ghost predicate Short(info: BlockInfo) {
    Shaped(info.items, info.points) && |Contents(info.items, info.points)| < WORD32
  }

  /** A table whose blocks are shorter than 4 GB, in a file whose size fits 64 bits. */
  ghost predicate IsReadable(file: Bytes, t: TableInfo) {
    && IsTable(file, t) && |file| < LONG && Short(t.index) && Short(t.meta)
    && (forall b :: 0 <= b < |t.infos| ==> Short(t.infos[b]))
    && (t.filter.Some? ==> |FilterBlock.FilterContents(t.filter.value.filters, t.filter.value.at)| < WORD32)
  }

  /** Block::NewIterator, on the contents of a block that a builder wrote. */
  method NewIterator(contents: Bytes, lt: (Bytes, Bytes) -> bool, ghost info: BlockInfo) returns (it: Iter)
    requires Short(info) && contents == Contents(info.items, info.points)
    ensures fresh(it) && it.Ok() && it.items == info.items && it.lt == lt && it.pos == |info.items|
  {
    hide *;
    ShortFacts(info);
    OpensContents(info.items, info.points);
    ContentsStore(info.items, info.points);
    var shape := OpenBlock(contents).value;
    it := new Iter(lt, contents, shape.0, shape.1, info.items, info.points);
  }

  lemma ShortFacts(info: BlockInfo)
    requires Short(info)
    ensures ItemsOk(info.items) && PointsOk(info.items, info.points) && forall j :: 0 <= j < |info.points| ==> info.points[j] <= |info.items|
    ensures |Contents(info.items, info.points)| < WORD32
  {
  }

  lemma HeldCuts(items: seq<Item>, ps: Pairs, target: Bytes)
    requires Holds(items, ps) && SortedPairs(ps)
    ensures Cuts(KeyLess, items, target)
  {
    hide KeyLess;
    KeyLessIsTransitive();
    SortedCuts(KeyLess, items, target);
  }

  lemma HeldFirst(items: seq<Item>, ps: Pairs, target: Bytes, pos: nat)
    requires Holds(items, ps) && pos <= |items|
    requires forall k :: 0 <= k < pos ==> KeyLess(items[k].key, target)
    requires pos < |items| ==> !KeyLess(items[pos].key, target)
    ensures FirstFrom(ps, target, pos)
  {
    hide KeyLess;
  }

  /** There is a first key from a target on. */
  lemma FirstExists(ps: Pairs, target: Bytes) returns (k: nat)
    requires SortedPairs(ps) && |target| >= 8
    ensures FirstFrom(ps, target, k)
  {
    hide KeyLess;
    k := 0;
    while k < |ps| && KeyLess(ps[k].0, target)
      invariant k <= |ps| && forall j :: 0 <= j < k ==> KeyLess(ps[j].0, target)
    {
      k := k + 1;
    }
  }

  lemma IndexIsSorted(t: TableInfo)
    requires |t.seps| == |t.infos| && Separated(BlocksOf(t.infos), t.seps)
    ensures SortedPairs(IndexPairs(t.seps, t.infos))
  {
    hide KeyLess;
  }

  // ----- the parts of a table

  lemma TableOrderOk(file: Bytes, t: TableInfo)
    requires IsReadable(file, t)
    ensures |t.seps| == |t.infos| && Separated(BlocksOf(t.infos), t.seps) && Tight(BlocksOf(t.infos), t.seps)
    ensures SortedPairs(t.index.pairs) && t.index.pairs == IndexPairs(t.seps, t.infos)
  {
    hide InFile, HasFilter, HasFooter, Chained, Separated, Tight, Short, SortedPairs, Ascending;
    ChainSeparates(BlocksOf(t.infos), t.seps);
    IndexIsSorted(t);
  }

  lemma BlockIn(file: Bytes, t: TableInfo, b: nat)
    requires IsReadable(file, t) && b < |t.infos|
    ensures var info := t.infos[b];
            && Short(info) && Holds(info.items, info.pairs) && Stored(file, info.handle, Contents(info.items, info.points))
            && IsHandle(info.handle)
  {
    hide Stored, Holds, HasFilter, HasFooter, Chained, Contents;
    assert InFile(file, t.infos[b]);
    HandleInFile(file, t.infos[b].handle, Contents(t.infos[b].items, t.infos[b].points));
  }

  lemma HandleInFile(file: Bytes, h: BlockHandle, contents: Bytes)
    requires Stored(file, h, contents) && |file| < LONG
    ensures IsHandle(h)
  {
  }

  lemma IndexIn(file: Bytes, t: TableInfo)
    requires IsReadable(file, t)
    ensures Short(t.index) && Holds(t.index.items, t.index.pairs) && Stored(file, t.index.handle, Contents(t.index.items, t.index.points))
    ensures Short(t.meta) && Holds(t.meta.items, t.meta.pairs) && Stored(file, t.meta.handle, Contents(t.meta.items, t.meta.points))
    ensures IsHandle(t.index.handle) && IsHandle(t.meta.handle) && HasFooter(file, t.meta.handle, t.index.handle)
    ensures t.meta.pairs == MetaPairs(t.filter) && (t.filter.Some? ==> HasFilter(file, t.infos, t.filter.value) && IsHandle(t.filter.value.handle))
  {
    hide Stored, Holds, Chained, Contents, HasFooter, FilterBlock.FilterContents, CoversBlocks;
    HandleInFile(file, t.index.handle, Contents(t.index.items, t.index.points));
    HandleInFile(file, t.meta.handle, Contents(t.meta.items, t.meta.points));
    if t.filter.Some? {
      var f := t.filter.value;
      HandleInFile(file, f.handle, FilterBlock.FilterContents(f.filters, f.at));
    }
  }

  class Table {
    const file: Bytes
    const verifyChecksums: bool
    const indexBlock: Bytes
    /** The filter policy and the filter block, if both are there. */
    const filter: Option<(Bloom.Policy, Bytes)>
    ghost const info: TableInfo

    ghost predicate Valid() {
      && IsReadable(file, info) && indexBlock == Contents(info.index.items, info.index.points)
      && (filter.Some? ==>
            && info.filter.Some? && filter.value.0 == info.filter.value.policy
            && filter.value.1 == FilterBlock.FilterContents(info.filter.value.filters, info.filter.value.at))
    }

    constructor (file: Bytes, verifyChecksums: bool, indexBlock: Bytes, filter: Option<(Bloom.Policy, Bytes)>, ghost info: TableInfo)
      ensures this.file == file && this.verifyChecksums == verifyChecksums && this.indexBlock == indexBlock
      ensures this.filter == filter && this.info == info
    {
      this.file := file;
      this.verifyChecksums := verifyChecksums;
      this.indexBlock := indexBlock;
      this.filter := filter;
      this.info := info;
    }

    /** The index entries and the entries they stand for. */
    ghost function All(): Pairs {
      Entries(info)
    }

    /** BlockReader: the iterator over the block whose handle the index gives. */
    method BlockReader(indexValue: Bytes, ghost b: nat) returns (it: Iter)
      requires Valid() && b < |info.infos| && indexValue == EncodeHandle(info.infos[b].handle)
      ensures fresh(it) && it.Ok() && Holds(it.items, info.infos[b].pairs) && it.lt == KeyLess && it.pos == |it.items|
    {
      hide *;
      Readable();
      BlockIn(file, info, b);
      var handle := HandleOf(indexValue, info.infos[b].handle);
      var contents := ReadBlock(file, handle, verifyChecksums);
      it := NewIterator(contents.value, KeyLess, info.infos[b]);
    }

    lemma Readable()
      requires Valid()
      ensures IsReadable(file, info) && indexBlock == Contents(info.index.items, info.index.points)
      ensures All() == Flat(BlocksOf(info.infos))
    {
      hide IsReadable;
    }

    /** The iterator over the index. */
    method IndexIterator() returns (it: Iter)
      requires Valid()
      ensures fresh(it) && it.Ok() && Holds(it.items, info.index.pairs) && it.lt == KeyLess && it.pos == |it.items|
    {
      hide *;
      Readable();
      IndexIn(file, info);
      it := NewIterator(indexBlock, KeyLess, info.index);
    }

    /** What a lookup of `k` hands back: nothing, or the first entry from `k` on; and that
        entry whenever it has the user key of `k`. */
    ghost predicate Answers(k: Bytes, r: Option<(Bytes, Bytes)>)
      requires |k| >= 8
    {
      forall n: nat {:trigger FirstFrom(All(), k, n)} :: FirstFrom(All(), k, n) ==>
        && (r.Some? ==> n < |All()| && r.value == All()[n])
        && (n < |All()| && |All()[n].0| >= 8 && ExtractUserKey(All()[n].0) == ExtractUserKey(k) ==> r == Some(All()[n]))
    }

    /** InternalGet: the index leads to one block, whose filter may rule the key out. */
    method InternalGet(k: Bytes) returns (r: Option<(Bytes, Bytes)>)
      requires Valid() && |k| >= 8
      ensures Answers(k, r)
    {
      hide *;
      Readable();
      TableOrderOk(file, info);
      ghost var blocks := BlocksOf(info.infos);
      var iiter := IndexIterator();
      HeldCuts(iiter.items, info.index.pairs, k);
      iiter.Seek(k);
      iiter.InRange();
      HeldFirst(iiter.items, info.index.pairs, k, iiter.pos);
      ghost var b := iiter.pos;
      HeldCount(iiter.items, info.index.pairs);
      IndexSeeks(info, k, b);
      r := None;
      var valid := iiter.Valid();
      if valid {
        var indexKey, handleValue := iiter.Current();
        HeldAt(iiter.items, info.index.pairs, b);
        BlockSorted(blocks, info.seps, b);
        ghost var i := FirstExists(blocks[b], k);
        MakeLands(blocks, info.seps, k, b, i);
        var maybe := FilterAllows(handleValue, k, b);
        if maybe {
          var it := BlockReader(handleValue, b);
          HeldCuts(it.items, blocks[b], k);
          it.Seek(k);
          it.InRange();
          HeldCount(it.items, blocks[b]);
          HeldFirst(it.items, blocks[b], k, it.pos);
          var found := it.Valid();
          if found {
            var key, value := it.Current();
            HeldAt(it.items, blocks[b], it.pos);
            r := Some((key, value));
          }
          MakeLands(blocks, info.seps, k, b, it.pos);
          BlockAnswers(k, b, it.pos, r);
        } else {
          NoneAnswers(k, b, i);
        }
      } else {
        EndAnswers(k, b);
      }
    }

    /** The filter's part of InternalGet. A "no" means that the block has no entry of the
        key's user key. */
    method FilterAllows(handleValue: Bytes, k: Bytes, ghost b: nat) returns (maybe: bool)
      requires Valid() && |k| >= 8 && b < |info.infos| && handleValue == EncodeHandle(info.infos[b].handle)
      ensures maybe <==> filter.Some? ==> FilterBlock.MayMatchAt(filter.value.0, filter.value.1, info.infos[b].handle.offset, k)
      ensures !maybe ==> forall j :: 0 <= j < |info.infos[b].pairs| && |info.infos[b].pairs[j].0| >= 8 ==>
                           ExtractUserKey(info.infos[b].pairs[j].0) != ExtractUserKey(k)
    {
      hide *;
      maybe := true;
      if filter.Some? {
        Readable();
        BlockIn(file, info, b);
        var handle := HandleOf(handleValue, info.infos[b].handle);
        maybe := FilterBlock.KeyMayMatch(filter.value.0, filter.value.1, handle.offset, k);
        if !maybe {
          forall j | 0 <= j < |info.infos[b].pairs| && |info.infos[b].pairs[j].0| >= 8
            ensures ExtractUserKey(info.infos[b].pairs[j].0) != ExtractUserKey(k)
          {
            if ExtractUserKey(info.infos[b].pairs[j].0) == ExtractUserKey(k) {
              FilterKnows(k, b, j);
            }
          }
        }
      }
    }

    lemma FilterKnows(k: Bytes, b: nat, j: nat)
      requires Valid() && filter.Some? && |k| >= 8 && b < |info.infos| && j < |info.infos[b].pairs|
      requires |info.infos[b].pairs[j].0| >= 8 && ExtractUserKey(info.infos[b].pairs[j].0) == ExtractUserKey(k)
      ensures FilterBlock.MayMatchAt(filter.value.0, filter.value.1, info.infos[b].handle.offset, k)
    {
      hide IsTable, FilterBlock.MayMatchAt, FilterBlock.FilterContents, FilterBlock.AllFilter, FilterBlock.Begins, Stored;
      IndexIn(file, info);
      var f := info.filter.value;
      assert CoversAll(f.groups, [], info.infos[b].handle.offset, info.infos[b].pairs);
      assert Covers(f.groups, [], info.infos[b].handle.offset, info.infos[b].pairs[j].0);
      FilterBlock.NeverHides(f.policy, f.groups, f.filters, f.at, info.infos[b].handle.offset, info.infos[b].pairs[j].0, k);
    }

    /** A lookup in the block that the index led to. */
    lemma BlockAnswers(k: Bytes, b: nat, i: nat, r: Option<(Bytes, Bytes)>)
      requires IsReadable(file, info) && |k| >= 8 && b < |info.infos|
      requires Separated(BlocksOf(info.infos), info.seps) && Tight(BlocksOf(info.infos), info.seps)
      requires Lands(BlocksOf(info.infos), info.seps, k, b, i) && i <= |info.infos[b].pairs|
      requires r == if i < |info.infos[b].pairs| then Some(info.infos[b].pairs[i]) else None
      ensures Answers(k, r)
    {
      hide IsReadable, Separated, Tight, Lands, Flat, KeyLess, FirstFrom, Ends;
      var blocks := BlocksOf(info.infos);
      SeekLands(blocks, info.seps, k, b, i);
      forall n: nat | FirstFrom(All(), k, n)
        ensures r.Some? ==> n < |All()| && r.value == All()[n]
        ensures n < |All()| && |All()[n].0| >= 8 && ExtractUserKey(All()[n].0) == ExtractUserKey(k) ==> r == Some(All()[n])
      {
        OneFirst(All(), k, n, Ends(blocks, b) + i);
        if i < |blocks[b]| {
          FlatElem(blocks, b, i);
        } else if n < |All()| {
          GapHasNoUserKey(blocks, info.seps, k, b, i, n);
        }
      }
    }

    /** The filter said no. */
    lemma NoneAnswers(k: Bytes, b: nat, i: nat)
      requires IsReadable(file, info) && |k| >= 8 && b < |info.infos|
      requires Separated(BlocksOf(info.infos), info.seps) && Tight(BlocksOf(info.infos), info.seps)
      requires Lands(BlocksOf(info.infos), info.seps, k, b, i) && i <= |info.infos[b].pairs|
      requires forall j :: 0 <= j < |info.infos[b].pairs| && |info.infos[b].pairs[j].0| >= 8 ==>
                 ExtractUserKey(info.infos[b].pairs[j].0) != ExtractUserKey(k)
      ensures Answers(k, None)
    {
      hide IsReadable, Separated, Tight, Lands, Flat, KeyLess, FirstFrom, Ends;
      var blocks := BlocksOf(info.infos);
      SeekLands(blocks, info.seps, k, b, i);
      forall n: nat | FirstFrom(All(), k, n)
        ensures !(n < |All()| && |All()[n].0| >= 8 && ExtractUserKey(All()[n].0) == ExtractUserKey(k))
      {
        OneFirst(All(), k, n, Ends(blocks, b) + i);
        if i < |blocks[b]| {
          FlatElem(blocks, b, i);
        } else if n < |All()| {
          GapHasNoUserKey(blocks, info.seps, k, b, i, n);
        }
      }
    }

    /** The index ended: all keys are before the target. */
    lemma EndAnswers(k: Bytes, b: nat)
      requires IsReadable(file, info) && |k| >= 8 && b == |info.infos|
      requires Separated(BlocksOf(info.infos), info.seps) && Lands(BlocksOf(info.infos), info.seps, k, b, 0)
      ensures Answers(k, None)
    {
      hide IsReadable, Separated, Lands, Flat, KeyLess, FirstFrom, Ends;
      var blocks := BlocksOf(info.infos);
      SeekLands(blocks, info.seps, k, b, 0);
      EndsGrow(blocks, b, b);
      forall n: nat | FirstFrom(All(), k, n)
        ensures n == |All()|
      {
        OneFirst(All(), k, n, Ends(blocks, b));
      }
    }
  }

  lemma BlockSorted(blocks: seq<Pairs>, seps: seq<Bytes>, b: nat)
    requires Separated(blocks, seps) && b < |blocks|
    ensures SortedPairs(blocks[b])
  {
  }

  /** What seeking in the index finds. */
  lemma IndexSeeks(t: TableInfo, k: Bytes, b: nat)
    requires |t.seps| == |t.infos| && t.index.pairs == IndexPairs(t.seps, t.infos) && FirstFrom(t.index.pairs, k, b)
    ensures b <= |t.infos| == |BlocksOf(t.infos)| && (forall c :: 0 <= c < b ==> KeyLess(t.seps[c], k))
    ensures b < |t.infos| ==> !KeyLess(t.seps[b], k) && t.index.pairs[b].1 == EncodeHandle(t.infos[b].handle)
    ensures b < |t.infos| ==> BlocksOf(t.infos)[b] == t.infos[b].pairs
    ensures b == |t.infos| ==> Lands(BlocksOf(t.infos), t.seps, k, b, 0)
  {
    hide KeyLess, EncodeHandle;
    forall c | 0 <= c < b
      ensures KeyLess(t.seps[c], k)
    {
      assert t.index.pairs[c].0 == t.seps[c];
    }
  }

  lemma MakeLands(blocks: seq<Pairs>, seps: seq<Bytes>, k: Bytes, b: nat, i: nat)
    requires |seps| == |blocks| && b < |blocks| && (forall c :: 0 <= c < b ==> KeyLess(seps[c], k)) && !KeyLess(seps[b], k)
    requires FirstFrom(blocks[b], k, i)
    ensures Lands(blocks, seps, k, b, i) && i <= |blocks[b]|
  {
  }

  method HandleOf(indexValue: Bytes, ghost h: BlockHandle) returns (handle: BlockHandle)
    requires IsHandle(h) && indexValue == EncodeHandle(h)
    ensures handle == h
  {
    hide EncodeHandle, ParseHandle;
    HandleRoundTrip(h, []);
    assert EncodeHandle(h) + [] == EncodeHandle(h);
    var r := DecodeHandle(indexValue);
    handle := r.value.0;
  }

  // ----- opening

  /** Table::Open: from the footer to the index block and, by way of the metaindex
      block, to the filters. */
  method Open(file: Bytes, policy: Option<Bloom.Policy>, paranoidChecks: bool, verifyChecksums: bool, ghost t: TableInfo)
    returns (table: Table)
    requires IsReadable(file, t) && (policy.Some? && t.filter.Some? ==> policy.value == t.filter.value.policy)
    ensures table.Valid() && table.file == file && table.info == t
    ensures table.filter.Some? <==> policy.Some? && t.filter.Some?
  {
    hide *;
    IndexIn(file, t);
    FooterIn(file, t.meta.handle, t.index.handle);
    var footer := DecodeFooter(file[|file| - FOOTER_SIZE..]);
    var metaHandle, indexHandle := footer.value.0, footer.value.1;
    var indexBlock := ReadBlock(file, indexHandle, paranoidChecks);
    var filter := ReadMeta(file, metaHandle, policy, paranoidChecks, t);
    table := new Table(file, verifyChecksums, indexBlock.value, filter, t);
    MakeTableValid(table);
  }

  lemma FooterIn(file: Bytes, meta: BlockHandle, index: BlockHandle)
    requires HasFooter(file, meta, index) && IsHandle(meta) && IsHandle(index)
    ensures |file| >= FOOTER_SIZE && ParseFooter(file[|file| - FOOTER_SIZE..]) == Some((meta, index))
  {
    hide EncodeFooter, ParseFooter;
    FooterRoundTrip(meta, index);
  }

  lemma MakeTableValid(table: Table)
    requires IsReadable(table.file, table.info) && table.indexBlock == Contents(table.info.index.items, table.info.index.points)
    requires table.filter.Some? ==> IsFilterOf(table.info, table.filter.value.0, table.filter.value.1)
    ensures table.Valid()
  {
    hide IsReadable;
  }

  /** The policy and the filter block of a table that has filters. */
  ghost predicate IsFilterOf(t: TableInfo, policy: Bloom.Policy, contents: Bytes) {
    && t.filter.Some? && policy == t.filter.value.policy
    && contents == FilterBlock.FilterContents(t.filter.value.filters, t.filter.value.at)
  }

  /** ReadMeta and ReadFilter: look the filter block up in the metaindex block. */
  method ReadMeta(file: Bytes, metaHandle: BlockHandle, policy: Option<Bloom.Policy>, paranoidChecks: bool, ghost t: TableInfo)
    returns (filter: Option<(Bloom.Policy, Bytes)>)
    requires IsReadable(file, t) && metaHandle == t.meta.handle
    requires policy.Some? && t.filter.Some? ==> policy.value == t.filter.value.policy
    ensures filter.Some? <==> policy.Some? && t.filter.Some?
    ensures filter.Some? ==> IsFilterOf(t, filter.value.0, filter.value.1)
  {
    hide *;
    if policy.None? {
      return None;
    }
    IndexIn(file, t);
    var contents := ReadBlock(file, metaHandle, paranoidChecks);
    var it := NewIterator(contents.value, Less, t.meta);
    MetaShape(t);
    HeldCount(it.items, t.meta.pairs);
    OneItemCuts(it.items, FilterKey());
    it.Seek(FilterKey());
    it.InRange();
    SeekFindsOne(it.items, t.meta.pairs, FilterKey(), it.pos);
    filter := None;
    var valid := it.Valid();
    if valid {
      var key, value := it.Current();
      HeldAt(it.items, t.meta.pairs, it.pos);
      if key == FilterKey() {
        var handle := HandleOf(value, t.filter.value.handle);
        FilterIn(file, t);
        var block := ReadBlock(file, handle, paranoidChecks);
        filter := Some((policy.value, block.value));
        MakeFilterOf(t, policy.value, block.value);
      }
    }
  }

  lemma MetaShape(t: TableInfo)
    requires t.meta.pairs == MetaPairs(t.filter)
    ensures if t.filter.Some? then t.meta.pairs == [(FilterKey(), EncodeHandle(t.filter.value.handle))] else t.meta.pairs == []
  {
  }

  lemma OneItemCuts(items: seq<Item>, target: Bytes)
    requires |items| <= 1
    ensures Cuts(Less, items, target)
  {
  }

  /** Seeking a key that is the only one finds it. */
  lemma SeekFindsOne(items: seq<Item>, ps: Pairs, target: Bytes, pos: nat)
    requires Holds(items, ps) && |ps| <= 1 && (|ps| == 1 ==> ps[0].0 == target) && pos <= |items|
    requires forall k :: 0 <= k < pos ==> Less(items[k].key, target)
    ensures pos == 0
  {
    LessIsTotal(target, target);
  }

  lemma FilterIn(file: Bytes, t: TableInfo)
    requires IsReadable(file, t) && t.filter.Some?
    ensures Stored(file, t.filter.value.handle, FilterBlock.FilterContents(t.filter.value.filters, t.filter.value.at))
  {
    hide Stored, FilterBlock.FilterContents;
  }

  lemma MakeFilterOf(t: TableInfo, policy: Bloom.Policy, contents: Bytes)
    requires t.filter.Some? && policy == t.filter.value.policy
    requires contents == FilterBlock.FilterContents(t.filter.value.filters, t.filter.value.at)
    ensures IsFilterOf(t, policy, contents)
  {
  }
}
