/** The iterator over a whole table (`table/two_level_iterator.cc`): one iterator over
    the index, one over the block it stands on, and loops that skip empty blocks. */
module TwoLevel {
  import opened Block
  import Bloom
  import opened BlockReader
  import opened Comparator
  import opened Concat
  import FilterBlock
  import opened Keys
  import opened Table
  import opened TableBuilder
  import opened TableFormat
  import opened TableOrder

  lemma EndsAt(blocks: seq<Pairs>, b: nat)
    requires b < |blocks|
    ensures Ends(blocks, b) + |blocks[b]| == Ends(blocks, b + 1) <= |Flat(blocks)|
    ensures Ends(blocks, |blocks|) == |Flat(blocks)| && Ends(blocks, 0) == 0
    ensures forall j :: 0 <= j < |blocks[b]| ==> Flat(blocks)[Ends(blocks, b) + j] == blocks[b][j]
  {
    hide Flat;
    FlatAt(blocks, b);
    FlatNext(blocks, b);
    EndsGrow(blocks, b, b + 1);
    forall j | 0 <= j < |blocks[b]|
      ensures Flat(blocks)[Ends(blocks, b) + j] == blocks[b][j]
    {
      FlatElem(blocks, b, j);
    }
  }

  lemma NoBlocks(blocks: seq<Pairs>)
    ensures Ends(blocks, |blocks|) == |Flat(blocks)| && Ends(blocks, 0) == 0
  {
    EndsGrow(blocks, |blocks|, |blocks|);
    assert blocks[..0] == [];
  }

  /** Handles of a table that are encoded alike are of the same block. */
  lemma SameBlock(file: Bytes, t: TableInfo, a: nat, b: nat)
    requires IsReadable(file, t) && a < |t.infos| && b < |t.infos|
    requires EncodeHandle(t.infos[a].handle) == EncodeHandle(t.infos[b].handle)
    ensures a == b
  {
    hide EncodeHandle, Chained, HasFilter, HasFooter, InFile, Short;
    BlockIn(file, t, a);
    BlockIn(file, t, b);
    HandleDecides(t.infos[a].handle, t.infos[b].handle);
    assert Ascending(file, t.infos);
  }

  class TwoLevelIterator {
    const table: Table
    const indexIter: Iter
    var dataIter: Iter?
    var dataBlockHandle: Bytes
    /** The block `dataIter` is over. */
    ghost var block: nat

    ghost function Blocks(): seq<Pairs> {
      BlocksOf(table.info.infos)
    }

    ghost function All(): Pairs {
      Flat(Blocks())
    }

    ghost predicate IndexOk()
      reads indexIter
    {
      && table.Valid() && indexIter.Ok() && indexIter.lt == KeyLess
      && Holds(indexIter.items, table.info.index.pairs) && |indexIter.items| == |table.info.infos| && indexIter.pos <= |indexIter.items|
    }

    ghost predicate DataOk()
      reads this, if dataIter == null then {} else {dataIter}
    {
      dataIter != null ==>
        && dataIter != indexIter && dataIter.Ok() && dataIter.lt == KeyLess && dataIter.pos <= |dataIter.items|
        && block < |table.info.infos| && dataBlockHandle == EncodeHandle(table.info.infos[block].handle)
        && Holds(dataIter.items, Blocks()[block]) && |dataIter.items| == |Blocks()[block]|
    }

    /** The index stands on the block of the data iterator, or there is none. */
    ghost predicate Together()
      reads this, indexIter, if dataIter == null then {} else {dataIter}
    {
      && IndexOk() && DataOk()
      && indexIter.pos == if dataIter == null then |table.info.infos| else block
    }

    ghost predicate DataValid()
      reads this, if dataIter == null then {} else {dataIter}
    {
      dataIter != null && dataIter.pos < |dataIter.items|
    }

    /** Between calls: on an entry, or without a block. */
    ghost predicate Ok()
      reads this, indexIter, if dataIter == null then {} else {dataIter}
    {
      Together() && (dataIter != null ==> DataValid())
    }

    /** The place of the entry in the whole table; past the end when there is none. */
    ghost function Pos(): nat
      reads this, if dataIter == null then {} else {dataIter}
    {
      if dataIter == null || block >= |Blocks()| then |All()| else Ends(Blocks(), block) + dataIter.pos
    }

    /** One more than the place of the entry, when a block is gone through backwards. */
    ghost function Behind(): nat
      reads this, if dataIter == null then {} else {dataIter}
    {
      if dataIter == null || block >= |Blocks()| then 0 else Ends(Blocks(), block) + if dataIter.pos < |dataIter.items| then dataIter.pos + 1 else 0
    }

    constructor (table: Table)
      requires table.Valid()
      ensures Ok() && this.table == table && dataIter == null && fresh(indexIter) && Pos() == |All()|
    {
      hide *;
      var it := table.IndexIterator();
      this.table := table;
      indexIter := it;
      dataIter, dataBlockHandle, block := null, [], 0;
      new;
      TableFacts(table);
      HeldCount(indexIter.items, table.info.index.pairs);
      MakeStart();
    }

    lemma MakeStart()
      requires table.Valid() && indexIter.Ok() && indexIter.lt == KeyLess && Holds(indexIter.items, table.info.index.pairs)
      requires |indexIter.items| == |table.info.infos| && indexIter.pos == |indexIter.items| && dataIter == null
      ensures Ok() && Pos() == |All()|
    {
      hide IsReadable, Holds;
    }

    method Valid() returns (b: bool)
      requires Ok()
      ensures b <==> Pos() < |All()|
    {
      hide *;
      OkFacts();
      b := dataIter != null;
    }

    lemma OkFacts()
      requires Ok()
      ensures dataIter != null <==> Pos() < |All()|
      ensures Together()
      ensures dataIter != null ==> dataIter.Ok() && dataIter.pos < |dataIter.items| && DataValid()
      ensures dataIter != null ==> Holds(dataIter.items, Blocks()[block]) && |dataIter.items| == |Blocks()[block]| && block < |Blocks()|
      ensures dataIter != null ==> Pos() == Ends(Blocks(), block) + dataIter.pos && All() == Flat(Blocks())
    {
      hide Flat, Ends, Holds;
      if dataIter != null {
        EndsAt(Blocks(), block);
      }
    }

    lemma InRange()
      requires Ok()
      ensures Pos() <= |All()|
    {
      hide *;
      OkFacts();
      TogetherFacts();
      NoDataPos();
    }

    lemma NoDataPos()
      ensures dataIter == null ==> DataOk() && Pos() == |All()|
    {
    }

    method Current() returns (k: Bytes, value: Bytes)
      requires Ok() && Pos() < |All()|
      ensures (k, value) == All()[Pos()]
    {
      hide *;
      OkFacts();
      k, value := dataIter.Current();
      HeldAt(dataIter.items, Blocks()[block], dataIter.pos);
      FlatElem(Blocks(), block, dataIter.pos);
    }

    /** InitDataBlock: the data iterator becomes one over the block that the index stands
        on, unless it is that already. */
    method InitDataBlock()
      requires IndexOk() && DataOk()
      modifies this
      ensures Together() && indexIter.pos == old(indexIter.pos)
      ensures dataIter == null || fresh(dataIter) || dataIter == old(dataIter)
      ensures dataIter != null && dataIter == old(dataIter) ==> block == old(block) && dataIter.pos == old(dataIter.pos)
    {
      hide *;
      IndexFacts();
      var valid := indexIter.Valid();
      if !valid {
        dataIter := null;
        NoData();
        MakeTogether();
        return;
      }
      var key, handle := indexIter.Current();
      ghost var b := indexIter.pos;
      IndexEntry(b);
      DataFacts();
      if dataIter != null && handle == dataBlockHandle {
        SameBlock(table.file, table.info, block, b);
        MakeTogether();
        return;
      }
      dataIter := table.BlockReader(handle, b);
      dataBlockHandle := handle;
      block := b;
      HeldCount(dataIter.items, table.info.infos[b].pairs);
      MakeDataOk(b);
      MakeTogether();
    }

    lemma NoData()
      requires dataIter == null
      ensures DataOk() && Pos() == |All()| && Behind() == 0
    {
    }

    /** InitDataBlock, and to the first entry of the block. */
    method FirstOfBlock()
      requires IndexOk() && DataOk()
      modifies this, if dataIter == null then {} else {dataIter}
      ensures Together() && indexIter.pos == old(indexIter.pos) && Pos() == Ends(Blocks(), indexIter.pos)
      ensures dataIter == null || fresh(dataIter) || dataIter == old(dataIter)
    {
      hide *;
      InitDataBlock();
      TogetherFacts();
      DataFacts();
      if dataIter != null {
        dataIter.SeekToFirst();
        MakeData();
        MakeTogether();
      } else {
        NoData();
      }
      PosAtFirst();
    }

    /** InitDataBlock, and to the last entry of the block. */
    method LastOfBlock()
      requires IndexOk() && DataOk()
      modifies this, if dataIter == null then {} else {dataIter}
      ensures Together() && indexIter.pos == old(indexIter.pos)
      ensures Behind() == if indexIter.pos < |Blocks()| then Ends(Blocks(), indexIter.pos + 1) else 0
      ensures dataIter == null || fresh(dataIter) || dataIter == old(dataIter)
    {
      hide *;
      InitDataBlock();
      TogetherFacts();
      DataFacts();
      if dataIter != null {
        dataIter.SeekToLast();
        MakeData();
        MakeTogether();
      } else {
        NoData();
      }
      BehindAtLast();
    }

    lemma TogetherFacts()
      requires Together()
      ensures IndexOk() && DataOk() && indexIter.pos == (if dataIter == null then |table.info.infos| else block)
      ensures |Blocks()| == |table.info.infos| && indexIter.pos <= |Blocks()|
    {
      hide IsReadable, Holds, EncodeHandle;
    }

    lemma MakeData()
      requires dataIter != null && dataIter != indexIter && dataIter.Ok() && dataIter.lt == KeyLess
      requires block < |table.info.infos| && dataBlockHandle == EncodeHandle(table.info.infos[block].handle)
      requires Holds(dataIter.items, Blocks()[block]) && |dataIter.items| == |Blocks()[block]|
      ensures DataOk()
    {
      hide Holds, EncodeHandle;
      dataIter.InRange();
    }

    lemma PosAtFirst()
      requires Together() && (dataIter != null ==> dataIter.pos == 0)
      ensures Pos() == Ends(Blocks(), indexIter.pos)
    {
      hide IsReadable, Holds, EncodeHandle, Flat, Ends;
      NoBlocks(Blocks());
    }

    lemma BehindAtLast()
      requires Together() && (dataIter != null ==> dataIter.pos == if |dataIter.items| == 0 then 0 else |dataIter.items| - 1)
      ensures indexIter.pos <= |Blocks()|
      ensures Behind() == if indexIter.pos < |Blocks()| then Ends(Blocks(), indexIter.pos + 1) else 0
    {
      hide *;
      TogetherFacts();
      DataFacts();
      if dataIter != null {
        EndsAt(Blocks(), block);
        PosIs();
      } else {
        NoData();
      }
    }

    method DataIterValid() returns (b: bool)
      requires DataOk()
      ensures b <==> DataValid()
    {
      hide *;
      DataFacts();
      b := false;
      if dataIter != null {
        b := dataIter.Valid();
      }
      DataValidIs();
    }

    lemma DataValidIs()
      ensures DataValid() <==> dataIter != null && dataIter.pos < |dataIter.items|
    {
    }

    /** SkipEmptyDataBlocksForward: on to the first entry that is not in front of where
        the iterator stands. */
    method SkipEmptyDataBlocksForward()
      requires Together()
      modifies this, indexIter, if dataIter == null then {} else {dataIter}
      ensures Ok() && Pos() == old(Pos())
      ensures dataIter == null || fresh(dataIter) || dataIter == old(dataIter)
    {
      hide *;
      TogetherFacts();
      var done := DataIterValid();
      while !done
        invariant Together() && DataOk() && Pos() == old(Pos()) && (done <==> DataValid())
        invariant dataIter == null || fresh(dataIter) || dataIter == old(dataIter)
        decreases |table.info.infos| - indexIter.pos
      {
        TogetherFacts();
        IndexFacts();
        DataFacts();
        DataValidIs();
        var valid := indexIter.Valid();
        if !valid {
          dataIter := null;
          MakeOk();
          return;
        }
        BlockDone();
        indexIter.Next();
        MakeIndex();
        FirstOfBlock();
        TogetherFacts();
        done := DataIterValid();
      }
      MakeOk();
    }

    /** At the end of a block: the next entry is the first of the next block. */
    lemma BlockDone()
      requires Together() && DataOk() && !DataValid() && indexIter.pos < |table.info.infos|
      ensures dataIter != null && indexIter.pos + 1 <= |Blocks()| && Pos() == Ends(Blocks(), indexIter.pos + 1)
    {
      hide *;
      TogetherFacts();
      DataFacts();
      DataValidIs();
      PosIs();
      EndsAt(Blocks(), block);
    }

    lemma MakeIndex()
      requires table.Valid() && indexIter.Ok() && indexIter.lt == KeyLess && Holds(indexIter.items, table.info.index.pairs)
      requires |indexIter.items| == |table.info.infos|
      ensures IndexOk()
    {
      hide IsReadable, Holds;
      indexIter.InRange();
    }

    lemma MakeOk()
      requires Together() && (dataIter != null ==> DataValid())
      ensures Ok()
    {
      hide Together, DataValid;
    }

    /** SkipEmptyDataBlocksBackward: back to the last entry in front. */
    method SkipEmptyDataBlocksBackward()
      requires Together()
      modifies this, indexIter, if dataIter == null then {} else {dataIter}
      ensures Ok() && Pos() == if old(Behind()) == 0 then |All()| else old(Behind()) - 1
      ensures dataIter == null || fresh(dataIter) || dataIter == old(dataIter)
    {
      hide *;
      TogetherFacts();
      var done := DataIterValid();
      while !done
        invariant Together() && DataOk() && Behind() == old(Behind()) && (done <==> DataValid())
        invariant dataIter == null || fresh(dataIter) || dataIter == old(dataIter)
        decreases if indexIter.pos < |table.info.infos| then indexIter.pos + 1 else 0
      {
        TogetherFacts();
        IndexFacts();
        DataFacts();
        DataValidIs();
        var valid := indexIter.Valid();
        if !valid {
          dataIter := null;
          NoData();
          MakeOk();
          BehindIs();
          return;
        }
        BlockBegun();
        indexIter.Prev();
        MakeIndex();
        LastOfBlock();
        TogetherFacts();
        done := DataIterValid();
      }
      MakeOk();
      BehindIs();
    }

    /** In front of the first entry of a block. */
    lemma BlockBegun()
      requires Together() && DataOk() && !DataValid() && indexIter.pos < |table.info.infos|
      ensures dataIter != null && indexIter.pos <= |Blocks()| && Behind() == Ends(Blocks(), indexIter.pos)
      ensures Ends(Blocks(), 0) == 0
    {
      hide IsReadable, Holds, EncodeHandle, Flat, Ends;
      NoBlocks(Blocks());
    }

    lemma BehindIs()
      requires Ok()
      ensures Pos() == if Behind() == 0 then |All()| else Behind() - 1
    {
      hide IsReadable, Holds, EncodeHandle, Flat, Ends;
    }

    method SeekToFirst()
      requires Ok()
      modifies this, indexIter, if dataIter == null then {} else {dataIter}
      ensures Ok() && Pos() == 0 && (dataIter == null || fresh(dataIter) || dataIter == old(dataIter))
    {
      hide *;
      OkFacts();
      TogetherFacts();
      IndexFacts();
      DataFacts();
      indexIter.SeekToFirst();
      MakeIndex();
      FirstOfBlock();
      NoBlocks(Blocks());
      SkipEmptyDataBlocksForward();
    }

    method SeekToLast()
      requires Ok()
      modifies this, indexIter, if dataIter == null then {} else {dataIter}
      ensures Ok() && Pos() == (if |All()| == 0 then 0 else |All()| - 1)
      ensures dataIter == null || fresh(dataIter) || dataIter == old(dataIter)
    {
      hide *;
      OkFacts();
      TogetherFacts();
      IndexFacts();
      DataFacts();
      indexIter.SeekToLast();
      MakeIndex();
      LastOfBlock();
      AllIs();
      NoBlocks(Blocks());
      SkipEmptyDataBlocksBackward();
    }

    lemma AllIs()
      ensures All() == Flat(Blocks()) && Blocks() == BlocksOf(table.info.infos) && |Blocks()| == |table.info.infos|
    {
    }

    /** Next. */
    method Next()
      requires Ok() && Pos() < |All()|
      modifies this, indexIter, if dataIter == null then {} else {dataIter}
      ensures Ok() && Pos() == old(Pos()) + 1 && (dataIter == null || fresh(dataIter) || dataIter == old(dataIter))
    {
      hide *;
      OkFacts();
      TogetherFacts();
      DataFacts();
      PosIs();
      dataIter.Next();
      MakeData();
      MakeTogether();
      PosIs();
      SkipEmptyDataBlocksForward();
    }

    lemma PosIs()
      requires DataOk() && dataIter != null
      ensures Pos() == Ends(Blocks(), block) + dataIter.pos
      ensures Behind() == Ends(Blocks(), block) + if dataIter.pos < |dataIter.items| then dataIter.pos + 1 else 0
    {
      hide Holds, EncodeHandle, Ends;
    }

    /** Prev. */
    method Prev()
      requires Ok() && Pos() < |All()|
      modifies this, indexIter, if dataIter == null then {} else {dataIter}
      ensures Ok() && Pos() == (if old(Pos()) == 0 then |All()| else old(Pos()) - 1)
      ensures dataIter == null || fresh(dataIter) || dataIter == old(dataIter)
    {
      hide *;
      OkFacts();
      TogetherFacts();
      DataFacts();
      PosIs();
      dataIter.Prev();
      MakeData();
      MakeTogether();
      PosIs();
      SkipEmptyDataBlocksBackward();
    }

    /** Seek: to the first entry from the target on. */
    method Seek(target: Bytes)
      requires Ok() && |target| >= 8
      modifies this, indexIter, if dataIter == null then {} else {dataIter}
      ensures Ok() && FirstFrom(All(), target, Pos()) && (dataIter == null || fresh(dataIter) || dataIter == old(dataIter))
    {
      hide *;
      OkFacts();
      TogetherFacts();
      IndexFacts();
      DataFacts();
      AllIs();
      TableOrderOk(table.file, table.info);
      HeldCuts(indexIter.items, table.info.index.pairs, target);
      indexIter.Seek(target);
      indexIter.InRange();
      HeldFirst(indexIter.items, table.info.index.pairs, target, indexIter.pos);
      IndexSeeks(table.info, target, indexIter.pos);
      MakeIndex();
      InitDataBlock();
      TogetherFacts();
      DataFacts();
      if dataIter != null {
        BlockSorted(Blocks(), table.info.seps, block);
        HeldCuts(dataIter.items, Blocks()[block], target);
        dataIter.Seek(target);
        dataIter.InRange();
        HeldFirst(dataIter.items, Blocks()[block], target, dataIter.pos);
        MakeLands(Blocks(), table.info.seps, target, block, dataIter.pos);
        SeekLands(Blocks(), table.info.seps, target, block, dataIter.pos);
        MakeData();
        MakeTogether();
        PosIs();
      } else {
        SeekLands(Blocks(), table.info.seps, target, |Blocks()|, 0);
        NoBlocks(Blocks());
        NoData();
      }
      SkipEmptyDataBlocksForward();
    }

    lemma IndexFacts()
      requires IndexOk()
      ensures table.Valid() && IsReadable(table.file, table.info) && indexIter.Ok() && indexIter.lt == KeyLess
      ensures Holds(indexIter.items, table.info.index.pairs) && |indexIter.items| == |table.info.infos| && indexIter.pos <= |indexIter.items|
    {
      hide IsReadable, Holds;
    }

    /** The value of an index entry is the handle of its block. */
    lemma IndexEntry(b: nat)
      requires IndexOk() && b < |indexIter.items|
      ensures b < |table.info.infos| && indexIter.items[b].value == EncodeHandle(table.info.infos[b].handle)
    {
      hide IsReadable, EncodeHandle;
      TableFacts(table);
      HeldAt(indexIter.items, table.info.index.pairs, b);
    }

    lemma DataFacts()
      requires DataOk()
      ensures dataIter != null ==>
        && dataIter != indexIter && dataIter.Ok() && dataIter.lt == KeyLess && dataIter.pos <= |dataIter.items|
        && block < |table.info.infos| && dataBlockHandle == EncodeHandle(table.info.infos[block].handle)
        && Holds(dataIter.items, Blocks()[block]) && |dataIter.items| == |Blocks()[block]|
    {
      hide Holds, EncodeHandle;
    }

    lemma MakeDataOk(b: nat)
      requires b < |table.info.infos| && dataIter != null && dataIter != indexIter && dataIter.Ok() && dataIter.lt == KeyLess && block == b
      requires dataBlockHandle == EncodeHandle(table.info.infos[b].handle) && Holds(dataIter.items, table.info.infos[b].pairs)
      requires |dataIter.items| == |table.info.infos[b].pairs|
      ensures DataOk()
    {
      hide Holds, EncodeHandle;
      dataIter.InRange();
    }

    lemma MakeTogether()
      requires IndexOk() && DataOk() && indexIter.pos == if dataIter == null then |table.info.infos| else block
      ensures Together()
    {
      hide IsReadable, Holds, EncodeHandle;
    }
  }

  lemma TableFacts(table: Table)
    requires table.Valid()
    ensures |table.info.index.pairs| == |table.info.infos| == |table.info.seps|
    ensures forall b :: 0 <= b < |table.info.infos| ==> table.info.index.pairs[b].1 == EncodeHandle(table.info.infos[b].handle)
  {
    hide EncodeHandle, Chained, HasFilter, HasFooter, InFile, Short;
  }

  // ----- a table built and scanned

  ghost predicate CanAdd(pairs: Pairs) {
    SortedPairs(pairs) && forall p :: p in pairs ==> |p.0| < WORD32 && |p.1| < WORD32
  }

  /** Builds a table from entries in increasing order. */
  method BuildTable(pairs: Pairs, blockSize: nat, interval: nat, policy: Option<Bloom.Policy>) returns (file: Bytes, ghost t: TableInfo)
    requires CanAdd(pairs) && interval >= 1 && (policy.Some? ==> Bloom.IsPolicy(policy.value))
    ensures IsTable(file, t) && Entries(t) == pairs && (t.filter.Some? <==> policy.Some?)
    ensures t.filter.Some? ==> t.filter.value.policy == policy.value
  {
    hide *;
    var builder := new TableBuilder(blockSize, interval, policy);
    for i := 0 to |pairs|
      invariant builder.Valid() && !builder.closed && builder.All() == pairs[..i]
      invariant fresh(builder) && fresh(builder.dataBlock) && fresh(builder.indexBlock)
      invariant builder.filterBlock != null ==> fresh(builder.filterBlock) && builder.filterBlock.policy == policy.value
    {
      AddNext(pairs, i);
      builder.Add(pairs[i].0, pairs[i].1);
    }
    assert pairs[..|pairs|] == pairs;
    t := builder.Finish();
    file := builder.file;
  }

  lemma AddNext(pairs: Pairs, i: nat)
    requires CanAdd(pairs) && i < |pairs|
    ensures 8 <= |pairs[i].0| < WORD32 && |pairs[i].1| < WORD32 && pairs[..i + 1] == pairs[..i] + [(pairs[i].0, pairs[i].1)]
    ensures i > 0 ==> pairs[..i] != [] && KeyLess(LastKey(pairs[..i]), pairs[i].0)
  {
    hide KeyLess;
    assert pairs[i] in pairs;
  }

  /** Scans a table from its first entry to its last: exactly the entries added. */
  method ScanTable(table: Table) returns (read: Pairs)
    requires table.Valid()
    ensures read == Entries(table.info)
  {
    hide *;
    var it := new TwoLevelIterator(table);
    it.AllIs();
    EntriesIs(table.info);
    it.SeekToFirst();
    read := [];
    var more := it.Valid();
    it.InRange();
    while more
      invariant it.Ok() && it.Pos() <= |it.All()| && (more <==> it.Pos() < |it.All()|) && read == it.All()[..it.Pos()]
      invariant fresh(it) && fresh(it.indexIter) && (it.dataIter != null ==> fresh(it.dataIter))
      decreases |it.All()| - it.Pos()
    {
      var key, value := it.Current();
      read := read + [(key, value)];
      it.Next();
      more := it.Valid();
      it.InRange();
    }
  }

  lemma EntriesIs(t: TableInfo)
    ensures Entries(t) == Flat(BlocksOf(t.infos))
  {
  }

  // ----- from the entries to the answers

  /** All blocks of a file below 4 GB are short. */
  lemma SmallFileReads(file: Bytes, t: TableInfo)
    requires IsTable(file, t) && |file| < WORD32
    ensures IsReadable(file, t)
  {
    hide Trailer, Contents, FilterBlock.FilterContents, Chained, HasFooter, Holds, ItemsOk, PointsOk;
  }

  /** A table is built, opened and scanned: what comes out is what went in. */
  method BuildAndScanTable(pairs: Pairs, blockSize: nat, interval: nat, policy: Option<Bloom.Policy>, verifyChecksums: bool)
    returns (file: Bytes, read: Pairs)
    requires CanAdd(pairs) && interval >= 1 && (policy.Some? ==> Bloom.IsPolicy(policy.value))
    ensures |file| < WORD32 ==> read == pairs
  {
    hide *;
    ghost var t;
    file, t := BuildTable(pairs, blockSize, interval, policy);
    read := [];
    if |file| < WORD32 {
      SmallFileReads(file, t);
      var table := Open(file, policy, verifyChecksums, verifyChecksums, t);
      read := ScanTable(table);
    }
  }

  /** What a lookup of `k` may hand back: the first entry from `k` on if it has the user
      key of `k`, and else that entry or nothing. */
  ghost predicate FoundIn(pairs: Pairs, k: Bytes, r: Option<(Bytes, Bytes)>)
    requires |k| >= 8
  {
    exists n: nat :: FirstFrom(pairs, k, n)
      && (r.Some? ==> n < |pairs| && r.value == pairs[n])
      && (n < |pairs| && |pairs[n].0| >= 8 && ExtractUserKey(pairs[n].0) == ExtractUserKey(k) ==> r == Some(pairs[n]))
  }

  /** A table is built, opened and asked for a key. */
  method BuildAndLookUp(pairs: Pairs, blockSize: nat, interval: nat, policy: Option<Bloom.Policy>, verifyChecksums: bool, k: Bytes)
    returns (file: Bytes, r: Option<(Bytes, Bytes)>)
    requires CanAdd(pairs) && interval >= 1 && (policy.Some? ==> Bloom.IsPolicy(policy.value)) && |k| >= 8
    ensures |file| < WORD32 ==> FoundIn(pairs, k, r)
  {
    hide *;
    ghost var t;
    file, t := BuildTable(pairs, blockSize, interval, policy);
    r := None;
    if |file| < WORD32 {
      SmallFileReads(file, t);
      var table := Open(file, policy, verifyChecksums, verifyChecksums, t);
      r := table.InternalGet(k);
      AnswerIsFound(table, pairs, k, r);
    }
  }

  lemma AnswerIsFound(table: Table, pairs: Pairs, k: Bytes, r: Option<(Bytes, Bytes)>)
    requires |k| >= 8 && CanAdd(pairs) && Entries(table.info) == pairs && table.Answers(k, r)
    ensures FoundIn(pairs, k, r)
  {
    hide KeyLess, SortedPairs, FirstFrom, ExtractUserKey;
    var n := FirstExists(pairs, k);
    assert FirstFrom(table.All(), k, n);
  }
}
