/** The stored formats byte by byte, as files written elsewhere have them: what the other
    modules read and write, with no name of theirs for a constant or a layout. */
module Formats {
  import opened Keys
  import opened Coding
  import Block
  import Comparator
  import Concat
  import Crc32c
  import FilterBlock
  import Log
  import MemTable
  import Pb
  import PbMessage
  import TableBuilder
  import TableFormat
  import VersionEdit
  import WriteBatch

  // ----- small numbers

  lemma SmallFixed(v: nat)
    requires v < 0x1_0000
    ensures Fixed(v, 4) == [v % 256, v / 256, 0, 0] && Fixed(v, 8) == [v % 256, v / 256, 0, 0, 0, 0, 0, 0]
  {
    ZeroFixed();
    assert Fixed(v / 256, 3) == [v / 256] + Fixed(0, 2) && Fixed(v / 256, 7) == [v / 256] + Fixed(0, 6);
  }

  lemma ZeroFixed()
    ensures Fixed(0, 2) == [0, 0] && Fixed(0, 6) == [0, 0, 0, 0, 0, 0]
  {
    assert Fixed(0, 4) == [0, 0, 0, 0];
  }

  lemma SmallVarint(v: nat)
    ensures v < 128 ==> Varint(v) == [v]
    ensures 128 <= v < 0x4000 ==> Varint(v) == [v % 128 + 128, v / 128]
  {
  }

  // ----- checksums

  /** A stored checksum is the CRC with its low 15 bits in front of its high 17, and a
      constant added. */
  lemma MaskRotates(high: nat, low: nat)
    requires high < 0x2_0000 && low < 0x8000
    ensures Crc32c.Mask(0x8000 * high + low) == (0x2_0000 * low + high + 0xa282_ead8) % 0x1_0000_0000
  {
  }

  /** Entry 128 of the table of the byte steps is the polynomial. */
  lemma TableEntry128()
    ensures Crc32c.ByteShift(128) == 0x82f6_3b78
  {
    hide Crc32c.Xor;
    assert Crc32c.Bits(1, 128) == 64;
    assert Crc32c.Bits(2, 128) == 32;
    assert Crc32c.Bits(3, 128) == 16;
    assert Crc32c.Bits(4, 128) == 8;
    assert Crc32c.Bits(5, 128) == 4;
    assert Crc32c.Bits(6, 128) == 2;
    assert Crc32c.Bits(7, 128) == 1;
    Crc32c.XorSelf(0x82f6_3b78);
    Crc32c.XorTwice(0x82f6_3b78, 0x82f6_3b78);
  }

  ghost function MaskedCrc(data: Bytes): (word: Bytes) {
    Crc32c.CrcIsWord(0, data);
    Fixed(Crc32c.Mask(Crc32c.Crc(Crc32c.ByteShift, 0, data)), 4)
  }

  // ----- the log (`db/log_format.h`)

  /** A physical record: the checksum of kind and payload, the length, the kind, the payload. */
  ghost function PhysicalRecord(kind: Byte, data: Bytes): Bytes {
    MaskedCrc([kind] + data) + [|data| % 256, |data| / 256 % 256] + [kind] + data
  }

  lemma HeaderIs(kind: Byte, data: Bytes)
    ensures Log.HeaderOf(kind, data) + data == PhysicalRecord(kind, data)
  {
    hide Fixed, Crc32c.Crc, Crc32c.Mask;
  }

  /** Three records of 1000, 97270 and 8000 bytes: the first is full; the second fills the
      rest of the first block, the second block, and all but six bytes of the third, which
      are zeros; the third begins the fourth block. */
  lemma ThreeRecords(a: Bytes, b: Bytes, c: Bytes)
    requires |a| == 1000 && |b| == 97270 && |c| == 8000
    ensures Log.Records(Log.HeaderOf, 0, [a, b, c])
         == PhysicalRecord(1, a)
          + (PhysicalRecord(2, b[..31754]) + (PhysicalRecord(3, b[31754..64515]) + PhysicalRecord(4, b[64515..])))
          + ([0, 0, 0, 0, 0, 0] + PhysicalRecord(1, c))
  {
    hide Log.HeaderOf, PhysicalRecord, Log.Written;
    WrittenFull(0, a);
    WrittenAcross(1007, b);
    WrittenFull(32762, c);
    var log := [a, b, c];
    assert log[..2] == [a, b] && [a, b][..1] == [a] && [a][..0] == [];
    assert Log.Records(Log.HeaderOf, 0, []) == [];
    assert Log.Records(Log.HeaderOf, 0, [a]) == PhysicalRecord(1, a);
    assert (1007 + |Log.Written(Log.HeaderOf, 1007, b, true)|) % 32768 == 32762;
  }

  lemma WrittenFull(off: nat, a: Bytes)
    requires (off == 0 && |a| == 1000) || (off == 32762 && |a| == 8000)
    ensures Log.Written(Log.HeaderOf, off, a, true) == (if off == 0 then [] else [0, 0, 0, 0, 0, 0]) + PhysicalRecord(1, a)
    ensures |Log.Written(Log.HeaderOf, off, a, true)| == if off == 0 then 1007 else 8013
  {
    hide Log.HeaderOf, PhysicalRecord;
    HeaderIs(1, a);
    assert a[..|a|] == a;
  }

  lemma WrittenAcross(off: nat, b: Bytes)
    requires off == 1007 && |b| == 97270
    ensures Log.Written(Log.HeaderOf, off, b, true)
         == PhysicalRecord(2, b[..31754]) + (PhysicalRecord(3, b[31754..64515]) + PhysicalRecord(4, b[64515..]))
    ensures |Log.Written(Log.HeaderOf, off, b, true)| == 97270 + 21
  {
    hide Log.HeaderOf, PhysicalRecord;
    HeaderIs(2, b[..31754]);
    HeaderIs(3, b[31754..64515]);
    HeaderIs(4, b[64515..]);
    var rest := b[31754..];
    assert rest[..32761] == b[31754..64515] && rest[32761..] == b[64515..];
    var last := b[64515..];
    assert last[..|last|] == last;
    assert Log.Written(Log.HeaderOf, 32768, last, false) == PhysicalRecord(4, last);
    assert Log.Written(Log.HeaderOf, 32768, rest, false) == PhysicalRecord(3, b[31754..64515]) + PhysicalRecord(4, last);
  }

  // ----- internal keys, memtable entries and batches

  /** Sequence number and type, 56 and 8 bits, behind the user key, lowest byte first. */
  lemma InternalKeyBytes()
    ensures Comparator.Encoded([97, 98], Tag(IKey(0.0, 5, Value))) == [97, 98, 1, 5, 0, 0, 0, 0, 0, 0]
    ensures Comparator.Encoded([97, 98], Tag(IKey(0.0, 5, Deletion))) == [97, 98, 0, 5, 0, 0, 0, 0, 0, 0]
    ensures MemTable.LookupKey([97], 5) == [97, 1, 5, 0, 0, 0, 0, 0, 0]
  {
    hide Fixed;
    SmallFixed(0x0501);
    SmallFixed(0x0500);
  }

  /** The tag that comes before all others of a user key. */
  lemma GreatestTag()
    ensures Fixed(Comparator.MAX_TAG, 8) == [1, 255, 255, 255, 255, 255, 255, 255]
  {
    assert Fixed(0xFFFF_FFFF_FFFF_FF01, 8) == [1, 255, 255, 255, 255, 255, 255, 255];
  }

  lemma MemTableEntryBytes()
    ensures MemTable.EncodeOp(MemTable.MemOp([97, 98], 5, Value, [118])) == [10, 97, 98, 1, 5, 0, 0, 0, 0, 0, 0, 1, 118]
    ensures MemTable.EncodeOp(MemTable.MemOp([97, 98], 5, Deletion, [])) == [10, 97, 98, 0, 5, 0, 0, 0, 0, 0, 0, 0]
  {
    hide Fixed, Varint;
    SmallFixed(0x0501);
    SmallFixed(0x0500);
    SmallVarint(10);
    SmallVarint(1);
    SmallVarint(0);
  }

  /** Number 5, two updates: a value for one key, and another key deleted. */
  lemma BatchBytes()
    ensures WriteBatch.Rep(5, [WriteBatch.Put([107], [118, 119]), WriteBatch.Delete([120])])
         == [5, 0, 0, 0, 0, 0, 0, 0, 2, 0, 0, 0, 1, 1, 107, 2, 118, 119, 0, 1, 120]
  {
    hide Fixed, WriteBatch.Records;
    SmallFixed(5);
    SmallFixed(2);
    TwoRecords();
  }

  lemma TwoRecords()
    ensures WriteBatch.Records([WriteBatch.Put([107], [118, 119]), WriteBatch.Delete([120])]) == [1, 1, 107, 2, 118, 119, 0, 1, 120]
  {
    hide Varint, WriteBatch.Records;
    SmallVarint(1);
    SmallVarint(2);
    var put, delete := WriteBatch.Put([107], [118, 119]), WriteBatch.Delete([120]);
    WriteBatch.RecordsConcat([put], [delete]);
    WriteBatch.RecordsOne(put);
    WriteBatch.RecordsOne(delete);
    assert [put] + [delete] == [put, delete];
  }

  // ----- the MANIFEST (`db/version_edit.cc`)

  lemma EditBytes()
    ensures VersionEdit.Encode(VersionEdit.Comparator([99, 109, 112])) == [1, 3, 99, 109, 112]
    ensures VersionEdit.Encode(VersionEdit.LogNumber(300)) == [2, 172, 2]
    ensures VersionEdit.Encode(VersionEdit.NextFileNumber(7)) == [3, 7]
    ensures VersionEdit.Encode(VersionEdit.LastSequence(200)) == [4, 200, 1]
    ensures VersionEdit.Encode(VersionEdit.CompactPointer(1, [107])) == [5, 1, 1, 107]
    ensures VersionEdit.Encode(VersionEdit.DeletedFile(2, 130)) == [6, 2, 130, 1]
    ensures VersionEdit.Encode(VersionEdit.NewFile(3, 8, 1000, [97], [122])) == [7, 3, 8, 232, 7, 1, 97, 1, 122]
    ensures VersionEdit.Encode(VersionEdit.PrevLogNumber(0)) == [9, 0]
  {
    hide Varint;
    SmallNumbers();
    SmallVarint(300);
    SmallVarint(200);
    SmallVarint(130);
    FileBytes();
  }

  lemma SmallNumbers()
    ensures forall v :: 0 <= v < 10 ==> Varint(v) == [v]
  {
  }

  lemma FileBytes()
    ensures VersionEdit.Encode(VersionEdit.NewFile(3, 8, 1000, [97], [122])) == [7, 3, 8, 232, 7, 1, 97, 1, 122]
  {
    hide Varint;
    SmallNumbers();
    SmallVarint(1000);
  }

  /** A field of another tag, of a level the engine does not have, or with an empty key,
      is refused. */
  lemma RefusedFields(tag: nat, n: nat, rest: Bytes)
    requires tag < 0x1_0000_0000 && n < 0x1_0000_0000
    ensures tag !in {1, 2, 3, 4, 5, 6, 7, 9} ==> VersionEdit.ParseItem(Varint(tag) + rest) == None
    ensures n >= 7 ==>
              && VersionEdit.ParseItem([5] + Varint(n) + rest) == None
              && VersionEdit.ParseItem([6] + Varint(n) + rest) == None
              && VersionEdit.ParseItem([7] + Varint(n) + rest) == None
    ensures n < 7 ==> VersionEdit.ParseItem([5] + Varint(n) + ([0] + rest)) == None
  {
    hide Varint, ParseVarint, ParseLengthPrefixed;
    Varint32RoundTrip(tag, rest);
    Varint32RoundTrip(n, rest);
    Varint32RoundTrip(n, [0] + rest);
    SmallTag(5, Varint(n) + rest);
    SmallTag(6, Varint(n) + rest);
    SmallTag(7, Varint(n) + rest);
    SmallTag(5, Varint(n) + ([0] + rest));
    assert [5] + Varint(n) + rest == [5] + (Varint(n) + rest);
    assert [6] + Varint(n) + rest == [6] + (Varint(n) + rest);
    assert [7] + Varint(n) + rest == [7] + (Varint(n) + rest);
    assert [5] + Varint(n) + ([0] + rest) == [5] + (Varint(n) + ([0] + rest));
    EmptyPrefixed(rest);
  }

  lemma SmallTag(tag: Byte, rest: Bytes)
    requires tag < 128
    ensures ParseVarint([tag] + rest, 5) == Some((tag as nat, rest))
  {
    assert ([tag] + rest)[1..] == rest;
  }

  lemma EmptyPrefixed(rest: Bytes)
    ensures ParseLengthPrefixed([0] + rest) == Some(([], rest))
  {
    assert ([0] + rest)[1..] == rest;
    assert rest[..0] == [];
  }

  // ----- tables (`table/format.cc`, `table/block_builder.cc`, `table/filter_block.cc`)

  /** The footer of a table: both handles, zeros, and the magic number. */
  lemma FooterBytes()
    ensures TableFormat.EncodeFooter(TableFormat.BlockHandle(300, 20), TableFormat.BlockHandle(5, 7))
         == [172, 2, 20, 5, 7, 0, 0, 0, 0, 0, 0, 0, 0, 0, 0, 0, 0, 0, 0, 0, 0, 0, 0, 0, 0, 0, 0, 0, 0, 0, 0, 0, 0, 0, 0, 0, 0, 0, 0, 0,
             87, 251, 128, 139, 36, 117, 71, 219]
  {
    hide Varint, Fixed;
    SmallVarint(300);
    SmallVarint(20);
    SmallVarint(5);
    SmallVarint(7);
    MagicBytes();
    var handles := TableFormat.EncodeHandle(TableFormat.BlockHandle(300, 20)) + TableFormat.EncodeHandle(TableFormat.BlockHandle(5, 7));
    assert handles == [172, 2, 20, 5, 7];
    assert TableFormat.Resized(handles)
        == [172, 2, 20, 5, 7, 0, 0, 0, 0, 0, 0, 0, 0, 0, 0, 0, 0, 0, 0, 0, 0, 0, 0, 0, 0, 0, 0, 0, 0, 0, 0, 0, 0, 0, 0, 0, 0, 0, 0, 0];
  }

  lemma MagicBytes()
    ensures Fixed(TableFormat.MAGIC_LOW, 4) == [87, 251, 128, 139] && Fixed(TableFormat.MAGIC_HIGH, 4) == [36, 117, 71, 219]
  {
    assert Fixed(0x8b80_fb57, 4) == [87, 251, 128, 139];
    assert Fixed(0xdb47_7524, 4) == [36, 117, 71, 219];
  }

  /** Behind a stored block: type zero, and the checksum of block and type. */
  lemma TrailerBytes(file: Bytes, h: TableFormat.BlockHandle, contents: Bytes)
    requires TableFormat.Stored(file, h, contents)
    ensures h.offset + |contents| + 5 <= |file|
    ensures file[h.offset..h.offset + |contents| + 5] == contents + [0] + MaskedCrc(contents + [0])
  {
    hide Fixed, Crc32c.Crc, Crc32c.Mask;
    var n := |contents|;
    assert file[h.offset..h.offset + n + 5] == file[h.offset..h.offset + n] + file[h.offset + n..h.offset + n + 5];
  }

  /** An entry: how much of the key is shared, how much is not, the length of the value,
      and the rest of the key and the value. */
  lemma EntryBytes(it: Block.Item)
    requires it.shared <= |it.key| < 128 && |it.value| < 128
    ensures Block.EntryBytes(it) == [it.shared as Byte, (|it.key| - it.shared) as Byte, |it.value| as Byte] + it.key[it.shared..] + it.value
  {
    hide Varint;
    SmallVarint(it.shared);
    SmallVarint(|it.key| - it.shared);
    SmallVarint(|it.value|);
  }

  /** A block of three entries with restart points at the first and the last: the entries,
      where the restart points are, and how many there are. */
  lemma BlockBytes(a: Block.Item, b: Block.Item, c: Block.Item)
    requires |Block.EntryBytes(a)| == 9 && |Block.EntryBytes(b)| == 8
    ensures Block.Contents([a, b, c], [0, 2])
         == Block.EntryBytes(a) + Block.EntryBytes(b) + Block.EntryBytes(c) + [0, 0, 0, 0] + [17, 0, 0, 0] + [2, 0, 0, 0]
  {
    hide Fixed, Block.EntryBytes;
    SmallFixed(0);
    SmallFixed(17);
    SmallFixed(2);
    var items := [a, b, c];
    assert Block.Data(items, 0) == [];
    assert Block.Data(items, 1) == Block.EntryBytes(a);
    assert Block.Data(items, 2) == Block.EntryBytes(a) + Block.EntryBytes(b);
    assert Block.RestartArray(items, [0, 2], 1) == [0, 0, 0, 0];
    assert Block.RestartArray(items, [0, 2], 2) == [0, 0, 0, 0] + [17, 0, 0, 0];
  }

  /** Two filters, of two bytes and of one: the filters, where each begins, where those
      offsets begin, and the base. */
  lemma FilterBlockBytes()
    ensures FilterBlock.FilterContents([[1, 2], [3]], [0, 2]) == [1, 2, 3, 0, 0, 0, 0, 2, 0, 0, 0, 3, 0, 0, 0, 11]
    ensures FilterBlock.FilterContents([], []) == [0, 0, 0, 0, 11]
  {
    hide Fixed;
    SmallFixed(0);
    SmallFixed(2);
    SmallFixed(3);
    TwoFlat();
    assert [[1, 2], [3]][..1] == [[1, 2]] && [[1, 2]][..0] == [];
    assert [0, 2][..1] == [0] && [0][..0] == [];
    assert FilterBlock.Offsets([0]) == Fixed(0, 4);
    assert FilterBlock.Offsets([0, 2]) == Fixed(0, 4) + Fixed(2, 4);
  }

  lemma TwoFlat()
    ensures Concat.Flat([[1, 2], [3]]) == [1, 2, 3] && Concat.Flat<Byte>([]) == []
  {
    var ss: seq<Bytes> := [[1, 2], [3]];
    assert ss[..1] == [[1, 2]] && ss[..1][..0] == [];
  }

  /** The name a filter block is found under: "filter." and the name of the policy. */
  lemma FilterKeyBytes()
    ensures TableBuilder.FilterKey()
         == [102, 105, 108, 116, 101, 114, 46] + [108, 101, 118, 101, 108, 100, 98, 46] + [66, 117, 105, 108, 116, 105, 110]
          + [66, 108, 111, 111, 109] + [70, 105, 108, 116, 101, 114, 50]
  {
  }

  // ----- protocol buffer messages

  /** Field 1 with 150; field 2 with "testing"; field 3 with a submessage whose field 1 is
      150; field 4 with 3, 270 and 86942, packed. */
  lemma MessageBytes(n: Pb.Field, s: Pb.Field, m: Pb.Field, a: Pb.Field)
    requires n.tag == 1 && n.kind == Pb.Int(4) && n.rule.Required?
    requires s.tag == 2 && s.kind.Str? && s.rule.Required?
    requires m.tag == 3 && m.kind == Pb.Sub([n]) && m.rule.Required?
    requires a.tag == 4 && a.kind == Pb.Int(4) && a.rule.Repeated?
    ensures PbMessage.EncodeSlot(n, Pb.One(Pb.Num(150))) == [0x08, 0x96, 0x01]
    ensures PbMessage.EncodeSlot(s, Pb.One(Pb.Raw([0x74, 0x65, 0x73, 0x74, 0x69, 0x6e, 0x67])))
         == [0x12, 0x07, 0x74, 0x65, 0x73, 0x74, 0x69, 0x6e, 0x67]
    ensures PbMessage.EncodeSlot(m, Pb.One(Pb.Msg([Pb.One(Pb.Num(150))]))) == [0x1a, 0x03, 0x08, 0x96, 0x01]
    ensures PbMessage.EncodeSlot(a, Pb.Many([Pb.Num(3), Pb.Num(270), Pb.Num(86942)]))
         == [0x22, 0x06, 0x03, 0x8e, 0x02, 0x9e, 0xa7, 0x05]
  {
    NumberBytes(n);
    StringBytes(s);
    SubmessageBytes(n, m);
    PackedBytes(a);
  }

  lemma NumberBytes(n: Pb.Field)
    requires n.tag == 1 && n.kind == Pb.Int(4) && n.rule.Required?
    ensures PbMessage.EncodeSlot(n, Pb.One(Pb.Num(150))) == [0x08, 0x96, 0x01]
  {
    hide Varint;
    SmallVarint(8);
    SmallVarint(150);
  }

  lemma StringBytes(s: Pb.Field)
    requires s.tag == 2 && s.kind.Str? && s.rule.Required?
    ensures PbMessage.EncodeSlot(s, Pb.One(Pb.Raw([0x74, 0x65, 0x73, 0x74, 0x69, 0x6e, 0x67])))
         == [0x12, 0x07, 0x74, 0x65, 0x73, 0x74, 0x69, 0x6e, 0x67]
  {
    hide Varint;
    SmallVarint(0x12);
    SmallVarint(7);
  }

  lemma SubmessageBytes(n: Pb.Field, m: Pb.Field)
    requires n.tag == 1 && n.kind == Pb.Int(4) && n.rule.Required?
    requires m.tag == 3 && m.kind == Pb.Sub([n]) && m.rule.Required?
    ensures PbMessage.EncodeSlot(m, Pb.One(Pb.Msg([Pb.One(Pb.Num(150))]))) == [0x1a, 0x03, 0x08, 0x96, 0x01]
  {
    hide Varint, PbMessage.EncodeSlot;
    SmallVarint(0x1a);
    SmallVarint(3);
    NumberBytes(n);
    var slots := [Pb.One(Pb.Num(150))];
    assert PbMessage.EncodeFrom([n], slots, 1) == [];
    assert PbMessage.EncodeFrom([n], slots, 0) == [0x08, 0x96, 0x01];
    assert PbMessage.EncodeValue(m.kind, Pb.Msg(slots)) == [0x03, 0x08, 0x96, 0x01];
    OneSlot(m, Pb.Msg(slots));
  }

  lemma OneSlot(f: Pb.Field, v: Pb.Value)
    requires f.rule.Required?
    ensures PbMessage.EncodeSlot(f, Pb.One(v)) == PbMessage.TagOf(f.tag, PbMessage.WireType(f.kind)) + PbMessage.EncodeValue(f.kind, v)
  {
  }

  lemma PackedBytes(a: Pb.Field)
    requires a.tag == 4 && a.kind == Pb.Int(4) && a.rule.Repeated?
    ensures PbMessage.EncodeSlot(a, Pb.Many([Pb.Num(3), Pb.Num(270), Pb.Num(86942)]))
         == [0x22, 0x06, 0x03, 0x8e, 0x02, 0x9e, 0xa7, 0x05]
  {
    hide Varint;
    SmallVarint(0x22);
    SmallVarint(6);
    SmallVarint(3);
    SmallVarint(270);
    ThreeByteVarint();
    var vs := [Pb.Num(3), Pb.Num(270), Pb.Num(86942)];
    assert vs[1..] == [Pb.Num(270), Pb.Num(86942)] && vs[1..][1..] == [Pb.Num(86942)] && vs[1..][1..][1..] == [];
    assert PbMessage.EncodePacked(a.kind, vs[1..][1..]) == [0x9e, 0xa7, 0x05];
    assert PbMessage.EncodePacked(a.kind, vs[1..]) == [0x8e, 0x02, 0x9e, 0xa7, 0x05];
  }

  lemma ThreeByteVarint()
    ensures Varint(86942) == [0x9e, 0xa7, 0x05]
  {
  }
}
