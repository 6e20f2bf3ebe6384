/** The outer format of a table (`table/format.cc`): where blocks are, the footer, and
    the type and checksum behind every block. */
module TableFormat {
  import opened Coding
  import opened Crc32c
  import opened Keys

  const LONG: nat := 0x1_0000_0000_0000_0000

  const TRAILER_SIZE: nat := 5

  const FOOTER_SIZE: nat := 48

  /** kTableMagicNumber, low word and high word. */
  const MAGIC_LOW: nat := 0x8b80_fb57
  const MAGIC_HIGH: nat := 0xdb47_7524

  const NO_COMPRESSION: Byte := 0

  // ----- handles

  datatype BlockHandle = BlockHandle(offset: nat, size: nat)

  predicate IsHandle(h: BlockHandle) {
    h.offset < LONG && h.size < LONG
  }

  /** EncodeTo; the fields are 64 bits wide. */
  function EncodeHandle(h: BlockHandle): (r: Bytes)
    ensures |r| <= 20
  {
    Pow128();
    VarintLength(h.offset % LONG, 10);
    VarintLength(h.size % LONG, 10);
    Varint(h.offset % LONG) + Varint(h.size % LONG)
  }

  function ParseHandle(data: Bytes): Option<(BlockHandle, Bytes)> {
    match ParseVarint(data, 10)
    case None => None
    case Some(o) =>
      match ParseVarint(o.1, 10)
      case None => None
      case Some(s) => Some((BlockHandle(o.0 % LONG, s.0 % LONG), s.1))
  }

  lemma HandleRoundTrip(h: BlockHandle, rest: Bytes)
    requires IsHandle(h)
    ensures ParseHandle(EncodeHandle(h) + rest) == Some((h, rest))
  {
    hide Varint, ParseVarint;
    ConcatAssoc(Varint(h.offset), Varint(h.size), rest);
    Varint64RoundTrip(h.offset, Varint(h.size) + rest);
    Varint64RoundTrip(h.size, rest);
  }

  /** Handles with the same encoding are the same handle. */
  lemma HandleDecides(g: BlockHandle, h: BlockHandle)
    requires IsHandle(g) && IsHandle(h)
    ensures EncodeHandle(g) == EncodeHandle(h) <==> g == h
  {
    hide EncodeHandle, ParseHandle;
    HandleRoundTrip(g, []);
    HandleRoundTrip(h, []);
    assert EncodeHandle(g) + [] == EncodeHandle(g) && EncodeHandle(h) + [] == EncodeHandle(h);
  }

  lemma {:induction false} VarintLength(v: nat, n: nat)
    requires n > 0 && v < Pow(128, n)
    ensures |Varint(v)| <= n
    decreases n
  {
    if v >= 128 {
      VarintLength(v / 128, n - 1);
    }
  }

  method DecodeHandle(data: Bytes) returns (r: Option<(BlockHandle, Bytes)>)
    ensures r == ParseHandle(data)
  {
    hide ParseVarint;
    var offset := GetVarint64(data);
    if offset.None? {
      return None;
    }
    var size := GetVarint64(offset.value.1);
    r := if size.None? then None else Some((BlockHandle(offset.value.0, size.value.0), size.value.1));
  }

  // ----- the footer

  /** Two handles filled up with zeros to 40 bytes, and the magic number. */
  function EncodeFooter(metaindex: BlockHandle, index: BlockHandle): (r: Bytes)
    ensures |r| == FOOTER_SIZE
  {
    Resized(EncodeHandle(metaindex) + EncodeHandle(index)) + Fixed(MAGIC_LOW, 4) + Fixed(MAGIC_HIGH, 4)
  }

  function Resized(handles: Bytes): (r: Bytes)
    ensures |r| == 40
  {
    if |handles| <= 40 then handles + seq(40 - |handles|, _ => 0) else handles[..40]
  }

  /** Footer::DecodeFrom. */
  method DecodeFooter(data: Bytes) returns (r: Option<(BlockHandle, BlockHandle)>)
    requires |data| == FOOTER_SIZE
    ensures r == ParseFooter(data)
  {
    hide ParseHandle;
    var low := DecodeFixed32(data[40..]);
    var high := DecodeFixed32(data[44..]);
    if low != MAGIC_LOW || high != MAGIC_HIGH {
      return None;
    }
    var metaindex := DecodeHandle(data);
    if metaindex.None? {
      return None;
    }
    var index := DecodeHandle(metaindex.value.1);
    r := if index.None? then None else Some((metaindex.value.0, index.value.0));
  }

  function ParseFooter(data: Bytes): Option<(BlockHandle, BlockHandle)>
    requires |data| == FOOTER_SIZE
  {
    if DecodeFixed32(data[40..]) != MAGIC_LOW || DecodeFixed32(data[44..]) != MAGIC_HIGH then None
    else match ParseHandle(data)
      case None => None
      case Some(m) =>
        match ParseHandle(m.1)
        case None => None
        case Some(i) => Some((m.0, i.0))
  }

  lemma FooterRoundTrip(metaindex: BlockHandle, index: BlockHandle)
    requires IsHandle(metaindex) && IsHandle(index)
    ensures ParseFooter(EncodeFooter(metaindex, index)) == Some((metaindex, index))
  {
    hide EncodeHandle, ParseHandle, Fixed, Little;
    var m, i := EncodeHandle(metaindex), EncodeHandle(index);
    var zeros: Bytes := seq(40 - |m + i|, _ => 0);
    var magic := Fixed(MAGIC_LOW, 4) + Fixed(MAGIC_HIGH, 4);
    var data := EncodeFooter(metaindex, index);
    FixedRoundTrip(MAGIC_LOW, 4);
    FixedRoundTrip(MAGIC_HIGH, 4);
    assert data[40..][..4] == Fixed(MAGIC_LOW, 4) && data[44..][..4] == Fixed(MAGIC_HIGH, 4);
    FooterNests(m, i, zeros, Fixed(MAGIC_LOW, 4), Fixed(MAGIC_HIGH, 4));
    HandleRoundTrip(metaindex, i + (zeros + magic));
    HandleRoundTrip(index, zeros + magic);
  }

  lemma FooterNests(a: Bytes, b: Bytes, c: Bytes, d: Bytes, e: Bytes)
    ensures a + b + c + d + e == a + (b + (c + (d + e)))
  {
    ConcatAssoc(a + b + c, d, e);
    ConcatAssoc(a + b, c, d + e);
    ConcatAssoc(a, b, c + (d + e));
  }

  // ----- blocks in a file

  /** The masked checksum of a block and its type. */
  function BlockCrc(contents: Bytes, kind: Byte): (c: nat)
    ensures c < WORD
  {
    CrcIsWord(0, contents + [kind]);
    Crc(ByteShift, 0, contents + [kind])
  }

  function Trailer(contents: Bytes): (r: Bytes)
    ensures |r| == TRAILER_SIZE
  {
    [NO_COMPRESSION] + Fixed(Mask(BlockCrc(contents, NO_COMPRESSION)), 4)
  }

  /** The block at a handle. */
  predicate Stored(file: Bytes, h: BlockHandle, contents: Bytes) {
    && h.size == |contents| && h.offset + h.size + TRAILER_SIZE <= |file|
    && file[h.offset..h.offset + h.size] == contents
    && file[h.offset + h.size..h.offset + h.size + TRAILER_SIZE] == Trailer(contents)
  }

  lemma StoredStays(file: Bytes, file': Bytes, h: BlockHandle, contents: Bytes)
    requires Stored(file, h, contents) && file <= file'
    ensures Stored(file', h, contents)
  {
    hide Trailer;
    assert file'[h.offset..h.offset + h.size] == file[h.offset..h.offset + h.size];
    assert file'[h.offset + h.size..h.offset + h.size + TRAILER_SIZE] == file[h.offset + h.size..h.offset + h.size + TRAILER_SIZE];
  }

  /** WriteRawBlock, without compression. The checksum is extended over the type. */
  method WriteRawBlock(file: Bytes, contents: Bytes) returns (file': Bytes, h: BlockHandle)
    ensures h == BlockHandle(|file|, |contents|) && file <= file' && Stored(file', h, contents)
    ensures |file'| == |file| + |contents| + TRAILER_SIZE
  {
    hide Crc, Fixed, Mask;
    ByteShiftIsShift();
    h := BlockHandle(|file|, |contents|);
    var crc := Extend(ByteShift, 0, contents, 0);
    crc := Extend(ByteShift, crc, [NO_COMPRESSION], 0);
    CrcAppend(ByteShift, 0, contents, [NO_COMPRESSION]);
    var trailer := [NO_COMPRESSION] + Fixed(Mask(crc), 4);
    assert trailer == Trailer(contents);
    file' := file + contents + trailer;
  }

  /** The checksum stored behind a block is the one of what is stored. */
  predicate ChecksumOk(file: Bytes, h: BlockHandle)
    requires h.offset + h.size + TRAILER_SIZE <= |file|
  {
    var masked := DecodeFixed32(file[h.offset + h.size + 1..]);
    masked < WORD && Unmask(masked) == BlockCrc(file[h.offset..h.offset + h.size], file[h.offset + h.size])
  }

  /** ReadBlock, without compression: nothing when the file is too short, the checksum
      is wrong, or the type is not known. */
  method ReadBlock(file: Bytes, h: BlockHandle, verifyChecksums: bool) returns (r: Option<Bytes>)
    ensures r.Some? <==>
              && h.offset + h.size + TRAILER_SIZE <= |file| && file[h.offset + h.size] == NO_COMPRESSION
              && (verifyChecksums ==> ChecksumOk(file, h))
    ensures r.Some? ==> r.value == file[h.offset..h.offset + h.size]
    ensures forall contents :: Stored(file, h, contents) ==> r == Some(contents)
  {
    hide Crc, Fixed, Mask, Little;
    ByteShiftIsShift();
    var n := h.size;
    if h.offset + n + TRAILER_SIZE > |file| {
      return None;
    }
    var data := file[h.offset..h.offset + n + TRAILER_SIZE];
    assert data[..n] == file[h.offset..h.offset + n];
    assert data[n..] == file[h.offset + n..h.offset + n + TRAILER_SIZE];
    if verifyChecksums {
      var masked := DecodeFixed32(data[n + 1..]);
      WordIsSmall(data[n + 1..]);
      var crc := Unmask(masked);
      var actual := Extend(ByteShift, 0, data[..n + 1], 0);
      assert data[..n + 1] == data[..n] + [data[n]];
      assert data[n + 1..][..4] == file[h.offset + n + 1..][..4];
      forall contents | Stored(file, h, contents) ensures actual == crc {
        TrailerDecodes(data, n, contents);
      }
      if actual != crc {
        return None;
      }
    }
    if data[n] != NO_COMPRESSION {
      assert forall contents :: Stored(file, h, contents) ==> data[n..] == Trailer(contents);
      return None;
    }
    r := Some(data[..n]);
  }

  lemma WordIsSmall(data: Bytes)
    requires |data| >= 4
    ensures DecodeFixed32(data) < WORD
  {
    LittleIsWord(data[..4]);
  }

  lemma TrailerDecodes(data: Bytes, n: nat, contents: Bytes)
    requires |data| == n + TRAILER_SIZE && data[..n] == contents && data[n..] == Trailer(contents)
    ensures DecodeFixed32(data[n + 1..]) < WORD && Unmask(DecodeFixed32(data[n + 1..])) == BlockCrc(contents, NO_COMPRESSION)
    ensures data[n] == NO_COMPRESSION
  {
    hide Crc, Fixed, Mask, Little, Unmask;
    var masked := Mask(BlockCrc(contents, NO_COMPRESSION));
    FixedRoundTrip(masked, 4);
    assert data[n + 1..][..4] == data[n..][1..5] == Fixed(masked, 4);
    UnmaskOfMask(BlockCrc(contents, NO_COMPRESSION));
  }
}
