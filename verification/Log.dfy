/** The write-ahead log (`db/log_writer.cc`, `db/log_reader.cc`): records cut into
    fragments at block boundaries, and a reader that gets back every record that
    was written in full. */
module Log {
  import opened Coding
  import opened Crc32c
  import opened Keys

  const BLOCK: nat := 32768

  const HEADER: nat := 7

  const ZERO: Byte := 0
  const FULL: Byte := 1
  const FIRST: Byte := 2
  const MIDDLE: Byte := 3
  const LAST: Byte := 4

  // ----- the format

  /** The checksum of a fragment. */
  function Checksum(kind: Byte, data: Bytes): (c: nat)
    ensures c < WORD
  {
    CrcIsWord(0, [kind] + data);
    Crc(ByteShift, 0, [kind] + data)
  }

  type Header = h: Bytes | |h| == HEADER witness [0, 0, 0, 0, 0, 0, 0]

  /** Masked checksum, length in two bytes, kind. */
  function HeaderOf(kind: Byte, data: Bytes): Header {
    Fixed(Mask(Checksum(kind, data)), 4) + [|data| % 256, |data| / 256 % 256, kind]
  }

  /** How a header is made. The layout of the log does not depend on it. */
  type Head = (Byte, Bytes) -> Header

  ghost predicate IsHead(head: Head) {
    head == HeaderOf
  }

  /** The zeros that fill a block too short for a header, from offset `off` on. */
  function Trailer(off: nat): Bytes
    requires off <= BLOCK
  {
    if BLOCK - off < HEADER then seq(BLOCK - off, _ => 0) else []
  }

  /** Where in its block the next header goes. */
  function Start(off: nat): (o: nat)
    requires off <= BLOCK
    ensures o + HEADER <= BLOCK
  {
    if BLOCK - off < HEADER then 0 else off
  }

  /** How much of what is left fits into the block. */
  function Fits(off: nat, left: nat): (n: nat)
    requires off <= BLOCK
    ensures n <= left && Start(off) + HEADER + n <= BLOCK
  {
    var avail := BLOCK - Start(off) - HEADER;
    if left < avail then left else avail
  }

  function Kind(begin: bool, end: bool): Byte {
    if begin && end then FULL else if begin then FIRST else if end then LAST else MIDDLE
  }

  /** One fragment with its header and the trailer before it. */
  function Fragment(head: Head, off: nat, data: Bytes, begin: bool): (r: Bytes)
    requires off <= BLOCK
  {
    var n := Fits(off, |data|);
    Trailer(off) + (head(Kind(begin, n == |data|), data[..n]) + data[..n])
  }

  /** The bytes of a record, or of what is left of it, from a block offset on. */
  function Written(head: Head, off: nat, data: Bytes, begin: bool): Bytes
    requires off <= BLOCK
    decreases |data|, BLOCK - off
  {
    var n := Fits(off, |data|);
    if n == |data| then Fragment(head, off, data, begin)
    else Fragment(head, off, data, begin) + Written(head, Start(off) + HEADER + n, data[n..], false)
  }

  /** A log of records, begun at an offset of a file that is empty or was closed earlier. */
  function Records(head: Head, from: nat, recs: seq<Bytes>): Bytes {
    if recs == [] then []
    else
      var before := Records(head, from, recs[..|recs| - 1]);
      before + Written(head, (from + |before|) % BLOCK, recs[|recs| - 1], true)
  }

  // ----- the writer

  /** An offset at the end of a block is as good as one at the start of the next. */
  lemma EndIsStart(head: Head, off: nat, data: Bytes, begin: bool)
    requires off <= BLOCK
    ensures Written(head, off, data, begin) == Written(head, off % BLOCK, data, begin)
  {
    if off == BLOCK {
      assert Trailer(BLOCK) == [];
    }
  }

  /** The checksum of each kind byte. */
  ghost predicate TypeCrcs(crcs: seq<nat>) {
    |crcs| == 5 && forall t: Byte {:trigger IsTypeCrc(crcs, t)} :: t < 5 ==> IsTypeCrc(crcs, t)
  }

  ghost predicate IsTypeCrc(crcs: seq<nat>, t: Byte)
    requires t < |crcs|
  {
    crcs[t] < WORD && crcs[t] == Crc(ByteShift, 0, [t])
  }

  method InitTypeCrc(address: nat) returns (crcs: seq<nat>)
    ensures TypeCrcs(crcs)
  {
    crcs := [];
    ByteShiftIsShift();
    for t := 0 to 5
      invariant |crcs| == t && forall k: Byte {:trigger IsTypeCrc(crcs, k)} :: k < t ==> IsTypeCrc(crcs, k)
    {
      ghost var was := crcs;
      var crc := Extend(ByteShift, 0, [t], address);
      crcs := crcs + [crc];
      forall k: Byte | k < t + 1
        ensures IsTypeCrc(crcs, k)
      {
        assert k < t ==> IsTypeCrc(was, k);
      }
    }
  }

  /** A checksum begun on the kind byte and extended by the data. */
  method ExtendTypeCrc(t: Byte, typeCrc: nat, data: Bytes, address: nat) returns (crc: nat)
    requires typeCrc < WORD && typeCrc == Crc(ByteShift, 0, [t])
    ensures crc == Checksum(t, data)
  {
    ByteShiftIsShift();
    CrcAppend(ByteShift, 0, [t], data);
    crc := Extend(ByteShift, typeCrc, data, address);
  }

  lemma HeadIs(head: Head, kind: Byte, data: Bytes)
    requires IsHead(head)
    ensures head(kind, data) == HeaderOf(kind, data)
  {
  }

  class Writer {
    var dest: Bytes
    var blockOffset: nat
    const typeCrc: seq<nat>
    ghost const head: Head

    ghost predicate Valid()
      reads this
    {
      && blockOffset <= BLOCK && blockOffset % BLOCK == |dest| % BLOCK
      && IsHead(head) && TypeCrcs(typeCrc)
    }

    /** A writer that appends to a file that already has these contents. */
    constructor (dest: Bytes, address: nat)
      ensures Valid() && this.dest == dest && head == HeaderOf
    {
      this.dest := dest;
      head := HeaderOf;
      blockOffset := |dest| % BLOCK;
      var crcs := InitTypeCrc(address);
      typeCrc := crcs;
    }

    /** The header of a fragment, from the precomputed checksum of its type. */
    method FormatHeader(t: Byte, data: Bytes, address: nat) returns (buf: Header)
      requires Valid() && t < 5
      ensures buf == head(t, data)
    {
      assert IsTypeCrc(typeCrc, t);
      var crc := ExtendTypeCrc(t, typeCrc[t], data, address);
      buf := Fixed(Mask(crc), 4) + [|data| % 256, |data| / 256 % 256, t];
      assert buf == HeaderOf(t, data);
      HeadIs(head, t, data);
    }

    method EmitPhysicalRecord(t: Byte, data: Bytes, address: nat)
      requires Valid() && t < 5 && blockOffset + HEADER + |data| <= BLOCK
      modifies this
      ensures Valid() && dest == old(dest) + (head(t, data) + data)
      ensures blockOffset == old(blockOffset) + HEADER + |data|
    {
      hide IsHead;
      var buf := FormatHeader(t, data, address);
      ConcatAssoc(dest, buf, data);
      dest := dest + buf;
      dest := dest + data;
      blockOffset := blockOffset + HEADER + |data|;
    }

    /** One turn of the loop of AddRecord: the trailer when the block is full, then a fragment. */
    method AddFragment(slice: Bytes, ptr: nat, begin: bool, address: nat) returns (n: nat)
      requires Valid() && ptr <= |slice|
      modifies this
      ensures Valid() && n == Fits(old(blockOffset), |slice| - ptr)
      ensures dest == old(dest) + Fragment(head, old(blockOffset), slice[ptr..], begin)
      ensures blockOffset == Start(old(blockOffset)) + HEADER + n
    {
      hide IsHead;
      var leftover := BLOCK - blockOffset;
      if leftover < HEADER {
        if leftover > 0 {
          dest := dest + seq(leftover, _ => 0);
        }
        blockOffset := 0;
      }
      assert dest == old(dest) + Trailer(old(blockOffset));
      var avail := BLOCK - blockOffset - HEADER;
      var left := |slice| - ptr;
      n := if left < avail then left else avail;
      var end := left == n;
      ConcatAssoc(old(dest), Trailer(old(blockOffset)), head(Kind(begin, end), slice[ptr..ptr + n]) + slice[ptr..ptr + n]);
      assert slice[ptr..ptr + n] == slice[ptr..][..n];
      EmitPhysicalRecord(Kind(begin, end), slice[ptr..ptr + n], address + ptr);
    }

    method AddRecord(slice: Bytes, address: nat)
      requires Valid()
      modifies this
      ensures Valid() && dest == old(dest) + Written(head, old(|dest|) % BLOCK, slice, true)
    {
      hide IsHead, Written, Fragment, Trailer;
      EndIsStart(head, blockOffset, slice, true);
      ghost var done: Bytes, rest := [], Written(head, blockOffset, slice, true);
      assert slice[0..] == slice;
      var ptr := 0;
      var begin := true;
      var more := true;
      while more
        invariant Valid() && ptr <= |slice| && dest == old(dest) + done
        invariant done + rest == Written(head, old(|dest|) % BLOCK, slice, true)
        invariant rest == if more then Written(head, blockOffset, slice[ptr..], begin) else []
        decreases more, |slice| - ptr, BLOCK - blockOffset
      {
        ghost var fragment := Fragment(head, blockOffset, slice[ptr..], begin);
        rest := WrittenStep(head, blockOffset, slice, ptr, begin);
        ConcatAssoc(done, fragment, rest);
        ConcatAssoc(old(dest), done, fragment);
        var n := AddFragment(slice, ptr, begin, address);
        done := done + fragment;
        ptr := ptr + n;
        begin := false;
        more := ptr < |slice|;
      }
    }
  }

  /** What is left to write after one fragment. */
  lemma WrittenStep(head: Head, off: nat, slice: Bytes, ptr: nat, begin: bool) returns (rest: Bytes)
    requires off <= BLOCK && ptr <= |slice|
    ensures Written(head, off, slice[ptr..], begin) == Fragment(head, off, slice[ptr..], begin) + rest
    ensures var n := Fits(off, |slice| - ptr);
            rest == if ptr + n == |slice| then [] else Written(head, Start(off) + HEADER + n, slice[ptr + n..], false)
  {
    var n := Fits(off, |slice| - ptr);
    assert slice[ptr..][n..] == slice[ptr + n..];
    rest := if ptr + n == |slice| then [] else Written(head, Start(off) + HEADER + n, slice[ptr + n..], false);
  }
}
