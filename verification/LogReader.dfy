/** Reading the write-ahead log back (`db/log_reader.cc`): what a reader makes of
    any file, and that a log cut off anywhere yields the records written in full. */
module LogReader {
  import opened Coding
  import opened Crc32c
  import opened Keys
  import opened Log

  const EOF: nat := 5

  const BAD_RECORD: nat := 6

  // ----- what is at a position of any file

  /** A physical record, a stretch to skip, or the end; and where reading goes on. */
  datatype Physical =
    | Piece(kind: Byte, data: Bytes, next: nat)
    | Bad(dropped: seq<nat>, next: nat)
    | End(next: nat)
  {
    function Kind(): nat {
      match this
      case Piece(k, _, _) => k as nat
      case Bad(_, _) => BAD_RECORD
      case End(_) => EOF
    }

    function Data(): Bytes {
      if Piece? then data else []
    }

    function Dropped(): seq<nat> {
      if Bad? then dropped else []
    }
  }

  /** Where the block buffer that holds position `p` ends. */
  function BufferEnd(file: Bytes, p: nat): (e: nat)
    requires p <= |file|
    ensures p <= e <= |file|
  {
    var e := p - p % BLOCK + BLOCK;
    if e <= |file| then e else |file|
  }

  /** The buffer that holds `p` was filled completely. */
  predicate FullBlock(file: Bytes, p: nat) {
    p - p % BLOCK + BLOCK <= |file|
  }

  /** What a buffer with a complete header starts with; its first byte is at `p`. */
  function InBuffer(head: Head, buffer: Bytes, full: bool, p: nat): (r: Physical)
    requires |buffer| >= HEADER
    ensures p < r.next <= p + |buffer|
  {
    var length := buffer[4] as nat + buffer[5] as nat * 256;
    if HEADER + length > |buffer| then
      if full then Bad([|buffer|], p + |buffer|) else End(p + |buffer|)
    else if buffer[6] == ZERO && length == 0 then Bad([], p + |buffer|)
    else
      var data := buffer[HEADER..HEADER + length];
      if head(buffer[6], data) != buffer[..HEADER] then Bad([|buffer|], p + |buffer|)
      else Piece(buffer[6], data, p + HEADER + length)
  }

  /** Next physical record at or after `p`. */
  function PhysicalAt(head: Head, file: Bytes, p: nat): (r: Physical)
    requires p <= |file|
    ensures r.next <= |file| && (r.End? || p < r.next)
    decreases |file| - p
  {
    var e := BufferEnd(file, p);
    if e - p >= HEADER then InBuffer(head, file[p..e], FullBlock(file, p), p)
    else if FullBlock(file, p) then PhysicalAt(head, file, e)
    else End(e)
  }

  /** What one physical record does to a record being collected. */
  datatype Step = Return(record: Bytes) | Stop | Go(open: Option<Bytes>)

  function Digest(kind: nat, data: Bytes, open: Option<Bytes>): Step {
    if kind == FULL as nat then Return(data)
    else if kind == FIRST as nat then Go(Some(data))
    else if kind == MIDDLE as nat && open.Some? then Go(Some(open.value + data))
    else if kind == LAST as nat && open.Some? then Return(open.value + data)
    else if kind == EOF then Stop
    else Go(None)
  }

  /** The sizes it makes the reader report as dropped. */
  function Reported(kind: nat, data: Bytes, open: Option<Bytes>): seq<nat> {
    var held := if open.Some? then |open.value| else 0;
    if kind == FULL as nat || kind == FIRST as nat then (if held > 0 then [held] else [])
    else if kind == MIDDLE as nat || kind == LAST as nat then (if open == None then [|data|] else [])
    else if kind == EOF then []
    else if kind == BAD_RECORD then (if open.Some? then [held] else [])
    else [|data| + held]
  }

  /** A record or nothing, where reading goes on, and the sizes reported as dropped. */
  datatype Outcome = Outcome(record: Option<Bytes>, next: nat, drops: seq<nat>)

  /** The next record from `p` on; `open` is what was collected of one already begun. */
  function RecordFrom(head: Head, file: Bytes, p: nat, open: Option<Bytes>, drops: seq<nat>): (r: Outcome)
    requires p <= |file|
    ensures r.next <= |file| && (r.record.Some? ==> p < r.next)
    decreases |file| - p
  {
    var ph := PhysicalAt(head, file, p);
    var drops' := drops + ph.Dropped() + Reported(ph.Kind(), ph.Data(), open);
    match Digest(ph.Kind(), ph.Data(), open)
    case Return(record) => Outcome(Some(record), ph.next, drops')
    case Stop => Outcome(None, ph.next, drops')
    case Go(open') => RecordFrom(head, file, ph.next, open', drops')
  }

  /** All records until the reader gives up. */
  function AllFrom(head: Head, file: Bytes, p: nat, drops: seq<nat>): (seq<Bytes>, seq<nat>)
    requires p <= |file|
    decreases |file| - p
  {
    var r := RecordFrom(head, file, p, None, drops);
    if r.record == None then ([], r.drops)
    else
      var rest := AllFrom(head, file, r.next, r.drops);
      ([r.record.value] + rest.0, rest.1)
  }

  // ----- the reader

  lemma DecodesTo(h: Bytes, m: nat)
    requires |h| >= 4 && m < WORD
    ensures DecodeFixed32(h) < WORD && (DecodeFixed32(h) == m <==> h[..4] == Fixed(m, 4))
  {
    LittleIsWord(h[..4]);
    FixedOfLittle(h[..4]);
    FixedRoundTrip(m, 4);
  }

  lemma MaskDecides(d: nat, c: nat)
    requires d < WORD && c < WORD
    ensures Unmask(d) == c <==> d == Mask(c)
  {
    MaskOfUnmask(d);
    UnmaskOfMask(c);
  }

  /** The checksum test compares the header with the one the writer would have made. */
  lemma ChecksumDecides(h: Bytes, kind: Byte, data: Bytes, checksum: nat)
    requires |h| == HEADER && h[6] == kind && |data| == h[4] as nat + h[5] as nat * 256 && checksum < WORD
    ensures DecodeFixed32(h) < WORD
    ensures Unmask(DecodeFixed32(h)) == checksum <==> h == Fixed(Mask(checksum), 4) + [|data| % 256, |data| / 256 % 256, kind]
  {
    DecodesTo(h, Mask(checksum));
    MaskDecides(DecodeFixed32(h), checksum);
    assert h == h[..4] + [|data| % 256, |data| / 256 % 256, kind];
    assert (Fixed(Mask(checksum), 4) + [|data| % 256, |data| / 256 % 256, kind])[..4] == Fixed(Mask(checksum), 4);
  }

  /** What has been read of a file of this size ends with the block that holds `p`,
      and `eof` says whether that block is short. */
  ghost predicate Aligned(size: nat, filePos: nat, p: nat, eof: bool) {
    if eof then filePos == size && size < p - p % BLOCK + BLOCK
    else filePos % BLOCK == 0 && filePos - p <= BLOCK
  }

  lemma NothingReadIsAligned(size: nat)
    ensures Aligned(size, 0, 0, false)
  {
  }

  lemma StaysAligned(size: nat, filePos: nat, p: nat, eof: bool, q: nat)
    requires Aligned(size, filePos, p, eof) && p <= q <= filePos <= size
    ensures Aligned(size, filePos, q, eof)
  {
  }

  lemma NextBlockAligned(size: nat, filePos: nat)
    requires Aligned(size, filePos, filePos, false) && filePos <= size
    ensures filePos + BLOCK <= size ==> Aligned(size, filePos + BLOCK, filePos, false)
    ensures size < filePos + BLOCK ==> Aligned(size, size, filePos, true)
  {
  }

  /** The block buffer that holds `p` is the one just read. */
  lemma BufferIsBlock(file: Bytes, filePos: nat, p: nat, eof: bool)
    requires p <= filePos <= |file| && Aligned(|file|, filePos, p, eof)
    ensures p < filePos || eof ==> BufferEnd(file, p) == filePos && (FullBlock(file, p) <==> !eof)
  {
  }

  class Reader {
    const file: Bytes
    ghost const head: Head
    var filePos: nat            // how much of the file has been read
    var buffer: Bytes
    var eof: bool
    var drops: seq<nat>         // what the reporter was told

    ghost predicate Valid()
      reads this
    {
      && IsHead(head) && |buffer| <= filePos <= |file|
      && buffer == file[Position()..filePos] && Aligned(|file|, filePos, Position(), eof)
    }

    /** The first byte not yet used up. */
    ghost function Position(): nat
      requires |buffer| <= filePos
      reads this
    {
      filePos - |buffer|
    }

    constructor (file: Bytes)
      ensures Valid() && this.file == file && head == HeaderOf && Position() == 0 && drops == []
    {
      hide HeaderOf;
      this.file := file;
      head := HeaderOf;
      filePos := 0;
      buffer := [];
      eof := false;
      drops := [];
      NothingReadIsAligned(|file|);
    }

    method ReportCorruption(bytes: nat)
      modifies this`drops
      ensures drops == old(drops) + [bytes]
    {
      drops := drops + [bytes];
    }

    /** Reads the next block; what is left in the buffer is a trailer. */
    method Fill()
      requires Valid() && !eof && |buffer| < HEADER
      modifies this
      ensures Valid() && drops == old(drops) && filePos >= old(filePos) && (filePos == old(filePos) ==> eof)
      ensures PhysicalAt(head, file, Position()) == PhysicalAt(head, file, old(Position()))
    {
      hide IsHead, Aligned;
      BufferIsBlock(file, filePos, Position(), false);
      StaysAligned(|file|, filePos, Position(), false, filePos);
      NextBlockAligned(|file|, filePos);
      buffer := [];
      var n := if |file| - filePos < BLOCK then |file| - filePos else BLOCK;
      buffer := file[filePos..filePos + n];
      filePos := filePos + n;
      if n < BLOCK {
        eof := true;
      }
    }

    /** The kind and data of the next physical record, or one of the two special kinds. */
    method ReadPhysicalRecord() returns (kind: nat, fragment: Bytes)
      requires Valid()
      modifies this
      ensures Valid()
      ensures var ph := PhysicalAt(head, file, old(Position()));
              kind == ph.Kind() && fragment == ph.Data() && Position() == ph.next && drops == old(drops) + ph.Dropped()
    {
      hide IsHead, Aligned;
      while |buffer| < HEADER
        invariant Valid() && drops == old(drops)
        invariant PhysicalAt(head, file, Position()) == PhysicalAt(head, file, old(Position()))
        decreases |file| - filePos, !eof
      {
        if eof {
          BufferIsBlock(file, filePos, Position(), true);
          Discard(false);
          return EOF, [];
        }
        Fill();
      }
      kind, fragment := ParseHeader();
    }

    /** Gives up what is in the buffer, and reports it or not. */
    method Discard(report: bool)
      requires Valid()
      modifies this
      ensures Valid() && Position() == old(filePos) && drops == old(drops) + (if report then [|old(buffer)|] else [])
    {
      hide IsHead, Aligned;
      StaysAligned(|file|, filePos, Position(), eof, filePos);
      var dropSize := |buffer|;
      buffer := [];
      if report {
        ReportCorruption(dropSize);
      }
    }

    method Consume(n: nat)
      requires Valid() && n <= |buffer|
      modifies this`buffer
      ensures Valid() && Position() == old(Position()) + n
    {
      hide IsHead, Aligned;
      SliceOfSlice(file, Position(), filePos, n, |buffer|);
      StaysAligned(|file|, filePos, Position(), eof, Position() + n);
      buffer := buffer[n..];
    }

    /** What the buffer holds next, its header being complete. */
    method ParseHeader() returns (kind: nat, fragment: Bytes)
      requires Valid() && |buffer| >= HEADER
      modifies this
      ensures Valid()
      ensures var ph := PhysicalAt(head, file, old(Position()));
              kind == ph.Kind() && fragment == ph.Data() && Position() == ph.next && drops == old(drops) + ph.Dropped()
    {
      hide IsHead, Aligned;
      BufferHolds();
      var length := buffer[4] as nat + buffer[5] as nat * 256;
      if HEADER + length > |buffer| {
        kind, fragment := if eof then EOF else BAD_RECORD, [];
        Discard(!eof);
      } else if buffer[6] == ZERO && length == 0 {
        kind, fragment := BAD_RECORD, [];
        Discard(false);
      } else {
        var data := buffer[HEADER..HEADER + length];
        var good := Matches(buffer[..HEADER], data);
        if good {
          kind, fragment := buffer[6] as nat, data;
          Consume(HEADER + length);
        } else {
          kind, fragment := BAD_RECORD, [];
          Discard(true);
        }
      }
    }

    lemma BufferHolds()
      requires Valid() && |buffer| >= HEADER
      ensures PhysicalAt(head, file, Position()) == InBuffer(head, buffer, !eof, Position())
    {
      BufferIsBlock(file, filePos, Position(), eof);
    }

    method Matches(h: Bytes, data: Bytes) returns (good: bool)
      requires Valid() && |h| == HEADER && |data| == h[4] as nat + h[5] as nat * 256
      ensures good <==> head(h[6], data) == h
    {
      ChecksumDecides(h, h[6], data, Checksum(h[6], data));
      HeadIs(head, h[6], data);
      ByteShiftIsShift();
      var expected := Unmask(DecodeFixed32(h));
      var actual := Extend(ByteShift, 0, [h[6]] + data, 6);
      good := actual == expected;
    }

    /** The switch of ReadRecord: what is collected after a physical record, or what to return. */
    method Take(kind: nat, fragment: Bytes, scratch: Bytes, inFragmentedRecord: bool)
      returns (step: Step)
      modifies this`drops
      ensures var open := if inFragmentedRecord then Some(scratch) else None;
              step == Digest(kind, fragment, open) && drops == old(drops) + Reported(kind, fragment, open)
    {
      if kind == FULL as nat || kind == FIRST as nat {
        if inFragmentedRecord && scratch != [] {
          ReportCorruption(|scratch|);
        }
        step := if kind == FULL as nat then Return(fragment) else Go(Some(fragment));
      } else if kind == MIDDLE as nat || kind == LAST as nat {
        if !inFragmentedRecord {
          ReportCorruption(|fragment|);
          step := Go(None);
        } else {
          step := if kind == MIDDLE as nat then Go(Some(scratch + fragment)) else Return(scratch + fragment);
        }
      } else if kind == EOF {
        step := Stop;
      } else {
        if kind != BAD_RECORD {
          ReportCorruption(|fragment| + if inFragmentedRecord then |scratch| else 0);
        } else if inFragmentedRecord {
          ReportCorruption(|scratch|);
        }
        step := Go(None);
      }
    }

    method ReadRecord() returns (record: Option<Bytes>)
      requires Valid()
      modifies this
      ensures Valid()
      ensures Outcome(record, Position(), drops) == RecordFrom(head, file, old(Position()), None, old(drops))
    {
      hide IsHead, Aligned;
      var open := None;
      while true
        invariant Valid()
        invariant RecordFrom(head, file, Position(), open, drops) == RecordFrom(head, file, old(Position()), None, old(drops))
        decreases |file| - Position()
      {
        var kind, fragment := ReadPhysicalRecord();
        var step := Take(kind, fragment, if open.Some? then open.value else [], open.Some?);
        match step
        case Return(r) => return Some(r);
        case Stop => return None;
        case Go(next) => open := next;
      }
    }
  }
}
