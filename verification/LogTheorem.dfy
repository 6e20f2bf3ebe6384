/** A log cut off at any byte is read back as exactly the records written in full
    before the cut, with nothing reported as dropped. */
module LogTheorem {
  import opened Keys
  import opened Log
  import opened LogReader

  /** From `p` on, the file agrees with `s` as far as both go. */
  ghost predicate Agrees(file: Bytes, p: nat, s: Bytes) {
    forall i: nat {:trigger s[i]} :: i < |s| && p + i < |file| ==> file[p + i] == s[i]
  }

  lemma AgreesParts(file: Bytes, p: nat, a: Bytes, b: Bytes)
    requires Agrees(file, p, a + b)
    ensures Agrees(file, p, a) && Agrees(file, p + |a|, b)
  {
    forall i: nat | i < |a| && p + i < |file|
      ensures file[p + i] == a[i]
    {
      assert (a + b)[i] == a[i];
    }
    forall i: nat | i < |b| && p + |a| + i < |file|
      ensures file[p + |a| + i] == b[i]
    {
      assert (a + b)[|a| + i] == b[i];
    }
  }

  lemma AgreesSlice(file: Bytes, p: nat, s: Bytes)
    requires Agrees(file, p, s) && p + |s| <= |file|
    ensures file[p..p + |s|] == s
  {
    forall i: nat | i < |s|
      ensures file[p..p + |s|][i] == s[i]
    {
    }
  }

  // ----- one fragment

  /** What the fields of a header say. */
  lemma HeaderFields(head: Head, kind: Byte, data: Bytes)
    requires IsHead(head)
    ensures var h := head(kind, data); h[4] == |data| % 256 && h[5] == |data| / 256 % 256 && h[6] == kind
  {
    HeadIs(head, kind, data);
  }

  /** A buffer that starts with a header and has room for its data. */
  lemma ParsesHeader(head: Head, buffer: Bytes, full: bool, p: nat, kind: Byte, data: Bytes)
    requires IsHead(head) && kind != ZERO && |data| < 65536
    requires |buffer| >= HEADER && buffer[..HEADER] == head(kind, data)
    requires HEADER + |data| <= |buffer| ==> buffer[HEADER..HEADER + |data|] == data
    requires full ==> HEADER + |data| <= |buffer|
    ensures InBuffer(head, buffer, full, p)
         == if HEADER + |data| <= |buffer| then Piece(kind, data, p + HEADER + |data|) else End(p + |buffer|)
  {
    hide IsHead;
    HeaderFields(head, kind, data);
    assert buffer[4] == head(kind, data)[4] && buffer[5] == head(kind, data)[5] && buffer[6] == head(kind, data)[6];
  }

  /** Reading where a header was written, with room for it in the block. */
  lemma ReadsHeader(head: Head, file: Bytes, p: nat, kind: Byte, data: Bytes)
    requires IsHead(head) && kind != ZERO && p <= |file| && p % BLOCK + HEADER + |data| <= BLOCK
    requires Agrees(file, p, head(kind, data) + data)
    ensures PhysicalAt(head, file, p)
         == if p + HEADER + |data| <= |file| then Piece(kind, data, p + HEADER + |data|) else End(|file|)
  {
    var e := BufferEnd(file, p);
    var buffer := file[p..e];
    AgreesParts(file, p, head(kind, data), data);
    if e - p >= HEADER {
      AgreesSlice(file, p, head(kind, data));
      SliceOfSlice(file, p, e, 0, HEADER);
      if p + HEADER + |data| <= |file| {
        AgreesSlice(file, p + HEADER, data);
        SliceOfSlice(file, p, e, HEADER, HEADER + |data|);
      }
      ParsesHeader(head, buffer, FullBlock(file, p), p, kind, data);
    }
  }

  /** The kind and data of the fragment written at a block offset. */
  function KindAt(off: nat, data: Bytes, begin: bool): Byte
    requires off <= BLOCK
  {
    Kind(begin, Fits(off, |data|) == |data|)
  }

  /** Reading where a fragment was written, past the trailer that may come first. */
  lemma ReadsFragment(head: Head, file: Bytes, p: nat, data: Bytes, begin: bool)
    requires IsHead(head) && p <= |file| && Agrees(file, p, Fragment(head, p % BLOCK, data, begin))
    ensures var off := p % BLOCK;
            var n := Fits(off, |data|);
            var q := p + |Fragment(head, off, data, begin)|;
            PhysicalAt(head, file, p) == if q <= |file| then Piece(KindAt(off, data, begin), data[..n], q) else End(|file|)
  {
    hide PhysicalAt, IsHead, Agrees, Trailer, Start, Fits;
    var off := p % BLOCK;
    var n := Fits(off, |data|);
    var kind := KindAt(off, data, begin);
    SkipsTrailer(head, file, p);
    AgreesParts(file, p, Trailer(off), head(kind, data[..n]) + data[..n]);
    var q := p + |Trailer(off)|;
    if q <= |file| {
      TrailerEnds(p);
      ReadsHeader(head, file, q, kind, data[..n]);
    }
  }

  /** The reader passes over a trailer in silence. */
  lemma SkipsTrailer(head: Head, file: Bytes, p: nat)
    requires p <= |file|
    ensures var q := p + |Trailer(p % BLOCK)|;
            PhysicalAt(head, file, p) == if q <= |file| then PhysicalAt(head, file, q) else End(|file|)
  {
    hide InBuffer;
    if Trailer(p % BLOCK) != [] {
      assert BufferEnd(file, p) - p < HEADER;
    }
  }

  lemma TrailerEnds(p: nat)
    ensures (p + |Trailer(p % BLOCK)|) % BLOCK == Start(p % BLOCK)
  {
  }

  // ----- one record

  /** A fragment that was read leads on to the rest of its record. */
  lemma FragmentDigests(head: Head, file: Bytes, p: nat, data: Bytes, begin: bool, scratch: Bytes, drops: seq<nat>)
    requires IsHead(head) && p <= |file| && Agrees(file, p, Fragment(head, p % BLOCK, data, begin)) && (begin ==> scratch == [])
    ensures var open := if begin then None else Some(scratch);
            var n := Fits(p % BLOCK, |data|);
            var q := p + |Fragment(head, p % BLOCK, data, begin)|;
            var read := RecordFrom(head, file, p, open, drops);
            if q > |file| then read == Outcome(None, |file|, drops)
            else if n == |data| then read == Outcome(Some(scratch + data), q, drops)
            else read == RecordFrom(head, file, q, Some(scratch + data[..n]), drops)
  {
    hide PhysicalAt, Fragment;
    ReadsFragment(head, file, p, data, begin);
    var n := Fits(p % BLOCK, |data|);
    assert data[..|data|] == data;
    assert begin ==> scratch + data[..n] == data[..n];
    assert drops + [] + [] == drops;
  }

  /** No data fits before the end of the block. */
  predicate BlockIsFull(off: nat)
    requires off <= BLOCK
  {
    Start(off) + HEADER == BLOCK
  }

  lemma {:induction false} ReadsRecord(head: Head, file: Bytes, p: nat, data: Bytes, begin: bool, scratch: Bytes, drops: seq<nat>)
    requires IsHead(head) && p <= |file| && Agrees(file, p, Written(head, p % BLOCK, data, begin)) && (begin ==> scratch == [])
    ensures var open := if begin then None else Some(scratch);
            RecordFrom(head, file, p, open, drops) == ReadAs(file, p + |Written(head, p % BLOCK, data, begin)|, scratch + data, drops)
    decreases |data|, BlockIsFull(p % BLOCK)
  {
    hide RecordFrom, Fragment;
    var off := p % BLOCK;
    var n := Fits(off, |data|);
    var first := Fragment(head, off, data, begin);
    FragmentAgrees(head, file, p, data, begin);
    FragmentDigests(head, file, p, data, begin, scratch, drops);
    if n < |data| {
      var rest := Written(head, 0, data[n..], false);
      RestAgrees(head, file, p, data, begin);
      if p + |first| <= |file| {
        NextOffset(head, p, data, begin);
        ReadsRecord(head, file, p + |first|, data[n..], false, scratch + data[..n], drops);
        RestOfRecord(scratch, data, n);
      }
    }
  }

  lemma FragmentAgrees(head: Head, file: Bytes, p: nat, data: Bytes, begin: bool)
    requires Agrees(file, p, Written(head, p % BLOCK, data, begin))
    ensures Agrees(file, p, Fragment(head, p % BLOCK, data, begin))
  {
    hide Fragment;
    var off := p % BLOCK;
    var n := Fits(off, |data|);
    if n < |data| {
      AgreesParts(file, p, Fragment(head, off, data, begin), Written(head, Start(off) + HEADER + n, data[n..], false));
    }
  }

  lemma RestAgrees(head: Head, file: Bytes, p: nat, data: Bytes, begin: bool)
    requires Fits(p % BLOCK, |data|) < |data| && Agrees(file, p, Written(head, p % BLOCK, data, begin))
    ensures var first := Fragment(head, p % BLOCK, data, begin);
            var rest := Written(head, 0, data[Fits(p % BLOCK, |data|)..], false);
            Written(head, p % BLOCK, data, begin) == first + rest && Agrees(file, p + |first|, rest)
  {
    hide Fragment;
    var n := Fits(p % BLOCK, |data|);
    EndIsStart(head, BLOCK, data[n..], false);
    AgreesParts(file, p, Fragment(head, p % BLOCK, data, begin), Written(head, BLOCK, data[n..], false));
  }

  /** The outcome of reading a record that ends at `q`. */
  function ReadAs(file: Bytes, q: nat, record: Bytes, drops: seq<nat>): Outcome {
    if q > |file| then Outcome(None, |file|, drops) else Outcome(Some(record), q, drops)
  }

  /** A fragment that does not finish its record fills its block. */
  lemma NextOffset(head: Head, p: nat, data: Bytes, begin: bool)
    requires Fits(p % BLOCK, |data|) < |data|
    ensures var next := Start(p % BLOCK) + HEADER + Fits(p % BLOCK, |data|);
            next == BLOCK && (p + |Fragment(head, p % BLOCK, data, begin)|) % BLOCK == 0
    ensures Fits(p % BLOCK, |data|) == 0 ==> BlockIsFull(p % BLOCK)
  {
    TrailerEnds(p);
  }

  lemma RestOfRecord(scratch: Bytes, data: Bytes, n: nat)
    requires n <= |data|
    ensures scratch + data[..n] + data[n..] == scratch + data
  {
    assert data[..n] + data[n..] == data;
  }

  // ----- the whole log

  lemma {:induction false} RecordsBegin(head: Head, recs: seq<Bytes>, j: nat)
    requires j <= |recs|
    ensures Records(head, 0, recs[..j]) <= Records(head, 0, recs)
  {
    if j < |recs| {
      RecordsBegin(head, recs[..|recs| - 1], j);
      assert recs[..|recs| - 1][..j] == recs[..j];
    } else {
      assert recs[..j] == recs;
    }
  }

  /** How many of the records are written in full within the first `t` bytes. */
  function WholeWithin(head: Head, recs: seq<Bytes>, t: nat): (k: nat)
    ensures k <= |recs|
  {
    if recs == [] || |Records(head, 0, recs)| <= t then |recs| else WholeWithin(head, recs[..|recs| - 1], t)
  }

  /** The records before that count end within `t`, and the next one does not. */
  lemma {:induction false} WholeIsExact(head: Head, recs: seq<Bytes>, t: nat, j: nat)
    requires j <= |recs|
    ensures j <= WholeWithin(head, recs, t) <==> |Records(head, 0, recs[..j])| <= t
  {
    if j == |recs| {
      assert recs[..j] == recs;
      if recs != [] && |Records(head, 0, recs)| > t {
        assert WholeWithin(head, recs[..|recs| - 1], t) < j;
      }
    } else {
      assert recs[..|recs| - 1][..j] == recs[..j];
      WholeIsExact(head, recs[..|recs| - 1], t, j);
      RecordsBegin(head, recs, j);
    }
  }

  /** Reading the j-th record where it begins. */
  lemma ReadsNext(head: Head, file: Bytes, recs: seq<Bytes>, j: nat, drops: seq<nat>)
    requires IsHead(head) && file <= Records(head, 0, recs) && j < |recs|
    requires |Records(head, 0, recs[..j])| <= |file|
    ensures var q := |Records(head, 0, recs[..j + 1])|;
            RecordFrom(head, file, |Records(head, 0, recs[..j])|, None, drops) == ReadAs(file, q, recs[j], drops)
  {
    hide Written, RecordFrom;
    var before := Records(head, 0, recs[..j]);
    var p := |before|;
    var w := Written(head, p % BLOCK, recs[j], true);
    assert recs[..j + 1][..j] == recs[..j];
    assert Records(head, 0, recs[..j + 1]) == before + w;
    RecordsBegin(head, recs, j + 1);
    assert Agrees(file, 0, before + w);
    AgreesParts(file, 0, before, w);
    ReadsRecord(head, file, p, recs[j], true, [], drops);
    assert [] + recs[j] == recs[j];
  }

  lemma {:induction false} ReadsAllFrom(head: Head, file: Bytes, recs: seq<Bytes>, j: nat, drops: seq<nat>)
    requires IsHead(head) && file <= Records(head, 0, recs) && j <= WholeWithin(head, recs, |file|)
    requires |Records(head, 0, recs[..j])| <= |file|
    ensures AllFrom(head, file, |Records(head, 0, recs[..j])|, drops) == (recs[j..WholeWithin(head, recs, |file|)], drops)
    decreases |recs| - j
  {
    hide Records, RecordFrom, WholeWithin;
    var k := WholeWithin(head, recs, |file|);
    if j == |recs| {
      assert recs[..j] == recs;
      EndOfFile(head, file, drops);
      assert recs[j..k] == [];
    } else {
      ReadsNext(head, file, recs, j, drops);
      WholeIsExact(head, recs, |file|, j + 1);
      if j < k {
        ReadsAllFrom(head, file, recs, j + 1, drops);
        FirstOfSlice(recs, j, k);
      } else {
        assert recs[j..k] == [];
      }
    }
  }

  lemma FirstOfSlice(s: seq<Bytes>, j: nat, k: nat)
    requires j < k <= |s|
    ensures s[j..k] == [s[j]] + s[j + 1..k]
  {
  }

  lemma EndOfFile(head: Head, file: Bytes, drops: seq<nat>)
    ensures RecordFrom(head, file, |file|, None, drops) == Outcome(None, |file|, drops)
  {
    assert PhysicalAt(head, file, |file|) == End(|file|);
    assert drops + [] + [] == drops;
  }

  /** A log cut off at byte `t` reads as the records that end within `t`; no drop is reported. */
  lemma CutLogReads(head: Head, recs: seq<Bytes>, t: nat)
    requires IsHead(head) && t <= |Records(head, 0, recs)|
    ensures AllFrom(head, Records(head, 0, recs)[..t], 0, []) == (recs[..WholeWithin(head, recs, t)], [])
  {
    assert recs[..0] == [];
    ReadsAllFrom(head, Records(head, 0, recs)[..t], recs, 0, []);
  }

  /** A log reads back as the records written to it. */
  lemma LogRoundTrip(head: Head, recs: seq<Bytes>)
    requires IsHead(head)
    ensures AllFrom(head, Records(head, 0, recs), 0, []) == (recs, [])
  {
    CutLogReads(head, recs, |Records(head, 0, recs)|);
    assert Records(head, 0, recs)[..|Records(head, 0, recs)|] == Records(head, 0, recs);
    assert recs[..|recs|] == recs;
  }

  /** Closing a log and reopening it for appending leaves no seam. */
  lemma {:induction false} ReopenedLog(head: Head, a: seq<Bytes>, b: seq<Bytes>)
    ensures Records(head, 0, a) + Records(head, |Records(head, 0, a)|, b) == Records(head, 0, a + b)
  {
    if b == [] {
      assert a + b == a;
    } else {
      hide Written;
      var init := b[..|b| - 1];
      ReopenedLog(head, a, init);
      OneMoreRecord(head, a, init, b[|b| - 1], Records(head, 0, a), Records(head, |Records(head, 0, a)|, init));
      assert b == init + [b[|b| - 1]] && a + b == a + init + [b[|b| - 1]];
    }
  }

  lemma OneMoreRecord(head: Head, a: seq<Bytes>, b: seq<Bytes>, last: Bytes, wa: Bytes, wb: Bytes)
    requires wa == Records(head, 0, a) && wb == Records(head, |wa|, b) && wa + wb == Records(head, 0, a + b)
    ensures wa + Records(head, |wa|, b + [last]) == Records(head, 0, a + b + [last])
  {
    hide Written, Records;
    var w := Written(head, (|wa| + |wb|) % BLOCK, last, true);
    AddsRecord(head, |wa|, b, last);
    AddsRecord(head, 0, a + b, last);
    ConcatAssoc(wa, wb, w);
  }

  lemma AddsRecord(head: Head, from: nat, recs: seq<Bytes>, last: Bytes)
    ensures var before := Records(head, from, recs);
            Records(head, from, recs + [last]) == before + Written(head, (from + |before|) % BLOCK, last, true)
  {
    hide Written;
    var all := recs + [last];
    assert all[..|all| - 1] == recs && all[|all| - 1] == last;
  }

  // ----- logs that were damaged, or reopened behind a record that was cut off

  /** Physical records that lie one after the other from `p` to `q` and make a record: a
      full one, or a first one, middle ones and a last one. Without `begin`, what is left
      of it after the first. */
  ghost predicate Framed(head: Head, file: Bytes, p: nat, begin: bool, record: Bytes, q: nat)
    requires p <= |file|
    decreases |file| - p
  {
    var ph := PhysicalAt(head, file, p);
    && ph.Piece?
    && if begin && ph.kind == 1 then record == ph.data && q == ph.next
       else if !begin && ph.kind == 4 then record == ph.data && q == ph.next
       else ph.kind == (if begin then 2 else 3) && ph.data <= record && Framed(head, file, ph.next, false, record[|ph.data|..], q)
  }

  /** Whatever a file holds, a record the reader returns is framed from its first physical
      record to its last, with nothing before it and nothing left out between them. */
  lemma {:induction false} ReturnsFramed(head: Head, file: Bytes, p: nat, open: Option<Bytes>, drops: seq<nat>) returns (start: nat)
    requires p <= |file|
    ensures var r := RecordFrom(head, file, p, open, drops);
            r.record.Some? ==>
              || (start == p && open.Some? && open.value <= r.record.value
                  && Framed(head, file, p, false, r.record.value[|open.value|..], r.next))
              || (p <= start <= |file| && Framed(head, file, start, true, r.record.value, r.next))
    decreases |file| - p
  {
    hide PhysicalAt;
    var ph := PhysicalAt(head, file, p);
    var step := Digest(ph.Kind(), ph.Data(), open);
    start := p;
    if step.Go? {
      var drops' := drops + ph.Dropped() + Reported(ph.Kind(), ph.Data(), open);
      start := ReturnsFramed(head, file, ph.next, step.open, drops');
      var r := RecordFrom(head, file, ph.next, step.open, drops');
      if r.record.Some? && step.open.Some? && start == ph.next && step.open.value <= r.record.value
         && Framed(head, file, ph.next, false, r.record.value[|step.open.value|..], r.next) {
        start := p;
        if ph.kind == MIDDLE {
          SliceTwice(r.record.value, open.value, ph.data);
        }
      }
    }
  }

  lemma SliceTwice(record: Bytes, a: Bytes, b: Bytes)
    requires a + b <= record
    ensures a <= record && b <= record[|a|..] && record[|a|..][|b|..] == record[|a + b|..]
  {
    assert record[..|a + b|] == a + b;
    assert record[..|a|] == a;
    assert record[|a|..][..|b|] == b;
  }

  /** A record that begins ends whatever was open: nothing of that is returned with it. */
  lemma BeginningEndsOpen(head: Head, file: Bytes, p: nat, open: Option<Bytes>, drops: seq<nat>) returns (drops': seq<nat>)
    requires p <= |file| && PhysicalAt(head, file, p).Piece?
    requires PhysicalAt(head, file, p).kind == FULL || PhysicalAt(head, file, p).kind == FIRST
    ensures RecordFrom(head, file, p, open, drops) == RecordFrom(head, file, p, None, drops')
  {
    hide PhysicalAt;
    var ph := PhysicalAt(head, file, p);
    drops' := drops + Reported(ph.Kind(), ph.Data(), open);
    assert drops + [] + Reported(ph.Kind(), ph.Data(), open) == drops' + [] + [];
  }

  /** A record that was written whole is read as it is, whatever was read before it: the
      rest of a record that was cut off, or anything else. */
  lemma ReadWhateverBefore(head: Head, file: Bytes, p: nat, data: Bytes, open: Option<Bytes>, drops: seq<nat>) returns (drops': seq<nat>)
    requires IsHead(head) && p + |Written(head, p % BLOCK, data, true)| <= |file|
    requires Agrees(file, p, Written(head, p % BLOCK, data, true))
    ensures RecordFrom(head, file, p, open, drops) == Outcome(Some(data), p + |Written(head, p % BLOCK, data, true)|, drops')
  {
    hide PhysicalAt, Fragment, RecordFrom;
    FragmentAgrees(head, file, p, data, true);
    assert |Fragment(head, p % BLOCK, data, true)| <= |Written(head, p % BLOCK, data, true)|;
    ReadsFragment(head, file, p, data, true);
    drops' := BeginningEndsOpen(head, file, p, open, drops);
    assert [] + data == data;
    ReadsRecord(head, file, p, data, true, [], drops');
  }

  // ----- writer and reader together

  /** Writes the records to a new log. */
  method WriteLog(recs: seq<Bytes>, address: nat) returns (file: Bytes)
    ensures file == Records(HeaderOf, 0, recs)
  {
    var w := new Writer([], address);
    for i := 0 to |recs|
      invariant w.Valid() && w.head == HeaderOf && w.dest == Records(HeaderOf, 0, recs[..i])
    {
      assert recs[..i + 1][..i] == recs[..i];
      w.AddRecord(recs[i], address);
    }
    assert recs[..|recs|] == recs;
    file := w.dest;
  }

  /** Reads records until the reader says there are no more, as recovery does. */
  method ReadLog(file: Bytes) returns (recs: seq<Bytes>, drops: seq<nat>)
    ensures (recs, drops) == AllFrom(HeaderOf, file, 0, [])
  {
    var r := new Reader(file);
    recs := [];
    assert [] + AllFrom(HeaderOf, file, 0, []).0 == AllFrom(HeaderOf, file, 0, []).0;
    ghost var p, before := 0, r.drops;
    while true
      invariant r.Valid() && r.head == HeaderOf && r.file == file && p == r.Position() && before == r.drops
      invariant var rest := AllFrom(HeaderOf, file, p, before); (recs + rest.0, rest.1) == AllFrom(HeaderOf, file, 0, [])
      decreases |file| - p
    {
      var record := r.ReadRecord();
      if record == None {
        assert recs + [] == recs;
        return recs, r.drops;
      }
      ghost var rest := AllFrom(HeaderOf, file, r.Position(), r.drops).0;
      assert recs + ([record.value] + rest) == recs + [record.value] + rest;
      recs := recs + [record.value];
      p, before := r.Position(), r.drops;
    }
  }
}
