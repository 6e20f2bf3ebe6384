/** Damage to a log does not reach past the end of its block (`db/log_reader.cc`): every
    record that begins behind it is read back. */
module LogDamage {
  import opened Keys
  import opened Log
  import opened LogReader
  import opened LogTheorem

  // ----- the records returned, one physical record at a time

  /** What the reader returns from `p` on; `open` is what it has collected. */
  function Returned(head: Head, file: Bytes, p: nat, open: Option<Bytes>): seq<Bytes>
    requires p <= |file|
    decreases |file| - p
  {
    var ph := PhysicalAt(head, file, p);
    match Digest(ph.Kind(), ph.Data(), open)
    case Return(record) => [record] + Returned(head, file, ph.next, None)
    case Stop => []
    case Go(open') => Returned(head, file, ph.next, open')
  }

  lemma {:induction false} RecordReturned(head: Head, file: Bytes, p: nat, open: Option<Bytes>, drops: seq<nat>)
    requires p <= |file|
    ensures var r := RecordFrom(head, file, p, open, drops);
            Returned(head, file, p, open) == if r.record == None then [] else [r.record.value] + Returned(head, file, r.next, None)
    decreases |file| - p
  {
    hide PhysicalAt;
    var ph := PhysicalAt(head, file, p);
    var step := Digest(ph.Kind(), ph.Data(), open);
    if step.Go? {
      RecordReturned(head, file, ph.next, step.open, drops + ph.Dropped() + Reported(ph.Kind(), ph.Data(), open));
    }
  }

  /** The records of the reader, whatever it reports as dropped. */
  lemma {:induction false} AllReturned(head: Head, file: Bytes, p: nat, drops: seq<nat>)
    requires p <= |file|
    ensures AllFrom(head, file, p, drops).0 == Returned(head, file, p, None)
    decreases |file| - p
  {
    hide RecordFrom, Returned;
    RecordReturned(head, file, p, None, drops);
    var r := RecordFrom(head, file, p, None, drops);
    if r.record.Some? {
      AllReturned(head, file, r.next, r.drops);
    }
  }

  /** A physical record of type 5 with the right checksum is taken for the end of the file. */
  predicate EndsThere(head: Head, file: Bytes, p: nat)
    requires p <= |file|
  {
    var ph := PhysicalAt(head, file, p);
    ph.Piece? && ph.kind == 5
  }

  lemma NothingAfterType5(head: Head, file: Bytes, p: nat, open: Option<Bytes>)
    requires p <= |file| && EndsThere(head, file, p)
    ensures Returned(head, file, p, open) == []
  {
  }

  // ----- where the reader gets to

  /** From `p` with `open` the reader returns `got`, and then goes on at `q` with `open'`. */
  ghost predicate Leads(head: Head, file: Bytes, p: nat, open: Option<Bytes>, got: seq<Bytes>, q: nat, open': Option<Bytes>) {
    p <= |file| && q <= |file| && Returned(head, file, p, open) == got + Returned(head, file, q, open')
  }

  lemma LeadsOn(head: Head, file: Bytes, p: nat, open: Option<Bytes>, got: seq<Bytes>, q: nat, open': Option<Bytes>,
                more: seq<Bytes>, r: nat, open'': Option<Bytes>)
    requires Leads(head, file, p, open, got, q, open') && Leads(head, file, q, open', more, r, open'')
    ensures Leads(head, file, p, open, got + more, r, open'')
  {
    hide Returned;
    ConcatAssoc(got, more, Returned(head, file, r, open''));
  }

  lemma ConcatAssoc(a: seq<Bytes>, b: seq<Bytes>, c: seq<Bytes>)
    ensures a + b + c == a + (b + c)
  {
  }

  lemma LeadsNowhere(head: Head, file: Bytes, p: nat, open: Option<Bytes>)
    requires p <= |file|
    ensures Leads(head, file, p, open, [], p, open)
  {
    hide Returned;
  }

  /** Past one physical record, unless it is taken for the end. */
  lemma PastOne(head: Head, file: Bytes, p: nat, open: Option<Bytes>) returns (got: seq<Bytes>, open': Option<Bytes>)
    requires p <= |file| && !PhysicalAt(head, file, p).End? && !EndsThere(head, file, p)
    ensures Leads(head, file, p, open, got, PhysicalAt(head, file, p).next, open')
  {
    hide PhysicalAt;
    var ph := PhysicalAt(head, file, p);
    match Digest(ph.Kind(), ph.Data(), open)
    case Return(record) => got, open' := [record], None;
    case Go(o) =>
      got, open' := [], o;
  }

  /** To the end of the block, over anything. */
  lemma {:induction false} PastBlock(head: Head, file: Bytes, p: nat, e: nat, open: Option<Bytes>)
    returns (got: seq<Bytes>, open': Option<Bytes>, stop: Option<nat>)
    requires p <= e <= |file| && e % BLOCK == 0 && e - p <= BLOCK
    ensures stop == None ==> Leads(head, file, p, open, got, e, open')
    ensures stop.Some? ==> p <= stop.value < e && EndsThere(head, file, stop.value) && Returned(head, file, p, open) == got
    decreases e - p
  {
    hide Returned, PhysicalAt, Leads, EndsThere;
    stop := None;
    if p == e {
      LeadsNowhere(head, file, p, open);
      got, open' := [], open;
    } else {
      InFullBlock(head, file, p, e);
      if e - p < HEADER {
        SameFromThere(head, file, p, e, open);
        got, open' := [], open;
      } else if EndsThere(head, file, p) {
        NothingAfterType5(head, file, p, open);
        got, open', stop := [], None, Some(p);
      } else {
        var first, between := PastOne(head, file, p, open);
        var q := PhysicalAt(head, file, p).next;
        var more: seq<Bytes>;
        more, open', stop := PastBlock(head, file, q, e, between);
        got := first + more;
        if stop == None {
          LeadsOn(head, file, p, open, first, q, between, more, e, open');
        } else {
          LeadsTo(head, file, p, open, first, q, between, more);
        }
      }
    }
  }

  lemma LeadsTo(head: Head, file: Bytes, p: nat, open: Option<Bytes>, got: seq<Bytes>, q: nat, open': Option<Bytes>, more: seq<Bytes>)
    requires Leads(head, file, p, open, got, q, open') && Returned(head, file, q, open') == more
    ensures Returned(head, file, p, open) == got + more
  {
    hide Returned;
  }

  lemma InFullBlock(head: Head, file: Bytes, p: nat, e: nat)
    requires p < e <= |file| && e % BLOCK == 0 && e - p <= BLOCK
    ensures e - p < HEADER ==> PhysicalAt(head, file, p) == PhysicalAt(head, file, e)
    ensures e - p >= HEADER ==> !PhysicalAt(head, file, p).End? && p < PhysicalAt(head, file, p).next <= e
  {
    assert BufferEnd(file, p) == e && FullBlock(file, p);
  }

  lemma SameFromThere(head: Head, file: Bytes, p: nat, q: nat, open: Option<Bytes>)
    requires p <= |file| && q <= |file| && PhysicalAt(head, file, p) == PhysicalAt(head, file, q)
    ensures Leads(head, file, p, open, [], q, open)
  {
    hide PhysicalAt;
  }

  /** To the end of any block. */
  lemma {:induction false} PastBlocks(head: Head, file: Bytes, n: nat) returns (got: seq<Bytes>, open: Option<Bytes>, stop: Option<nat>)
    requires n * BLOCK <= |file|
    ensures stop == None ==> Leads(head, file, 0, None, got, n * BLOCK, open)
    ensures stop.Some? ==> stop.value < n * BLOCK && EndsThere(head, file, stop.value) && Returned(head, file, 0, None) == got
  {
    hide Returned, PhysicalAt, Leads, EndsThere;
    if n == 0 {
      LeadsNowhere(head, file, 0, None);
      got, open, stop := [], None, None;
    } else {
      var before, between;
      before, between, stop := PastBlocks(head, file, n - 1);
      if stop == None {
        var p, e := (n - 1) * BLOCK, n * BLOCK;
        var more;
        more, open, stop := PastBlock(head, file, p, e, between);
        got := before + more;
        if stop == None {
          LeadsOn(head, file, 0, None, before, p, between, more, e, open);
        } else {
          LeadsTo(head, file, 0, None, before, p, between, more);
        }
      } else {
        got, open := before, None;
      }
    }
  }

  /** Over what was written of a record, or of the rest of one, whatever is open. */
  lemma {:induction false} PastWritten(head: Head, file: Bytes, p: nat, data: Bytes, begin: bool, open: Option<Bytes>)
    returns (got: seq<Bytes>, open': Option<Bytes>)
    requires IsHead(head) && p + |Written(head, p % BLOCK, data, begin)| <= |file| && Agrees(file, p, Written(head, p % BLOCK, data, begin))
    ensures Leads(head, file, p, open, got, p + |Written(head, p % BLOCK, data, begin)|, open')
    decreases |data|, BlockIsFull(p % BLOCK)
  {
    hide Returned, PhysicalAt, Fragment, Leads;
    var off := p % BLOCK;
    var n := Fits(off, |data|);
    var first := Fragment(head, off, data, begin);
    FragmentAgrees(head, file, p, data, begin);
    assert |first| <= |Written(head, off, data, begin)|;
    ReadsFragment(head, file, p, data, begin);
    got, open' := PastOne(head, file, p, open);
    if n < |data| {
      RestAgrees(head, file, p, data, begin);
      NextOffset(head, p, data, begin);
      var more, last := PastWritten(head, file, p + |first|, data[n..], false, open');
      LeadsOn(head, file, p, open, got, p + |first|, open', more, p + |Written(head, off, data, begin)|, last);
      got, open' := got + more, last;
    }
  }

  // ----- records that begin behind the damage

  /** From `b` on the file has what `s`, which stands at `p`, has there. */
  ghost predicate AgreesPast(file: Bytes, b: nat, p: nat, s: Bytes) {
    p + |s| <= |file| && forall i: nat {:trigger s[i]} :: i < |s| && b <= p + i ==> file[p + i] == s[i]
  }

  lemma AgreesPastParts(file: Bytes, b: nat, p: nat, x: Bytes, y: Bytes)
    requires AgreesPast(file, b, p, x + y)
    ensures AgreesPast(file, b, p, x) && AgreesPast(file, b, p + |x|, y)
  {
    forall i: nat | i < |x| && b <= p + i
      ensures file[p + i] == x[i]
    {
      assert (x + y)[i] == x[i];
    }
    forall i: nat | i < |y| && b <= p + |x| + i
      ensures file[p + |x| + i] == y[i]
    {
      assert (x + y)[|x| + i] == y[i];
    }
  }

  /** Over the part behind `b` of a record that stands across it. */
  lemma {:induction false} PastCrossing(head: Head, file: Bytes, b: nat, p: nat, data: Bytes, begin: bool, open: Option<Bytes>)
    returns (got: seq<Bytes>, open': Option<Bytes>)
    requires IsHead(head) && b % BLOCK == 0 && p <= b < p + |Written(head, p % BLOCK, data, begin)|
    requires AgreesPast(file, b, p, Written(head, p % BLOCK, data, begin))
    ensures Leads(head, file, b, open, got, p + |Written(head, p % BLOCK, data, begin)|, open')
    decreases |data|, b - p
  {
    hide Returned, PhysicalAt, Leads, Fragment, Written;
    var off := p % BLOCK;
    if p == b {
      got, open' := PastWritten(head, file, p, data, begin, open);
    } else if Start(off) != off {
      TrailerFirst(head, off, data, begin);
      AgreesPastParts(file, b, p, Trailer(off), Written(head, 0, data, begin));
      NextBlock(p, b);
      got, open' := PastCrossing(head, file, b, p + |Trailer(off)|, data, begin, open);
    } else {
      var n := Fits(off, |data|);
      var first := Fragment(head, off, data, begin);
      FragmentThenRest(head, off, data, begin);
      NextBlock(p, b);
      FragmentSize(head, off, data, begin);
      NextOffset(head, p, data, begin);
      AgreesPastParts(file, b, p, first, Written(head, 0, data[n..], false));
      got, open' := PastCrossing(head, file, b, p + |first|, data[n..], false, open);
    }
  }

  lemma NextBlock(p: nat, b: nat)
    requires p < b && b % BLOCK == 0
    ensures p - p % BLOCK + BLOCK <= b
    ensures (p - p % BLOCK + BLOCK) % BLOCK == 0
  {
  }

  lemma TrailerFirst(head: Head, off: nat, data: Bytes, begin: bool)
    requires off <= BLOCK && Start(off) != off
    ensures |Trailer(off)| == BLOCK - off && Written(head, off, data, begin) == Trailer(off) + Written(head, 0, data, begin)
  {
    hide IsHead;
    var n := Fits(off, |data|);
    assert n == Fits(0, |data|);
    assert Trailer(0) == [];
    var f := head(Kind(begin, n == |data|), data[..n]) + data[..n];
    assert Fragment(head, 0, data, begin) == f;
    assert Fragment(head, off, data, begin) == Trailer(off) + f;
  }

  lemma FragmentSize(head: Head, off: nat, data: Bytes, begin: bool)
    requires off <= BLOCK && Start(off) == off
    ensures |Fragment(head, off, data, begin)| == HEADER + Fits(off, |data|) <= BLOCK - off
  {
  }

  lemma FragmentThenRest(head: Head, off: nat, data: Bytes, begin: bool)
    requires off <= BLOCK
    ensures Fits(off, |data|) == |data| ==> Written(head, off, data, begin) == Fragment(head, off, data, begin)
    ensures Fits(off, |data|) < |data| ==>
              Written(head, off, data, begin) == Fragment(head, off, data, begin) + Written(head, 0, data[Fits(off, |data|)..], false)
  {
    hide Fragment;
    var n := Fits(off, |data|);
    if n < |data| {
      EndIsStart(head, BLOCK, data[n..], false);
    }
  }

  /** Where record `j` of a log begun at `from` is written. */
  function At(head: Head, from: nat, recs: seq<Bytes>, j: nat): nat
    requires j <= |recs|
  {
    from + |Records(head, from, recs[..j])|
  }

  lemma RecordAt(head: Head, from: nat, recs: seq<Bytes>, j: nat)
    requires j < |recs|
    ensures var w := Written(head, At(head, from, recs, j) % BLOCK, recs[j], true);
            && Records(head, from, recs[..j + 1]) == Records(head, from, recs[..j]) + w
            && At(head, from, recs, j + 1) == At(head, from, recs, j) + |w|
  {
    hide Written;
    assert recs[..j + 1][..j] == recs[..j];
  }

  lemma {:induction false} RecordsBefore(head: Head, from: nat, recs: seq<Bytes>, j: nat)
    requires j <= |recs|
    ensures Records(head, from, recs[..j]) <= Records(head, from, recs)
  {
    hide Written;
    if j < |recs| {
      RecordsBefore(head, from, recs[..|recs| - 1], j);
      assert recs[..|recs| - 1][..j] == recs[..j];
    } else {
      assert recs[..j] == recs;
    }
  }

  /** The file has record `j` behind `b`. */
  lemma RecordAgrees(head: Head, file: Bytes, b: nat, from: nat, recs: seq<Bytes>, j: nat)
    requires j < |recs| && AgreesPast(file, b, from, Records(head, from, recs))
    ensures var p := At(head, from, recs, j);
            AgreesPast(file, b, p, Written(head, p % BLOCK, recs[j], true))
  {
    hide Written, Records;
    RecordAt(head, from, recs, j);
    RecordsBefore(head, from, recs, j + 1);
    var all, some := Records(head, from, recs), Records(head, from, recs[..j + 1]);
    forall i: nat | i < |some| && b <= from + i
      ensures file[from + i] == some[i]
    {
      assert all[i] == some[i];
    }
    var p := At(head, from, recs, j);
    AgreesPastParts(file, b, from, Records(head, from, recs[..j]), Written(head, p % BLOCK, recs[j], true));
  }

  /** From `b` the reader gets to every record that ends behind it. */
  lemma {:induction false} Reaches(head: Head, file: Bytes, b: nat, from: nat, recs: seq<Bytes>, k: nat, open: Option<Bytes>)
    returns (got: seq<Bytes>, open': Option<Bytes>)
    requires IsHead(head) && b % BLOCK == 0 && from <= b && k <= |recs| && b <= At(head, from, recs, k)
    requires AgreesPast(file, b, from, Records(head, from, recs))
    ensures Leads(head, file, b, open, got, At(head, from, recs, k), open')
    decreases k
  {
    hide Returned, Written, Records, Leads, AgreesPast, IsHead;
    var q := At(head, from, recs, k);
    AtInFile(head, file, b, from, recs, k);
    if q == b {
      LeadsNowhere(head, file, b, open);
      got, open' := [], open;
    } else {
      FirstAt(head, from, recs);
      var p := At(head, from, recs, k - 1);
      var w := Written(head, p % BLOCK, recs[k - 1], true);
      RecordAt(head, from, recs, k - 1);
      RecordAgrees(head, file, b, from, recs, k - 1);
      if p <= b {
        got, open' := PastCrossing(head, file, b, p, recs[k - 1], true, open);
      } else {
        var before, between := Reaches(head, file, b, from, recs, k - 1, open);
        AgreesAll(file, b, p, w);
        var more;
        more, open' := PastWritten(head, file, p, recs[k - 1], true, between);
        LeadsOn(head, file, b, open, before, p, between, more, q, open');
        got := before + more;
      }
    }
  }

  lemma FirstAt(head: Head, from: nat, recs: seq<Bytes>)
    ensures At(head, from, recs, 0) == from
  {
  }

  lemma AtInFile(head: Head, file: Bytes, b: nat, from: nat, recs: seq<Bytes>, k: nat)
    requires k <= |recs| && AgreesPast(file, b, from, Records(head, from, recs))
    ensures At(head, from, recs, k) <= |file|
  {
    hide Records;
    RecordsBefore(head, from, recs, k);
  }

  lemma AgreesAll(file: Bytes, b: nat, p: nat, s: Bytes)
    requires b <= p && AgreesPast(file, b, p, s)
    ensures p + |s| <= |file| && Agrees(file, p, s)
  {
  }

  /** From a record on, all are read, whatever is open before. */
  lemma {:induction false} ReadsRest(head: Head, file: Bytes, b: nat, from: nat, recs: seq<Bytes>, k: nat, open: Option<Bytes>)
    requires IsHead(head) && k <= |recs| && b <= At(head, from, recs, k) && |file| == At(head, from, recs, |recs|)
    requires AgreesPast(file, b, from, Records(head, from, recs))
    ensures At(head, from, recs, k) <= |file| && Returned(head, file, At(head, from, recs, k), open) == recs[k..]
    decreases |recs| - k
  {
    hide Returned, RecordFrom, Written, Records, AgreesPast, IsHead;
    AtInFile(head, file, b, from, recs, k);
    var p := At(head, from, recs, k);
    if k == |recs| {
      NothingAtEnd(head, file, open);
    } else {
      var w := Written(head, p % BLOCK, recs[k], true);
      RecordAt(head, from, recs, k);
      RecordAgrees(head, file, b, from, recs, k);
      AgreesAll(file, b, p, w);
      var drops := ReadWhateverBefore(head, file, p, recs[k], open, []);
      RecordReturned(head, file, p, open, []);
      ReadsRest(head, file, b, from, recs, k + 1, None);
    }
  }

  lemma NothingAtEnd(head: Head, file: Bytes, open: Option<Bytes>)
    ensures Returned(head, file, |file|, open) == []
  {
    assert PhysicalAt(head, file, |file|) == End(|file|);
  }

  /** A record of which no header fits before `b` is written from `b` on. */
  lemma BeginsAt(head: Head, file: Bytes, b: nat, p: nat, data: Bytes)
    requires b % BLOCK == 0 && p < b < p + 7 && AgreesPast(file, b, p, Written(head, p % BLOCK, data, true))
    ensures |Written(head, p % BLOCK, data, true)| == b - p + |Written(head, 0, data, true)|
    ensures Agrees(file, b, Written(head, 0, data, true)) && b + |Written(head, 0, data, true)| <= |file|
  {
    hide Written;
    NextBlock(p, b);
    TrailerFirst(head, p % BLOCK, data, true);
    AgreesPastParts(file, b, p, Trailer(p % BLOCK), Written(head, 0, data, true));
    AgreesAll(file, b, b, Written(head, 0, data, true));
  }

  /** What is read from `b` on: first what is left of records that began before, or nothing;
      then every record that begins behind `b`. */
  lemma ReadBehind(head: Head, file: Bytes, b: nat, from: nat, recs: seq<Bytes>, k: nat, open: Option<Bytes>) returns (lost: seq<Bytes>)
    requires IsHead(head) && b % BLOCK == 0 && from <= b <= |file| == At(head, from, recs, |recs|)
    requires AgreesPast(file, b, from, Records(head, from, recs)) && k <= |recs| && b < At(head, from, recs, k) + 7
    ensures Returned(head, file, b, open) == lost + recs[k..]
  {
    hide Returned, RecordFrom, Written, Records, AgreesPast, IsHead;
    var p := At(head, from, recs, k);
    if b <= p {
      var open';
      lost, open' := Reaches(head, file, b, from, recs, k, open);
      ReadsRest(head, file, b, from, recs, k, open');
    } else {
      RecordAt(head, from, recs, k);
      RecordAgrees(head, file, b, from, recs, k);
      BeginsAt(head, file, b, p, recs[k]);
      var drops := ReadWhateverBefore(head, file, b, recs[k], open, []);
      RecordReturned(head, file, b, open, []);
      ReadsRest(head, file, b, from, recs, k + 1, None);
      lost := [];
      assert recs[k..] == [recs[k]] + recs[k + 1..];
    }
  }

  /** Damage is local. A file that from the block boundary `b` on holds what was written of
      a log is read back with every record that begins behind `b`, whatever comes before:
      bytes that have changed, a record that was cut off, or anything else; unless the
      reader finds a physical record of type 5 there, with the right checksum, which it
      takes for the end of the file. */
  lemma DamageIsLocal(head: Head, file: Bytes, b: nat, from: nat, recs: seq<Bytes>, k: nat) returns (lost: seq<Bytes>, stop: Option<nat>)
    requires IsHead(head) && b % 32768 == 0 && from <= b <= |file| == from + |Records(head, from, recs)|
    requires forall i :: b <= i < |file| ==> file[i] == Records(head, from, recs)[i - from]
    requires k <= |recs| && b < from + |Records(head, from, recs[..k])| + 7
    ensures stop == None ==> AllFrom(head, file, 0, []).0 == lost + recs[k..]
    ensures stop.Some? ==> stop.value < b && EndsThere(head, file, stop.value) && AllFrom(head, file, 0, []).0 == lost
  {
    hide Returned, AllFrom, Written, Records, IsHead, PhysicalAt, EndsThere;
    assert recs[..|recs|] == recs;
    assert AgreesPast(file, b, from, Records(head, from, recs));
    AllReturned(head, file, 0, []);
    var n := b / BLOCK;
    assert n * BLOCK == b;
    var open;
    lost, open, stop := PastBlocks(head, file, n);
    if stop == None {
      var more := ReadBehind(head, file, b, from, recs, k, open);
      ConcatAssoc(lost, more, recs[k..]);
      lost := lost + more;
    }
  }

  /** A log that was changed anywhere before a block boundary. */
  lemma ChangedLogReads(head: Head, file: Bytes, recs: seq<Bytes>, b: nat, k: nat) returns (lost: seq<Bytes>, stop: Option<nat>)
    requires IsHead(head) && |file| == |Records(head, 0, recs)| && b % 32768 == 0 && b <= |file|
    requires file[b..] == Records(head, 0, recs)[b..] && k <= |recs| && b < |Records(head, 0, recs[..k])| + 7
    ensures stop == None ==> AllFrom(head, file, 0, []).0 == lost + recs[k..]
    ensures stop.Some? ==> stop.value < b && EndsThere(head, file, stop.value) && AllFrom(head, file, 0, []).0 == lost
  {
    hide AllFrom, Records, IsHead, EndsThere;
    var log := Records(head, 0, recs);
    forall i | b <= i < |file|
      ensures file[i] == log[i - 0]
    {
      assert file[b..][i - b] == log[b..][i - b];
    }
    lost, stop := DamageIsLocal(head, file, b, 0, recs, k);
  }

  /** A log that is written on behind anything, as it is when the last record of a log that
      is used again was cut off: every record that begins in a later block is read back. */
  lemma WrittenOnReads(head: Head, junk: Bytes, recs: seq<Bytes>, b: nat, k: nat) returns (lost: seq<Bytes>, stop: Option<nat>)
    requires IsHead(head) && b % 32768 == 0 && k <= |recs| && |junk| <= b < |junk| + |Records(head, |junk|, recs[..k])| + 7
    ensures var file := junk + Records(head, |junk|, recs);
            && (stop == None ==> AllFrom(head, file, 0, []).0 == lost + recs[k..])
            && (stop.Some? ==> stop.value < b && stop.value <= |file| && EndsThere(head, file, stop.value) && AllFrom(head, file, 0, []).0 == lost)
  {
    hide AllFrom, Records, Written, IsHead, EndsThere;
    var log := Records(head, |junk|, recs);
    var file := junk + log;
    if b <= |file| {
      lost, stop := DamageIsLocal(head, file, b, |junk|, recs, k);
    } else {
      NoneBegins(head, |junk|, recs, b, k);
      lost, stop := AllFrom(head, file, 0, []).0, None;
      assert lost + recs[k..] == lost;
    }
  }

  /** No record begins behind a boundary that the log does not reach. */
  lemma NoneBegins(head: Head, from: nat, recs: seq<Bytes>, b: nat, k: nat)
    requires b % BLOCK == 0 && k <= |recs| && from + |Records(head, from, recs)| < b < At(head, from, recs, k) + 7
    ensures k == |recs|
  {
    hide Written, Records;
    if k < |recs| {
      var p := At(head, from, recs, k);
      RecordAt(head, from, recs, k);
      RecordsBefore(head, from, recs, k + 1);
      NextBlock(p, b);
      TrailerFirst(head, p % BLOCK, recs[k], true);
      assert false;
    }
  }

  // ----- nothing is lost in silence

  function Sum(ns: seq<nat>): nat {
    if ns == [] then 0 else Sum(ns[..|ns| - 1]) + ns[|ns| - 1]
  }

  function Size(recs: seq<Bytes>): nat {
    if recs == [] then 0 else |recs[0]| + Size(recs[1..])
  }

  lemma {:induction false} SumAppend(a: seq<nat>, b: seq<nat>)
    ensures Sum(a + b) == Sum(a) + Sum(b)
  {
    if b == [] {
      assert a + b == a;
    } else {
      SumAppend(a, b[..|b| - 1]);
      assert (a + b)[..|a + b| - 1] == a + b[..|b| - 1];
    }
  }

  /** The bytes of payload that stand in the physical records from `p` on, and the bytes of
      the stretches that are reported as bad. A record of type 5 ends the file, and the
      payload of one of type 6, which stands for a bad record, does not count. */
  function Content(head: Head, file: Bytes, p: nat): nat
    requires p <= |file|
    decreases |file| - p
  {
    match PhysicalAt(head, file, p)
    case End(_) => 0
    case Bad(dropped, next) => Sum(dropped) + Content(head, file, next)
    case Piece(kind, data, next) => if kind == 5 then 0 else (if kind == 6 then 0 else |data|) + Content(head, file, next)
  }

  /** What is collected of a record when the reader comes to the end. */
  function Unfinished(head: Head, file: Bytes, p: nat, open: Option<Bytes>): nat
    requires p <= |file|
    decreases |file| - p
  {
    var ph := PhysicalAt(head, file, p);
    match Digest(ph.Kind(), ph.Data(), open)
    case Return(_) => Unfinished(head, file, ph.next, None)
    case Stop => Held(open)
    case Go(open') => Unfinished(head, file, ph.next, open')
  }

  function Held(open: Option<Bytes>): nat {
    if open.Some? then |open.value| else 0
  }

  /** What a fragment adds is returned, reported or still held. */
  lemma ReportAccounted(kind: nat, data: Bytes, open: Option<Bytes>)
    ensures var reported := Reported(kind, data, open);
            && (|reported| == 0 || |reported| == 1)
            && match Digest(kind, data, open)
               case Return(record) => kind != 5 && kind != 6 && Sum(reported) + |record| == Held(open) + |data|
               case Stop => kind == 5 && Sum(reported) == 0
               case Go(open') => kind != 5 && Sum(reported) + Held(open') == Held(open) + if kind == 6 then 0 else |data|
  {
    SumOfOne(Reported(kind, data, open));
  }

  lemma SumOfOne(ns: seq<nat>)
    ensures |ns| == 0 ==> Sum(ns) == 0
    ensures |ns| == 1 ==> Sum(ns) == ns[0]
  {
  }

  /** One physical record's share. */
  lemma ContentIs(head: Head, file: Bytes, p: nat)
    requires p <= |file|
    ensures var ph := PhysicalAt(head, file, p);
            var payload := if ph.Kind() == 6 then 0 else |ph.Data()|;
            Content(head, file, p) == if ph.Kind() == 5 then 0 else Sum(ph.Dropped()) + payload + Content(head, file, ph.next)
  {
    hide PhysicalAt;
  }

  lemma StepAccounted(head: Head, file: Bytes, p: nat, open: Option<Bytes>, drops: seq<nat>)
    requires p <= |file|
    ensures var ph := PhysicalAt(head, file, p);
            var drops' := drops + ph.Dropped() + Reported(ph.Kind(), ph.Data(), open);
            match Digest(ph.Kind(), ph.Data(), open)
            case Return(record) => Sum(drops') + |record| + Content(head, file, ph.next) == Sum(drops) + Held(open) + Content(head, file, p)
            case Stop => Sum(drops') == Sum(drops) && Content(head, file, p) == 0
            case Go(open') => Sum(drops') + Held(open') + Content(head, file, ph.next) == Sum(drops) + Held(open) + Content(head, file, p)
  {
    hide PhysicalAt, Content, Reported, Digest, Sum;
    var ph := PhysicalAt(head, file, p);
    ContentIs(head, file, p);
    ReportAccounted(ph.Kind(), ph.Data(), open);
    SumAppend(drops + ph.Dropped(), Reported(ph.Kind(), ph.Data(), open));
    SumAppend(drops, ph.Dropped());
    SumOfOne(ph.Dropped());
  }

  lemma {:induction false} RecordAccounted(head: Head, file: Bytes, p: nat, open: Option<Bytes>, drops: seq<nat>)
    requires p <= |file|
    ensures var r, all := RecordFrom(head, file, p, open, drops), Sum(drops) + Held(open) + Content(head, file, p);
            if r.record.Some? then
              && all == Sum(r.drops) + |r.record.value| + Content(head, file, r.next)
              && Unfinished(head, file, p, open) == Unfinished(head, file, r.next, None)
            else all == Sum(r.drops) + Unfinished(head, file, p, open)
    decreases |file| - p
  {
    hide PhysicalAt, Content, Reported, Sum;
    StepAccounted(head, file, p, open, drops);
    var ph := PhysicalAt(head, file, p);
    var step := Digest(ph.Kind(), ph.Data(), open);
    if step.Go? {
      RecordAccounted(head, file, ph.next, step.open, drops + ph.Dropped() + Reported(ph.Kind(), ph.Data(), open));
    }
  }

  /** Every byte of payload in a file is in a record that is returned or is reported as
      dropped, and none is counted twice; only what is collected of a record that the end
      of the file cuts off is passed over in silence. */
  lemma {:induction false} AllAccounted(head: Head, file: Bytes, p: nat, drops: seq<nat>)
    requires p <= |file|
    ensures var r := AllFrom(head, file, p, drops);
            Sum(drops) + Content(head, file, p) == Size(r.0) + Sum(r.1) + Unfinished(head, file, p, None)
    decreases |file| - p
  {
    hide RecordFrom, Content, Unfinished;
    RecordAccounted(head, file, p, None, drops);
    var r := RecordFrom(head, file, p, None, drops);
    if r.record.Some? {
      AllAccounted(head, file, r.next, r.drops);
    }
  }
}
