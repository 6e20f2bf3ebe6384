/** The queue of writers (`db/db_impl.cc`, Write and BuildBatchGroup): the writer at
    the front leads, and commits a group of those behind it together with its own. */
module WriteQueue {
  import opened Keys
  import opened Coding
  import opened WriteBatch

  /** A waiting call of Write. A null batch only asks for room. */
  datatype Writer = Writer(batch: Option<seq<Update>>, sync: bool)

  function Ops(w: Writer): seq<Update> {
    if w.batch.Some? then w.batch.value else []
  }

  /** WriteBatchInternal::ByteSize, which a null batch does not add to. */
  function Size(w: Writer): nat {
    if w.batch.Some? then HEADER + |Records(w.batch.value)| else 0
  }

  function OpsOf(ws: seq<Writer>): seq<Update> {
    if ws == [] then [] else OpsOf(ws[..|ws| - 1]) + Ops(ws[|ws| - 1])
  }

  function SizeOf(ws: seq<Writer>): nat {
    if ws == [] then 0 else SizeOf(ws[..|ws| - 1]) + Size(ws[|ws| - 1])
  }

  /** How big a group may get behind a first batch of this size. */
  function MaxSize(first: nat): nat {
    if first <= 131072 then first + 131072 else 1048576
  }

  /** The writer at place `i` may ride with the first. */
  predicate Joins(ws: seq<Writer>, i: nat)
    requires 0 < i < |ws|
  {
    && (ws[i].sync ==> ws[0].sync)
    && (ws[i].batch.Some? ==> SizeOf(ws[..i + 1]) <= MaxSize(Size(ws[0])))
  }

  /** The first writer and all that may ride with it up to one that may not. */
  predicate IsGroup(ws: seq<Writer>, n: nat) {
    1 <= n <= |ws| && (forall i :: 1 <= i < n ==> Joins(ws, i)) && (n < |ws| ==> !Joins(ws, n))
  }

  lemma OneGroup(ws: seq<Writer>, m: nat, n: nat)
    requires IsGroup(ws, m) && IsGroup(ws, n)
    ensures m == n
  {
  }

  /** A group is at most 1 MB, or 128 KB more than a small first batch, unless its first
      batch alone is bigger. It ends before a writer that wants a sync when the first
      does not, or before a batch that would make it bigger than that, and nowhere else. */
  lemma GroupIsExactly(ws: seq<Writer>, n: nat)
    requires IsGroup(ws, n)
    ensures 1 <= n <= |ws|
    ensures var first := Size(ws[0]);
            var limit := if first <= 0x2_0000 then first + 0x2_0000 else 0x10_0000;
            && (SizeOf(ws[..n]) <= limit || SizeOf(ws[..n]) == first)
            && (forall i :: 1 <= i < n && ws[i].sync ==> ws[0].sync)
            && (n < |ws| ==> (ws[n].sync && !ws[0].sync) || SizeOf(ws[..n + 1]) > limit)
  {
    hide SizeOf, Size;
    FirstSize(ws);
    var i := LastBatch(ws, n);
    if i > 0 {
      assert Joins(ws, i);
    }
    forall k | 1 <= k < n && ws[k].sync
      ensures ws[0].sync
    {
      assert Joins(ws, k);
    }
  }

  lemma FirstSize(ws: seq<Writer>)
    requires ws != []
    ensures SizeOf(ws[..1]) == Size(ws[0])
  {
    assert ws[..1][..0] == [] && SizeOf([]) == 0;
  }

  /** The last writer of a group that has a batch, or the first. */
  lemma {:induction false} LastBatch(ws: seq<Writer>, n: nat) returns (i: nat)
    requires 1 <= n <= |ws|
    ensures i < n && SizeOf(ws[..i + 1]) == SizeOf(ws[..n]) && (i > 0 ==> ws[i].batch.Some?)
  {
    i := n - 1;
    if n > 1 && ws[n - 1].batch.None? {
      assert ws[..n][..n - 1] == ws[..n - 1];
      i := LastBatch(ws, n - 1);
    }
  }

  // ----- BuildBatchGroup

  /** A writer as the queue holds it. */
  datatype Queued = Queued(batch: WriteBatch?, sync: bool)

  ghost function View(q: Queued): Writer
    reads if q.batch == null then {} else {q.batch}
  {
    Writer(if q.batch == null then None else Some(q.batch.ops), q.sync)
  }

  ghost function Batches(qs: seq<Queued>): set<WriteBatch> {
    set q: Queued | q in qs && q.batch != null :: q.batch
  }

  ghost function Views(qs: seq<Queued>): (ws: seq<Writer>)
    reads Batches(qs)
    ensures |ws| == |qs|
    ensures forall i :: 0 <= i < |qs| ==> ws[i] == View(qs[i])
  {
    seq(|qs|, i requires 0 <= i < |qs| reads Batches(qs) => View(qs[i]))
  }

  ghost predicate AllValid(qs: seq<Queued>)
    reads Batches(qs)
  {
    forall i :: 0 <= i < |qs| && qs[i].batch != null ==> qs[i].batch.Valid()
  }

  method ByteSize(b: WriteBatch) returns (n: nat)
    requires b.Valid()
    ensures n == HEADER + |Records(b.ops)|
  {
    CountIs(b.rep, b.ops);
    n := |b.rep|;
  }

  lemma {:induction false} OpsAreShorter(ops: seq<Update>)
    ensures |ops| <= |Records(ops)|
  {
    if ops != [] {
      OpsAreShorter(ops[..|ops| - 1]);
      assert Record(ops[|ops| - 1]) != [];
    }
  }

  lemma {:induction false} GroupIsSmall(ws: seq<Writer>)
    ensures |OpsOf(ws)| <= SizeOf(ws)
  {
    if ws != [] {
      GroupIsSmall(ws[..|ws| - 1]);
      OpsAreShorter(Ops(ws[|ws| - 1]));
    }
  }

  lemma NextWriter(ws: seq<Writer>, i: nat)
    requires i < |ws|
    ensures OpsOf(ws[..i + 1]) == OpsOf(ws[..i]) + Ops(ws[i]) && SizeOf(ws[..i + 1]) == SizeOf(ws[..i]) + Size(ws[i])
  {
    assert ws[..i + 1][..i] == ws[..i];
  }

  /** The switch to the temporary batch before the first append. */
  method AppendTo(result: WriteBatch, first: WriteBatch, batch: WriteBatch, tmp: WriteBatch) returns (r: WriteBatch)
    requires result.Valid() && batch.Valid() && first.Valid() && tmp.Valid() && tmp != first && tmp != batch
    requires if result == first then tmp.ops == [] else result == tmp
    requires |result.ops| + |batch.ops| < 0x8000_0000
    modifies tmp
    ensures r == tmp && r.Valid() && r.ops == old(result.ops) + batch.ops
  {
    hide Records, Fixed;
    r := result;
    if result == first {
      r := tmp;
      r.Append(first);
    }
    r.Append(batch);
  }

  /** The batches of the callers are the same as long as nothing is stored in them. */
  twostate lemma QueueStays(writers: seq<Queued>)
    requires unchanged(Batches(writers))
    ensures Views(writers) == old(Views(writers)) && (old(AllValid(writers)) ==> AllValid(writers))
  {
    forall i | 0 <= i < |writers| && writers[i].batch != null
      ensures writers[i].batch in Batches(writers)
    {
    }
  }

  /** BuildBatchGroup: the group of the writer at the front, and one batch with all its
      updates in order. The callers' own batches are left alone. */
  method BuildBatchGroup(writers: seq<Queued>, tmp: WriteBatch) returns (result: WriteBatch, n: nat)
    requires writers != [] && writers[0].batch != null && AllValid(writers)
    requires tmp.Valid() && tmp.ops == [] && tmp !in Batches(writers)
    modifies tmp
    ensures Views(writers) == old(Views(writers)) && AllValid(writers) && IsGroup(Views(writers), n)
    ensures result.Valid() && result.ops == OpsOf(Views(writers)[..n]) && (result == writers[0].batch || result == tmp)
  {
    hide Records, OpsOf, SizeOf, IsGroup, Fixed, Joins, MaxSize, Views;
    MaxSizes();
    var first := writers[0];
    result := first.batch;
    ghost var ws := Views(writers);
    var size := ByteSize(first.batch);
    var maxSize := 1048576;
    if size <= 131072 {
      maxSize := size + 131072;
    }
    FirstWriter(ws);
    n := 1;
    while n < |writers|
      invariant 1 <= n <= |writers| && forall i :: 1 <= i < n ==> Joins(ws, i)
      invariant Views(writers) == ws && AllValid(writers) && size == SizeOf(ws[..n]) && maxSize == MaxSize(Size(ws[0]))
      invariant result.Valid() && result.ops == OpsOf(ws[..n])
      invariant if result == first.batch then tmp.Valid() && tmp.ops == [] else result == tmp
    {
      var w := writers[n];
      assert ws[n] == View(w) && ws[0] == View(first);
      NextWriter(ws, n);
      JoinsMeans(ws, n);
      if w.sync && !first.sync {
        break;
      }
      if w.batch != null {
        var more := ByteSize(w.batch);
        size := size + more;
        if size > maxSize {
          break;
        }
        GroupIsSmall(ws[..n + 1]);
        label Appending:
        result := AppendTo(result, first.batch, w.batch, tmp);
        QueueStays@Appending(writers);
      }
      n := n + 1;
    }
    GroupMeans(ws, n);
  }

  lemma MaxSizes()
    ensures forall size: nat :: MaxSize(size) == if size <= 131072 then size + 131072 else 1048576
  {
  }

  lemma JoinsMeans(ws: seq<Writer>, i: nat)
    requires 0 < i < |ws|
    ensures Joins(ws, i) <==> (ws[i].sync ==> ws[0].sync) && (ws[i].batch.Some? ==> SizeOf(ws[..i + 1]) <= MaxSize(Size(ws[0])))
  {
  }

  lemma FirstWriter(ws: seq<Writer>)
    requires ws != []
    ensures OpsOf(ws[..1]) == Ops(ws[0]) && SizeOf(ws[..1]) == Size(ws[0])
  {
    NextWriter(ws, 0);
  }

  lemma GroupMeans(ws: seq<Writer>, n: nat)
    requires 1 <= n <= |ws| && (forall i :: 1 <= i < n ==> Joins(ws, i)) && (n < |ws| ==> !Joins(ws, n))
    ensures IsGroup(ws, n)
  {
  }
}
