/** The inputs of a compaction: PickCompaction, CompactRange, AddBoundaryInputs
    and SetupOtherInputs (`db/version_set.cc`). */
module CompactionInputs {
  import opened Keys
  import opened Versions
  import opened InputSelection

  /** The user-key range of `f` meets the user-key range spanned by `inputs`. */
  ghost predicate MeetsRangeOf(f: File, inputs: seq<File>) {
    exists g, h :: g in inputs && h in inputs && g.smallest.user <= f.largest.user && f.smallest.user <= h.largest.user
  }

  /** Contiguous files of a level. */
  ghost predicate IsRun(fs: seq<File>, run: seq<File>) {
    exists a, b :: 0 <= a < b <= |fs| && run == fs[a..b]
  }

  ghost predicate IsLargest(inputs: seq<File>, k: IKey) {
    && (exists f :: f in inputs && f.largest == k)
    && forall f :: f in inputs ==> AtOrBefore(f.largest, k)
  }

  /** `f` starts with older entries of the user key `k` ends with. */
  predicate Continues(f: File, k: IKey) {
    Before(k, f.smallest) && f.smallest.user == k.user
  }

  /** No file of the level continues the largest user key of the inputs. */
  ghost predicate BoundaryClosed(fs: seq<File>, inputs: seq<File>) {
    forall f, k :: f in fs && IsLargest(inputs, k) ==> !Continues(f, k)
  }

  ghost predicate OverlapClosed(fs: seq<File>, inputs: seq<File>) {
    forall f :: f in fs && MeetsRangeOf(f, inputs) ==> f in inputs
  }

  /** What is picked at a level before the boundary files are added. */
  ghost predicate Picked(level: nat, fs: seq<File>, inputs: seq<File>) {
    && inputs != [] && (forall f :: f in inputs ==> f in fs)
    && if level == 0 then OverlapClosed(fs, inputs) else IsRun(fs, inputs)
  }

  /** What a compaction of `level` takes from that level and from the next one. */
  ghost predicate Selected(v: Version, level: nat, in0: seq<File>, in1: seq<File>)
    requires level + 1 < |v|
  {
    && Picked(level, v[level], in0) && BoundaryClosed(v[level], in0)
    && (forall f :: f in in1 <==> f in v[level + 1] && MeetsRangeOf(f, in0))
  }

  // ----- AddBoundaryInputs

  method FindLargestKey(inputs: seq<File>) returns (largest: IKey)
    requires inputs != [] && WfFiles(inputs)
    ensures IsLargest(inputs, largest)
  {
    largest := inputs[0].largest;
    for i := 1 to |inputs|
      invariant exists f :: f in inputs && f.largest == largest
      invariant forall k :: 0 <= k < i ==> AtOrBefore(inputs[k].largest, largest)
    {
      OrderIsTotal(inputs[i].largest, largest);
      if Before(largest, inputs[i].largest) {
        largest := inputs[i].largest;
      }
    }
  }

  /** The file that continues `largest` with the smallest first key. */
  method FindSmallestBoundaryFile(fs: seq<File>, largest: IKey) returns (r: Option<File>)
    ensures r == None ==> forall f :: f in fs ==> !Continues(f, largest)
    ensures r.Some? ==> r.value in fs && Continues(r.value, largest)
    ensures r.Some? ==> forall f :: f in fs && Continues(f, largest) ==> !Before(f.smallest, r.value.smallest)
  {
    r := None;
    for i := 0 to |fs|
      invariant r == None ==> forall k :: 0 <= k < i ==> !Continues(fs[k], largest)
      invariant r.Some? ==> r.value in fs && Continues(r.value, largest)
      invariant r.Some? ==> forall k :: 0 <= k < i && Continues(fs[k], largest) ==> !Before(fs[k].smallest, r.value.smallest)
    {
      if Continues(fs[i], largest) {
        if r == None || Before(fs[i].smallest, r.value.smallest) {
          r := Some(fs[i]);
        }
      }
    }
  }

  ghost function Beyond(fs: seq<File>, k: IKey): set<int> {
    set i | 0 <= i < |fs| && Before(k, fs[i].smallest)
  }

  /** Each file of `r` past `inputs` continues the largest key so far, and is the
      nearest that does. */
  ghost predicate ChainsOn(fs: seq<File>, inputs: seq<File>, r: seq<File>) {
    && inputs <= r
    && forall i :: |inputs| <= i < |r| ==> NextInChain(fs, r[..i], r[i])
  }

  ghost predicate NextInChain(fs: seq<File>, inputs: seq<File>, f: File) {
    exists k :: IsLargest(inputs, k) && f in fs && Continues(f, k)
                && forall g :: g in fs && Continues(g, k) ==> !Before(g.smallest, f.smallest)
  }

  /** AddBoundaryInputs: follow the boundary files until none continues the inputs. */
  method AddBoundaryInputs(fs: seq<File>, inputs: seq<File>) returns (r: seq<File>)
    requires WfFiles(fs) && forall f :: f in inputs ==> f in fs
    ensures ChainsOn(fs, inputs, r) && (forall f :: f in r ==> f in fs)
    ensures BoundaryClosed(fs, r)
    ensures Disjoint(fs) && IsRun(fs, inputs) ==> IsRun(fs, r)
    ensures OverlapClosed(fs, inputs) ==> r == inputs
    ensures NoRepeats(inputs) ==> NoRepeats(r)
  {
    r := inputs;
    if r == [] {
      return;
    }
    var largest := FindLargestKey(inputs);
    var searching := true;
    while searching
      invariant ChainsOn(fs, inputs, r) && forall f :: f in r ==> f in fs
      invariant IsLargest(r, largest)
      invariant !searching ==> BoundaryClosed(fs, r)
      invariant Disjoint(fs) && IsRun(fs, inputs) ==> IsRun(fs, r)
      invariant OverlapClosed(fs, inputs) ==> r == inputs
      invariant NoRepeats(inputs) ==> NoRepeats(r)
      decreases searching, Beyond(fs, largest)
    {
      var boundary := FindSmallestBoundaryFile(fs, largest);
      if boundary.Some? {
        var f := boundary.value;
        ContinuationIsNew(r, largest, f);
        AddingBoundary(fs, r, largest, f);
        ChainGrows(fs, inputs, r, f);
        r := r + [f];
        largest := f.largest;
      } else {
        searching := false;
        NothingContinues(fs, r, largest);
      }
    }
  }

  lemma ChainGrows(fs: seq<File>, inputs: seq<File>, r: seq<File>, f: File)
    requires ChainsOn(fs, inputs, r) && NextInChain(fs, r, f)
    ensures ChainsOn(fs, inputs, r + [f])
  {
    forall i | |inputs| <= i < |r + [f]|
      ensures NextInChain(fs, (r + [f])[..i], (r + [f])[i])
    {
      assert (r + [f])[..i] == r[..i];
      if i == |r| {
        assert r[..i] == r;
      }
    }
  }

  lemma ContinuationIsNew(inputs: seq<File>, largest: IKey, f: File)
    requires IsLargest(inputs, largest) && WfFiles(inputs) && Continues(f, largest)
    ensures NoRepeats(inputs) ==> NoRepeats(inputs + [f])
  {
    if f in inputs {
      BoundsOrdered(f);
    }
  }

  lemma NothingContinues(fs: seq<File>, inputs: seq<File>, largest: IKey)
    requires IsLargest(inputs, largest) && forall f :: f in fs ==> !Continues(f, largest)
    ensures BoundaryClosed(fs, inputs)
  {
    forall k | IsLargest(inputs, k)
      ensures k == largest
    {
      OrderIsTotal(k, largest);
    }
  }

  /** One round of the boundary search: the new file is beyond the old limit,
      extends a run, and can only appear when the inputs were not closed. */
  lemma AddingBoundary(fs: seq<File>, inputs: seq<File>, largest: IKey, f: File)
    requires WfFiles(fs) && (forall g :: g in inputs ==> g in fs) && IsLargest(inputs, largest)
    requires f in fs && Continues(f, largest)
    requires forall g :: g in fs && Continues(g, largest) ==> !Before(g.smallest, f.smallest)
    ensures IsLargest(inputs + [f], f.largest)
    ensures Disjoint(fs) && IsRun(fs, inputs) ==> IsRun(fs, inputs + [f])
    ensures !OverlapClosed(fs, inputs)
    ensures Beyond(fs, f.largest) < Beyond(fs, largest)
  {
    if Disjoint(fs) && IsRun(fs, inputs) {
      RunGrows(fs, inputs, largest, f);
    }
    ContinuationWasLeftOut(fs, inputs, largest, f);
    BeyondShrinks(fs, largest, f);
  }

  lemma ContinuationWasLeftOut(fs: seq<File>, inputs: seq<File>, largest: IKey, f: File)
    requires WfFiles(fs) && (forall g :: g in inputs ==> g in fs) && IsLargest(inputs, largest)
    requires f in fs && Continues(f, largest)
    ensures IsLargest(inputs + [f], f.largest) && !OverlapClosed(fs, inputs)
  {
    BoundsOrdered(f);
    assert f in inputs + [f];
    var g :| g in inputs && g.largest == largest;
    BoundsOrdered(g);
    assert MeetsRangeOf(f, inputs);
  }

  lemma BeyondShrinks(fs: seq<File>, largest: IKey, f: File)
    requires WfFiles(fs) && f in fs && Before(largest, f.smallest)
    ensures Beyond(fs, f.largest) < Beyond(fs, largest)
  {
    BoundsOrdered(f);
    var i :| 0 <= i < |fs| && fs[i] == f;
    assert i in Beyond(fs, largest) && i !in Beyond(fs, f.largest);
  }

  /** In a disjoint level the nearest continuation of a run is the file next to it. */
  lemma RunGrows(fs: seq<File>, run: seq<File>, largest: IKey, f: File)
    requires WfFiles(fs) && Disjoint(fs) && IsRun(fs, run) && IsLargest(run, largest)
    requires f in fs && Continues(f, largest)
    requires forall g :: g in fs && Continues(g, largest) ==> !Before(g.smallest, f.smallest)
    ensures IsRun(fs, run + [f])
  {
    var k :| 0 <= k < |fs| && fs[k] == f;
    forall a, b | 0 <= a < b <= |fs| && run == fs[a..b]
      ensures IsRun(fs, run + [fs[k]])
    {
      LargestOfRun(fs, a, b, largest);
      SliceGrows(fs, a, b, k);
    }
  }

  lemma SliceGrows(fs: seq<File>, a: nat, b: nat, k: nat)
    requires WfFiles(fs) && Disjoint(fs) && a < b <= |fs| && k < |fs|
    requires Continues(fs[k], fs[b - 1].largest)
    requires forall g :: g in fs && Continues(g, fs[b - 1].largest) ==> !Before(g.smallest, fs[k].smallest)
    ensures IsRun(fs, fs[a..b] + [fs[k]])
  {
    NearestContinuation(fs, b - 1, k);
    assert fs[a..b] + [fs[b]] == fs[a..b + 1];
  }

  lemma NearestContinuation(fs: seq<File>, i: nat, k: nat)
    requires WfFiles(fs) && Disjoint(fs) && i < |fs| && k < |fs|
    requires Continues(fs[k], fs[i].largest)
    requires i + 1 < |fs| && Continues(fs[i + 1], fs[i].largest) ==> !Before(fs[i + 1].smallest, fs[k].smallest)
    ensures k == i + 1
  {
    BoundsOrdered(fs[k]);
    BoundsOrdered(fs[i]);
    if i + 1 < k {
      BoundsOrdered(fs[i + 1]);
      assert false;
    }
  }

  lemma LargestOfRun(fs: seq<File>, a: nat, b: nat, k: IKey)
    requires WfFiles(fs) && Disjoint(fs) && a < b <= |fs| && IsLargest(fs[a..b], k)
    ensures k == fs[b - 1].largest
  {
    var f :| f in fs[a..b] && f.largest == k;
    var i :| a <= i < b && fs[i] == f;
    assert fs[b - 1] in fs[a..b];
    if i < b - 1 {
      BoundsOrdered(fs[b - 1]);
      assert Before(fs[i].largest, fs[b - 1].smallest);
    }
  }

  // ----- picking and expanding

  /** Range queries and MeetsRangeOf say the same once GetRange has run. */
  lemma RangeOfInputs(inputs: seq<File>, smallest: IKey, largest: IKey, f: File)
    requires exists g :: g in inputs && g.smallest == smallest
    requires exists g :: g in inputs && g.largest == largest
    requires forall g :: g in inputs ==> AtOrBefore(smallest, g.smallest) && AtOrBefore(g.largest, largest)
    ensures Meets(f, Range(Some(smallest.user), Some(largest.user))) <==> MeetsRangeOf(f, inputs)
  {
  }

  /** Once a file lies past the range, so do all later files. */
  lemma PastTheRange(fs: seq<File>, r: Range, i: nat, j: nat)
    requires WfFiles(fs) && Disjoint(fs) && i < j < |fs|
    ensures Meets(fs[i], r) && !Meets(fs[j], r) ==> r.hi.Some? && fs[j].smallest.user > r.hi.value
    ensures r.hi.Some? && fs[i].smallest.user > r.hi.value ==> fs[j].smallest.user > r.hi.value
  {
    BoundsOrdered(fs[i]);
    BoundsOrdered(fs[j]);
    assert Before(fs[i].largest, fs[j].smallest);
  }

  lemma NextAfterRun(fs: seq<File>, n: nat, r: Range, b: nat)
    requires WfFiles(fs) && Disjoint(fs) && 0 < b <= n < |fs| && Meets(fs[b - 1], r)
    requires b < n ==> r.hi.Some? && fs[n - 1].smallest.user > r.hi.value
    ensures if Meets(fs[n], r) then b == n else r.hi.Some? && fs[n].smallest.user > r.hi.value
  {
    PastTheRange(fs, r, b - 1, n);
    if b < n {
      PastTheRange(fs, r, n - 1, n);
    }
  }

  /** Files of a disjoint level that meet a range are contiguous. */
  lemma {:induction false} MeetingIsRun(fs: seq<File>, n: nat, r: Range) returns (a: nat, b: nat)
    requires WfFiles(fs) && Disjoint(fs) && n <= |fs|
    ensures a <= b <= n && MeetingUpTo(fs, n, r) == fs[a..b]
    ensures a < b ==> Meets(fs[b - 1], r)
    ensures a < b < n ==> r.hi.Some? && fs[n - 1].smallest.user > r.hi.value
  {
    if n == 0 {
      a, b := 0, 0;
    } else {
      a, b := MeetingIsRun(fs, n - 1, r);
      if a < b {
        NextAfterRun(fs, n - 1, r, b);
      }
      if Meets(fs[n - 1], r) {
        if a == b {
          a := n - 1;
        }
        b := n;
        SliceStep(fs, a, n - 1);
      }
    }
  }

  lemma SliceStep(fs: seq<File>, a: nat, n: nat)
    requires a <= n < |fs|
    ensures fs[a..n + 1] == fs[a..n] + [fs[n]]
  {
  }

  /** A level-0 scan returns a set no left-out file overlaps. */
  lemma ScanIsOverlapClosed(fs: seq<File>, r: Range)
    requires ClosedUnderOverlap(fs, r)
    ensures OverlapClosed(fs, Meeting(fs, r))
  {
    MeetingFiles(fs, r);
    forall f | f in fs && MeetsRangeOf(f, Meeting(fs, r))
      ensures f in Meeting(fs, r)
    {
      var g, h :| g in Meeting(fs, r) && h in Meeting(fs, r)
        && g.smallest.user <= f.largest.user && f.smallest.user <= h.largest.user;
      assert Inside(g, r) && Inside(h, r);
    }
  }

  /** From the first start to the last end of the files. */
  ghost predicate Spans(inputs: seq<File>, r: Range) {
    && r.lo.Some? && r.hi.Some?
    && (exists f :: f in inputs && f.smallest.user == r.lo.value) && (exists f :: f in inputs && f.largest.user == r.hi.value)
    && forall f :: f in inputs ==> r.lo.value <= f.smallest.user && f.largest.user <= r.hi.value
  }

  /** All files of the level in the range of the whole compaction, with their boundary files. */
  ghost predicate Expansion(v: Version, level: nat, in0: seq<File>, in1: seq<File>, e: seq<File>)
    requires level < |v|
  {
    exists r0, r :: Spans(in0 + in1, r0) && (if level == 0 then LeastClosed(v[level], r0, r) else r == r0)
                    && ChainsOn(v[level], Meeting(v[level], r), e) && BoundaryClosed(v[level], e)
  }

  /** More of the first level, within the size limit, and no more of the next one. */
  ghost predicate MayGrow(v: Version, level: nat, first: seq<File>, next: seq<File>, e: seq<File>, limit: nat)
    requires level + 1 < |v|
  {
    && |e| > |first| && TotalFileSize(next) + TotalFileSize(e) < limit
    && forall f :: f in v[level + 1] && MeetsRangeOf(f, e) ==> f in next
  }

  /** The picked files with their boundary files are `first`, and `next` meets them. If
      `e`, all that the range of both covers, may be taken, it is taken, and if not,
      `first` is. */
  ghost predicate GrewTo(v: Version, level: nat, picked: seq<File>, first: seq<File>, next: seq<File>, e: seq<File>,
                         in0: seq<File>, in1: seq<File>, limit: nat)
    requires level + 1 < |v|
  {
    && ChainsOn(v[level], picked, first) && BoundaryClosed(v[level], first)
    && (forall f :: f in first ==> f in in0)
    && (forall f :: f in next <==> f in v[level + 1] && MeetsRangeOf(f, first))
    && (forall f :: f in in1 <==> f in next)
    && (next == [] ==> in0 == first)
    && (next != [] ==> Expansion(v, level, first, next, e) && in0 == if MayGrow(v, level, first, next, e, limit) then e else first)
  }

  ghost predicate GrownFrom(v: Version, level: nat, picked: seq<File>, in0: seq<File>, in1: seq<File>, limit: nat)
    requires level + 1 < |v|
  {
    exists first, next, e :: GrewTo(v, level, picked, first, next, e, in0, in1, limit)
  }

  function FileSet(fs: seq<File>): set<File> {
    set f | f in fs
  }

  lemma {:induction false} NoRepeatsCount(fs: seq<File>)
    requires NoRepeats(fs)
    ensures |FileSet(fs)| == |fs|
  {
    if fs != [] {
      var n := |fs| - 1;
      NoRepeatsCount(fs[..n]);
      assert fs == fs[..n] + [fs[n]];
      assert FileSet(fs) == FileSet(fs[..n]) + {fs[n]} && fs[n] !in FileSet(fs[..n]);
    }
  }

  lemma SubsetOfSameSize(a: set<File>, b: set<File>)
    requires a <= b && |a| == |b|
    ensures a == b
  {
    assert b == a + (b - a);
    assert |b| == |a| + |b - a|;
  }

  /** With more of the first level there are as many of the next one exactly if they are the same. */
  lemma SameNextLevel(v: Version, level: nat, in0: seq<File>, in1: seq<File>, more0: seq<File>, more1: seq<File>)
    requires level + 1 < |v| && NoRepeats(in1) && NoRepeats(more1)
    requires forall f :: f in in0 ==> f in more0
    requires forall f :: f in in1 ==> f in v[level + 1] && MeetsRangeOf(f, in0)
    requires forall f :: f in more1 <==> f in v[level + 1] && MeetsRangeOf(f, more0)
    ensures |in1| == |more1| <==> forall f :: f in more1 ==> f in in1
    ensures |in1| == |more1| ==> forall f :: f in in1 <==> f in more1
  {
    NoRepeatsCount(in1);
    NoRepeatsCount(more1);
    forall f | f in in1
      ensures f in more1
    {
      assert MeetsRangeOf(f, in0);
      assert MeetsRangeOf(f, more0);
    }
    assert forall f :: f in in1 <==> f in FileSet(in1);
    assert forall f :: f in more1 <==> f in FileSet(more1);
    if |in1| == |more1| {
      SubsetOfSameSize(FileSet(in1), FileSet(more1));
    }
    if forall f :: f in more1 ==> f in in1 {
      assert FileSet(in1) == FileSet(more1);
    }
  }

  // ----- inputs without a gap

  predicate Around(f: File, x: UserKey) {
    f.smallest.user <= x <= f.largest.user
  }

  /** Between the first start and the last end of the files. */
  ghost predicate Spanned(fs: seq<File>, x: UserKey) {
    exists a, b :: a in fs && b in fs && a.smallest.user <= x <= b.largest.user
  }

  ghost predicate Inner(fs: seq<File>, x: UserKey) {
    exists f :: f in fs && Around(f, x)
  }

  /** Every place between the first start and the last end is inside one of the files. */
  ghost predicate Linked(fs: seq<File>) {
    forall x: UserKey :: Spanned(fs, x) ==> Inner(fs, x)
  }

  lemma SameFilesLinked(a: seq<File>, b: seq<File>)
    requires Linked(a) && forall f :: f in a <==> f in b
    ensures Linked(b)
  {
    forall x: UserKey | Spanned(b, x)
      ensures Inner(b, x)
    {
      assert Spanned(a, x);
      var f :| f in a && Around(f, x);
      assert f in b;
    }
  }

  /** Files that meet the range of linked files keep them linked. */
  lemma LinkedWith(a: seq<File>, b: seq<File>)
    requires Linked(a) && forall f :: f in b ==> MeetsRangeOf(f, a)
    ensures Linked(a + b)
  {
    forall x: UserKey | Spanned(a + b, x)
      ensures Inner(a + b, x)
    {
      var p, q :| p in a + b && q in a + b && p.smallest.user <= x <= q.largest.user;
      LinkedAt(a, b, p, q, x);
    }
  }

  lemma LinkedAt(a: seq<File>, b: seq<File>, p: File, q: File, x: UserKey)
    requires Linked(a) && forall f :: f in b ==> MeetsRangeOf(f, a)
    requires p in a + b && q in a + b && p.smallest.user <= x <= q.largest.user
    ensures Inner(a + b, x)
  {
    if !(exists g :: g in a && g.smallest.user <= x) {
      assert MeetsRangeOf(p, a);
      assert Around(p, x);
    } else if !(exists g :: g in a && x <= g.largest.user) {
      assert MeetsRangeOf(q, a);
      assert Around(q, x);
    } else {
      assert Spanned(a, x);
      var f :| f in a && Around(f, x);
      assert f in a + b;
    }
  }

  lemma ChainIsLonger(fs: seq<File>, inputs: seq<File>, r: seq<File>)
    requires ChainsOn(fs, inputs, r)
    ensures |inputs| <= |r| && (|inputs| == |r| ==> inputs == r)
  {
  }

  /** Boundary files begin inside what they continue. */
  lemma {:induction false} ChainIsLinked(fs: seq<File>, inputs: seq<File>, r: seq<File>, more: seq<File>)
    requires WfFiles(fs) && (forall f :: f in r ==> f in fs) && ChainsOn(fs, inputs, r) && Linked(inputs + more)
    ensures Linked(r + more)
    decreases |r|
  {
    hide Linked, ChainsOn, NextInChain, WfFiles, MeetsRangeOf;
    ChainIsLonger(fs, inputs, r);
    if r != inputs {
      ChainBefore(fs, inputs, r);
      ChainIsLinked(fs, inputs, r[..|r| - 1], more);
      LastIsLinked(fs, r, more);
    }
  }

  lemma LastIsLinked(fs: seq<File>, r: seq<File>, more: seq<File>)
    requires WfFiles(fs) && (forall f :: f in r ==> f in fs) && r != []
    requires NextInChain(fs, r[..|r| - 1], r[|r| - 1]) && Linked(r[..|r| - 1] + more)
    ensures Linked(r + more)
  {
    hide Linked, NextInChain, WfFiles, MeetsRangeOf;
    var init, f := r[..|r| - 1], r[|r| - 1];
    ContinuationMeets(fs, init, f, more);
    LinkedWith(init + more, [f]);
    assert r == init + [f];
    SameFilesLinked(init + more + [f], r + more);
  }

  lemma ChainBefore(fs: seq<File>, inputs: seq<File>, r: seq<File>)
    requires ChainsOn(fs, inputs, r) && |inputs| < |r| && forall f :: f in r ==> f in fs
    ensures ChainsOn(fs, inputs, r[..|r| - 1]) && NextInChain(fs, r[..|r| - 1], r[|r| - 1])
    ensures forall f :: f in r[..|r| - 1] ==> f in fs
  {
    var init := r[..|r| - 1];
    forall i | |inputs| <= i < |init|
      ensures NextInChain(fs, init[..i], init[i])
    {
      assert init[..i] == r[..i];
    }
  }

  lemma ContinuationMeets(fs: seq<File>, inputs: seq<File>, f: File, more: seq<File>)
    requires WfFiles(fs) && (forall g :: g in inputs ==> g in fs) && NextInChain(fs, inputs, f)
    ensures MeetsRangeOf(f, inputs + more)
  {
    var k :| IsLargest(inputs, k) && f in fs && Continues(f, k);
    var g :| g in inputs && g.largest == k;
    BoundsOrdered(g);
    BoundsOrdered(f);
    assert g in inputs + more;
  }

  /** Nothing starts between `x` and `y`. */
  lemma {:induction false} NextStart(fs: seq<File>, x: UserKey, bound: UserKey) returns (y: UserKey)
    requires x < bound
    ensures x < y <= bound && forall f :: f in fs ==> !(x < f.smallest.user < y)
  {
    if fs == [] {
      y := bound;
    } else {
      y := NextStart(fs[1..], x, bound);
      if x < fs[0].smallest.user < y {
        y := fs[0].smallest.user;
      }
      assert fs == [fs[0]] + fs[1..];
    }
  }

  /** Nothing ends between `y` and `x`. */
  lemma {:induction false} LastEnd(fs: seq<File>, x: UserKey, bound: UserKey) returns (y: UserKey)
    requires bound < x
    ensures bound <= y < x && forall f :: f in fs ==> !(y < f.largest.user < x)
  {
    if fs == [] {
      y := bound;
    } else {
      y := LastEnd(fs[1..], x, bound);
      if y < fs[0].largest.user < x {
        y := fs[0].largest.user;
      }
      assert fs == [fs[0]] + fs[1..];
    }
  }

  /** The least closed range is no wider than its files make it. */
  lemma LeastHasNoGap(fs: seq<File>, r0: Range, r: Range, x: UserKey)
    requires r0.lo.Some? && r0.hi.Some? && r0.lo.value <= r0.hi.value && LeastClosed(fs, r0, r)
    requires r.lo.value <= x <= r.hi.value && !(r0.lo.value <= x <= r0.hi.value)
    ensures Inner(Meeting(fs, r), x)
  {
    MeetingFiles(fs, r);
    if x < r0.lo.value {
      var y := NextStart(fs, x, r0.lo.value);
      NoNarrower(fs, r0, r, r.(lo := Some(y)));
    } else {
      var y := LastEnd(fs, x, r0.hi.value);
      NoNarrower(fs, r0, r, r.(hi := Some(y)));
    }
  }

  /** A narrower range is not closed: some file sticks out of it. */
  lemma NoNarrower(fs: seq<File>, r0: Range, r: Range, r': Range)
    requires LeastClosed(fs, r0, r) && Covers(r', r0) && !Covers(r', r)
    ensures exists f :: f in fs && Meets(f, r') && !Inside(f, r')
  {
  }

  /** The files of a level-0 scan from a linked set are linked with it. */
  lemma ScanIsLinked(fs: seq<File>, a: seq<File>, r0: Range, r: Range)
    requires WfFiles(fs) && WfFiles(a) && Linked(a) && Spans(a, r0) && LeastClosed(fs, r0, r)
    ensures Linked(a + Meeting(fs, r))
  {
    var all := a + Meeting(fs, r);
    SpanIsOrdered(a, r0);
    forall x: UserKey | Spanned(all, x)
      ensures Inner(all, x)
    {
      var p, q :| p in all && q in all && p.smallest.user <= x <= q.largest.user;
      if r0.lo.value <= x <= r0.hi.value {
        LinkedInSpan(a, r0, x);
        var f :| f in a && Around(f, x);
        assert f in all;
      } else {
        InsideLeast(fs, a, r0, r, p);
        InsideLeast(fs, a, r0, r, q);
        LeastHasNoGap(fs, r0, r, x);
        var f :| f in Meeting(fs, r) && Around(f, x);
        assert f in all;
      }
    }
  }

  lemma SpanIsOrdered(a: seq<File>, r0: Range)
    requires WfFiles(a) && Spans(a, r0)
    ensures r0.lo.value <= r0.hi.value
  {
    var f :| f in a && f.smallest.user == r0.lo.value;
    BoundsOrdered(f);
  }

  lemma LinkedInSpan(a: seq<File>, r0: Range, x: UserKey)
    requires Linked(a) && Spans(a, r0) && r0.lo.value <= x <= r0.hi.value
    ensures Inner(a, x)
  {
    var f :| f in a && f.smallest.user == r0.lo.value;
    var g :| g in a && g.largest.user == r0.hi.value;
    assert Spanned(a, x);
  }

  lemma InsideLeast(fs: seq<File>, a: seq<File>, r0: Range, r: Range, p: File)
    requires Spans(a, r0) && LeastClosed(fs, r0, r) && p in a + Meeting(fs, r)
    ensures r.lo.Some? && r.hi.Some? && r.lo.value <= p.smallest.user && p.largest.user <= r.hi.value
  {
    MeetingFiles(fs, r);
  }

  lemma OneIsLinked(f: File)
    ensures Linked([f])
  {
    forall x: UserKey | Spanned([f], x)
      ensures Inner([f], x)
    {
      assert f in [f] && Around(f, x);
    }
  }

  lemma MetInSpan(fs: seq<File>, a: seq<File>, r0: Range)
    requires Spans(a, r0)
    ensures forall f :: f in Meeting(fs, r0) ==> MeetsRangeOf(f, a)
  {
    MeetingFiles(fs, r0);
    var g :| g in a && g.smallest.user == r0.lo.value;
    var h :| h in a && h.largest.user == r0.hi.value;
  }

  lemma ExpansionIsLinked(v: Version, level: nat, in0: seq<File>, in1: seq<File>, e: seq<File>)
    requires level < |v| && WfFiles(v[level]) && WfFiles(in0 + in1) && Linked(in0 + in1) && Expansion(v, level, in0, in1, e)
    requires (forall f :: f in in0 ==> f in e) && forall f :: f in e ==> f in v[level]
    ensures Linked(e + in1)
  {
    hide Linked, ChainsOn, BoundaryClosed, LeastClosed, Spans, WfFile;
    var r0, r :| Spans(in0 + in1, r0) && (if level == 0 then LeastClosed(v[level], r0, r) else r == r0)
                 && ChainsOn(v[level], Meeting(v[level], r), e);
    var met, all := Meeting(v[level], r), in0 + in1;
    if level == 0 {
      ScanIsLinked(v[level], all, r0, r);
    } else {
      MetInSpan(v[level], all, r0);
      LinkedWith(all, met);
    }
    SameFilesLinked(all + met, met + all);
    ChainIsLinked(v[level], met, e, all);
    SameFilesLinked(e + all, e + in1);
  }

  /** Inputs that grow from linked ones are linked. */
  lemma GrownIsLinked(v: Version, level: nat, picked: seq<File>, in0: seq<File>, in1: seq<File>, limit: nat)
    requires Shape(v) && level + 1 < NUM_LEVELS && GrownFrom(v, level, picked, in0, in1, limit) && Linked(picked)
    requires picked != [] && Selected(v, level, in0, in1)
    ensures Linked(in0 + in1)
  {
    InputsInLevels(v, level, in0, in1);
    var first, next, e :| GrewTo(v, level, picked, first, next, e, in0, in1, limit);
    hide Linked, Selected, MayGrow, Expansion, BoundaryClosed, WfFile;
    assert picked + [] == picked && first + [] == first;
    ChainIsLonger(v[level], picked, first);
    ChainIsLinked(v[level], picked, first, []);
    LinkedWith(first, next);
    if in0 == first {
      SameFilesLinked(first + next, in0 + in1);
    } else {
      FilesAreWf(v, level, first, next);
      ExpansionIsLinked(v, level, first, next, e);
      SameFilesLinked(e + next, in0 + in1);
    }
  }

  lemma InputsInLevels(v: Version, level: nat, in0: seq<File>, in1: seq<File>)
    requires level + 1 < |v| && Selected(v, level, in0, in1)
    ensures (forall f :: f in in0 ==> f in v[level]) && forall f :: f in in1 ==> f in v[level + 1]
  {
  }

  // ----- setting up and picking

  /** SetupOtherInputs: boundary files, the next level's files, and growing the
      first set when that adds nothing to the second. */
  method SetupOtherInputs(v: Version, level: nat, picked: seq<File>, expandedLimit: nat)
    returns (in0: seq<File>, in1: seq<File>)
    requires Shape(v) && level + 1 < NUM_LEVELS && Picked(level, v[level], picked)
    requires NoRepeats(v[level]) && NoRepeats(v[level + 1]) && NoRepeats(picked)
    ensures Selected(v, level, in0, in1) && NoRepeats(in0) && NoRepeats(in1)
    ensures GrownFrom(v, level, picked, in0, in1, expandedLimit)
    ensures forall f :: f in picked ==> f in in0
    ensures Linked(picked) ==> Linked(in0 + in1)
  {
    hide Linked, Expansion, ChainsOn, BoundaryClosed, IsRun, OverlapClosed, WfFile, MeetsRangeOf;
    in0 := AddBoundaryInputs(v[level], picked);
    in1 := NextLevelInputs(v, level, in0);
    ghost var first, next := in0, in1;
    ghost var e: seq<File> := [];
    if in1 != [] {
      var expanded0 := ExpandInputs(v, level, in0, in1);
      e := expanded0;
      if |expanded0| > |in0| && TotalFileSize(in1) + TotalFileSize(expanded0) < expandedLimit {
        var expanded1 := NextLevelInputs(v, level, expanded0);
        SameNextLevel(v, level, in0, in1, expanded0, expanded1);
        if |expanded1| == |in1| {
          in0, in1 := expanded0, expanded1;
        }
      }
    }
    assert GrewTo(v, level, picked, first, next, e, in0, in1, expandedLimit);
    if Linked(picked) {
      GrownIsLinked(v, level, picked, in0, in1, expandedLimit);
    }
  }

  method ExpandInputs(v: Version, level: nat, in0: seq<File>, in1: seq<File>) returns (expanded0: seq<File>)
    requires Shape(v) && level + 1 < NUM_LEVELS
    requires in0 != [] && (forall f :: f in in0 ==> f in v[level]) && (forall f :: f in in1 ==> f in v[level + 1])
    ensures Picked(level, v[level], expanded0) && BoundaryClosed(v[level], expanded0)
    ensures NoRepeats(v[level]) ==> NoRepeats(expanded0)
    ensures forall f :: f in in0 ==> f in expanded0
    ensures Expansion(v, level, in0, in1, expanded0)
  {
    FilesAreWf(v, level, in0, in1);
    hide *;
    var all := in0 + in1;
    var allStart, allLimit := GetRange(all);
    ghost var r0 := Range(Some(allStart.user), Some(allLimit.user));
    SpansAll(all, allStart, allLimit);
    ghost var r;
    var scanned;
    scanned, r := GetOverlappingInputs(level, v[level], Range(Some(allStart.user), Some(allLimit.user)));
    SpannedAreMet(v[level], in0, in1, level, r0, r);
    assert in0[0] in scanned;
    ScannedIsPicked(v[level], level, r0, r);
    expanded0 := AddBoundaryInputs(v[level], scanned);
    StillPicked(v[level], level, scanned, expanded0);
    ExpansionIs(v, level, in0, in1, r0, r, expanded0);
  }

  lemma FilesAreWf(v: Version, level: nat, in0: seq<File>, in1: seq<File>)
    requires Shape(v) && level + 1 < NUM_LEVELS
    requires (forall f :: f in in0 ==> f in v[level]) && (forall f :: f in in1 ==> f in v[level + 1])
    ensures |v| == NUM_LEVELS && WfFiles(v[level]) && WfFiles(in0 + in1) && (level > 0 ==> Disjoint(v[level]))
  {
  }

  lemma ScannedIsPicked(fs: seq<File>, level: nat, r0: Range, r: Range)
    requires WfFiles(fs) && (level > 0 ==> Disjoint(fs)) && Meeting(fs, r) != []
    requires if level == 0 then LeastClosed(fs, r0, r) else r == r0
    ensures if level == 0 then OverlapClosed(fs, Meeting(fs, r)) else IsRun(fs, Meeting(fs, r))
    ensures NoRepeats(fs) ==> NoRepeats(Meeting(fs, r))
  {
    if level == 0 {
      ScanIsOverlapClosed(fs, r);
    } else {
      MeetingIsRunOf(fs, r);
    }
    if NoRepeats(fs) {
      MeetingNoRepeats(fs, |fs|, r);
    }
  }

  lemma StillPicked(fs: seq<File>, level: nat, scanned: seq<File>, e: seq<File>)
    requires scanned != [] && ChainsOn(fs, scanned, e) && (forall f :: f in e ==> f in fs)
    requires if level == 0 then OverlapClosed(fs, scanned) && e == scanned else IsRun(fs, e)
    ensures Picked(level, fs, e) && forall f :: f in scanned ==> f in e
  {
  }

  lemma SpansAll(inputs: seq<File>, smallest: IKey, largest: IKey)
    requires (exists f :: f in inputs && f.smallest == smallest) && exists f :: f in inputs && f.largest == largest
    requires forall f :: f in inputs ==> AtOrBefore(smallest, f.smallest) && AtOrBefore(f.largest, largest)
    ensures Spans(inputs, Range(Some(smallest.user), Some(largest.user)))
  {
  }

  /** The files the range was taken from are among those that meet it. */
  lemma SpannedAreMet(fs: seq<File>, in0: seq<File>, in1: seq<File>, level: nat, r0: Range, r: Range)
    requires WfFiles(fs) && (forall f :: f in in0 ==> f in fs) && Spans(in0 + in1, r0)
    requires if level == 0 then LeastClosed(fs, r0, r) else r == r0
    ensures forall f :: f in in0 ==> f in Meeting(fs, r)
    ensures forall f :: f in Meeting(fs, r) ==> f in fs
  {
    MeetingFiles(fs, r);
    forall f | f in in0
      ensures f in Meeting(fs, r)
    {
      BoundsOrdered(f);
      assert f in in0 + in1;
      assert Meets(f, r0);
    }
  }

  lemma ExpansionIs(v: Version, level: nat, in0: seq<File>, in1: seq<File>, r0: Range, r: Range, e: seq<File>)
    requires level < |v| && Spans(in0 + in1, r0) && (if level == 0 then LeastClosed(v[level], r0, r) else r == r0)
    requires ChainsOn(v[level], Meeting(v[level], r), e) && BoundaryClosed(v[level], e)
    ensures Expansion(v, level, in0, in1, e)
  {
  }

  lemma MeetingIsRunOf(fs: seq<File>, r: Range)
    requires WfFiles(fs) && Disjoint(fs) && Meeting(fs, r) != []
    ensures IsRun(fs, Meeting(fs, r))
  {
    var a, b := MeetingIsRun(fs, |fs|, r);
  }

  method NextLevelInputs(v: Version, level: nat, in0: seq<File>) returns (in1: seq<File>)
    requires Shape(v) && level + 1 < NUM_LEVELS && in0 != [] && forall f :: f in in0 ==> f in v[level]
    ensures forall f :: f in in1 <==> f in v[level + 1] && MeetsRangeOf(f, in0)
    ensures NoRepeats(v[level + 1]) ==> NoRepeats(in1)
  {
    var smallest, largest := GetRange(in0);
    ghost var r;
    in1, r := GetOverlappingInputs(level + 1, v[level + 1], Range(Some(smallest.user), Some(largest.user)));
    MeetingFiles(v[level + 1], r);
    if NoRepeats(v[level + 1]) {
      MeetingNoRepeats(v[level + 1], |v[level + 1]|, r);
    }
    forall f
      ensures f in in1 <==> f in v[level + 1] && MeetsRangeOf(f, in0)
    {
      RangeOfInputs(in0, smallest, largest, f);
    }
  }

  /** File `k` is the first that ends past the compaction pointer, or the first
      file when there is no pointer or none does. */
  ghost predicate PastPointer(fs: seq<File>, pointer: Option<IKey>, k: nat)
    requires k < |fs|
  {
    if pointer.Some? && exists f :: f in fs && Before(pointer.value, f.largest) then
      Before(pointer.value, fs[k].largest) && forall j :: 0 <= j < k ==> !Before(pointer.value, fs[j].largest)
    else k == 0
  }

  /** What a level-0 scan from one file picks. */
  lemma ScannedFrom(fs: seq<File>, k: nat, r0: Range, r: Range)
    requires WfFiles(fs) && NoRepeats(fs) && k < |fs| && r0 == Range(Some(fs[k].smallest.user), Some(fs[k].largest.user))
    requires LeastClosed(fs, r0, r)
    ensures Picked(0, fs, Meeting(fs, r)) && NoRepeats(Meeting(fs, r)) && fs[k] in Meeting(fs, r) && Linked(Meeting(fs, r))
  {
    MeetingFiles(fs, r);
    BoundsOrdered(fs[k]);
    assert fs[k] in Meeting(fs, r);
    ScanIsOverlapClosed(fs, r);
    MeetingNoRepeats(fs, |fs|, r);
    OneIsLinked(fs[k]);
    assert fs[k] in [fs[k]];
    hide Linked, LeastClosed, OverlapClosed, Meets, NoRepeats;
    ScanIsLinked(fs, [fs[k]], r0, r);
    SameFilesLinked([fs[k]] + Meeting(fs, r), Meeting(fs, r));
  }

  /** PickCompaction for a size-triggered compaction: the first file past the
      compaction pointer, or the first file when there is none; at level 0
      everything that overlaps it. */
  method PickCompaction(v: Version, level: nat, pointer: Option<IKey>, expandedLimit: nat)
    returns (in0: seq<File>, in1: seq<File>)
    requires Shape(v) && level + 1 < NUM_LEVELS && v[level] != [] && NoRepeats(v[level]) && NoRepeats(v[level + 1])
    ensures Selected(v, level, in0, in1) && NoRepeats(in0) && NoRepeats(in1)
    ensures exists k :: 0 <= k < |v[level]| && v[level][k] in in0 && PastPointer(v[level], pointer, k)
    ensures Linked(in0 + in1)
  {
    var fs := v[level];
    var k := 0;
    while k < |fs| && pointer.Some? && !Before(pointer.value, fs[k].largest)
      invariant k <= |fs| && (pointer == None ==> k == 0)
      invariant forall j :: 0 <= j < k ==> !Before(pointer.value, fs[j].largest)
    {
      k := k + 1;
    }
    if k == |fs| {
      k := 0;
    }
    assert PastPointer(fs, pointer, k);
    var picked := [fs[k]];
    OneIsLinked(fs[k]);
    if level == 0 {
      var smallest, largest := GetRange(picked);
      ghost var r;
      picked, r := GetOverlappingInputs(0, fs, Range(Some(smallest.user), Some(largest.user)));
      ScannedFrom(fs, k, Range(Some(smallest.user), Some(largest.user)), r);
    } else {
      assert picked == fs[k..k + 1];
    }
    in0, in1 := SetupOtherInputs(v, level, picked, expandedLimit);
  }

  lemma PrefixOfRun(fs: seq<File>, a: nat, b: nat, n: nat)
    requires a <= b <= |fs| && 0 < n <= b - a
    ensures IsRun(fs, fs[a..b][..n])
    ensures forall f :: f in fs[a..b][..n] ==> f in fs
  {
    assert fs[a..b][..n] == fs[a..a + n];
  }

  /** `fs` up to the first file that makes the total reach the limit. */
  ghost predicate CutAtLimit(fs: seq<File>, limit: nat, n: nat) {
    && 0 < n <= |fs| && (n < |fs| ==> TotalFileSize(fs[..n]) >= limit)
    && (n > 1 ==> TotalFileSize(fs[..n - 1]) < limit)
  }

  ghost predicate HoldsFirst(inputs: seq<File>, fs: seq<File>, n: nat) {
    n <= |fs| && forall f :: f in fs[..n] ==> f in inputs
  }

  method CutToLimit(fs: seq<File>, limit: nat) returns (n: nat)
    requires fs != []
    ensures CutAtLimit(fs, limit, n)
  {
    var total := 0;
    n := |fs|;
    for i := 0 to |fs|
      invariant n == |fs| && total == TotalFileSize(fs[..i])
      invariant i > 0 ==> total < limit
    {
      TotalOfOneMore(fs, i);
      total := total + fs[i].size;
      if total >= limit {
        return i + 1;
      }
    }
    assert fs[..n] == fs;
    TotalOfOneMore(fs, n - 1);
  }

  lemma {:induction false} TotalOfOneMore(fs: seq<File>, n: nat)
    requires n < |fs|
    ensures TotalFileSize(fs[..n + 1]) == TotalFileSize(fs[..n]) + fs[n].size
  {
    if n > 0 {
      TotalOfOneMore(fs[1..], n - 1);
      assert fs[..n + 1][1..] == fs[1..][..n] && fs[..n][1..] == fs[1..][..n - 1];
    }
  }

  lemma UnmetRangeStays(fs: seq<File>, r0: Range, r: Range)
    requires LeastClosed(fs, r0, r) && NoneMeets(fs, r0)
    ensures r == r0
  {
    assert Covers(r0, r0) && ClosedUnderOverlap(fs, r0);
  }

  /** The files of a level in a manual range; past level 0 only as many as reach the size limit. */
  method PickRange(fs: seq<File>, level: nat, r0: Range, sizeLimit: nat) returns (picked: seq<File>)
    requires WfFiles(fs) && (level > 0 ==> Disjoint(fs)) && NoRepeats(fs)
    ensures picked == [] <==> NoneMeets(fs, r0)
    ensures picked != [] ==> Picked(level, fs, picked) && NoRepeats(picked)
    ensures level == 0 ==> forall f :: f in fs && Meets(f, r0) ==> f in picked
    ensures level > 0 && picked != [] ==> exists n: nat :: CutAtLimit(Meeting(fs, r0), sizeLimit, n) && picked == Meeting(fs, r0)[..n]
  {
    hide *;
    ghost var r;
    picked, r := GetOverlappingInputs(level, fs, r0);
    if level == 0 {
      LeastRangePicks(fs, r0, r);
    } else {
      DeeperRangePicks(fs, r);
      if picked != [] {
        var n := CutToLimit(picked, sizeLimit);
        CutIsPrefix(picked, sizeLimit, n);
        DeeperPrefixPicks(fs, r, level, n);
        picked := picked[..n];
      }
    }
  }

  lemma CutIsPrefix(fs: seq<File>, limit: nat, n: nat)
    requires CutAtLimit(fs, limit, n)
    ensures 0 < n <= |fs|
  {
  }

  lemma LeastRangePicks(fs: seq<File>, r0: Range, r: Range)
    requires LeastClosed(fs, r0, r) && NoRepeats(fs)
    ensures Meeting(fs, r) == [] <==> NoneMeets(fs, r0)
    ensures Meeting(fs, r) != [] ==> Picked(0, fs, Meeting(fs, r)) && NoRepeats(Meeting(fs, r))
    ensures forall f :: f in fs && Meets(f, r0) ==> f in Meeting(fs, r)
  {
    MeetingFiles(fs, r);
    MeetingNoRepeats(fs, |fs|, r);
    ScanIsOverlapClosed(fs, r);
    if NoneMeets(fs, r0) {
      UnmetRangeStays(fs, r0, r);
      DeeperRangePicks(fs, r0);
    }
  }

  lemma DeeperRangePicks(fs: seq<File>, r: Range)
    ensures Meeting(fs, r) == [] <==> NoneMeets(fs, r)
  {
    MeetingFiles(fs, r);
    assert Meeting(fs, r) != [] ==> Meeting(fs, r)[0] in fs && Meets(Meeting(fs, r)[0], r);
  }

  lemma DeeperPrefixPicks(fs: seq<File>, r: Range, level: nat, n: nat)
    requires WfFiles(fs) && Disjoint(fs) && NoRepeats(fs) && level > 0 && 0 < n <= |Meeting(fs, r)|
    ensures Picked(level, fs, Meeting(fs, r)[..n]) && NoRepeats(Meeting(fs, r)[..n])
  {
    hide Disjoint;
    MeetingNoRepeats(fs, |fs|, r);
    var a, b := MeetingIsRun(fs, |fs|, r);
    PrefixOfRun(fs, a, b, n);
  }

  /** CompactRange: the files of the range; nothing when no file meets it. */
  method CompactRange(v: Version, level: nat, r0: Range, sizeLimit: nat, expandedLimit: nat)
    returns (c: Option<(seq<File>, seq<File>)>)
    requires Shape(v) && level + 1 < NUM_LEVELS && NoRepeats(v[level]) && NoRepeats(v[level + 1])
    ensures c.Some? ==> Selected(v, level, c.value.0, c.value.1) && NoRepeats(c.value.0) && NoRepeats(c.value.1)
    ensures c == None <==> NoneMeets(v[level], r0)
    ensures c.Some? && level == 0 ==> forall f :: f in v[0] && Meets(f, r0) ==> f in c.value.0
    ensures c.Some? && level > 0 ==>
              exists n: nat :: CutAtLimit(Meeting(v[level], r0), sizeLimit, n) && HoldsFirst(c.value.0, Meeting(v[level], r0), n)
  {
    hide Meeting, Meets, NoneMeets, Picked, Selected, GrownFrom;
    var picked := PickRange(v[level], level, r0, sizeLimit);
    if picked == [] {
      return None;
    }
    var in0, in1 := SetupOtherInputs(v, level, picked, expandedLimit);
    c := Some((in0, in1));
    if level > 0 {
      ghost var n: nat :| CutAtLimit(Meeting(v[level], r0), sizeLimit, n) && picked == Meeting(v[level], r0)[..n];
      assert HoldsFirst(in0, Meeting(v[level], r0), n);
    }
  }
}
