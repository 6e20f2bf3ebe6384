/** Which files a flush or a compaction works on (`db/version_set.cc`). */
module InputSelection {
  import opened Keys
  import opened Versions

  /** A range of user keys; None is the null pointer, unbounded on that side. */
  datatype Range = Range(lo: Option<UserKey>, hi: Option<UserKey>)

  predicate Meets(f: File, r: Range) {
    && !(r.lo.Some? && f.largest.user < r.lo.value)
    && !(r.hi.Some? && f.smallest.user > r.hi.value)
  }

  predicate Inside(f: File, r: Range) {
    && (r.lo.Some? ==> r.lo.value <= f.smallest.user)
    && (r.hi.Some? ==> f.largest.user <= r.hi.value)
  }

  /** `r` is as bounded as `r0` and covers it. */
  predicate Covers(r: Range, r0: Range) {
    && (r.lo.Some? <==> r0.lo.Some?) && (r.hi.Some? <==> r0.hi.Some?)
    && (r.lo.Some? ==> r.lo.value <= r0.lo.value)
    && (r.hi.Some? ==> r0.hi.value <= r.hi.value)
  }

  /** No file of `fs` sticks out of `r`. */
  ghost predicate ClosedUnderOverlap(fs: seq<File>, r: Range) {
    forall f :: f in fs && Meets(f, r) ==> Inside(f, r)
  }

  ghost predicate BelowEveryClosed(fs: seq<File>, r0: Range, r: Range) {
    forall r' :: Covers(r', r0) && ClosedUnderOverlap(fs, r') ==> Covers(r', r)
  }

  /** `r` is the least range that covers `r0` and no file sticks out of. */
  ghost predicate LeastClosed(fs: seq<File>, r0: Range, r: Range) {
    && Covers(r, r0) && ClosedUnderOverlap(fs, r)
    && BelowEveryClosed(fs, r0, r)
  }

  /** The files among the first `n` that meet `r`, in their order. */
  function MeetingUpTo(fs: seq<File>, n: nat, r: Range): seq<File>
    requires n <= |fs|
  {
    if n == 0 then []
    else if Meets(fs[n - 1], r) then MeetingUpTo(fs, n - 1, r) + [fs[n - 1]]
    else MeetingUpTo(fs, n - 1, r)
  }

  function Meeting(fs: seq<File>, r: Range): seq<File> {
    MeetingUpTo(fs, |fs|, r)
  }

  lemma {:induction false} MeetingHolds(fs: seq<File>, n: nat, r: Range, f: File)
    requires n <= |fs|
    ensures f in MeetingUpTo(fs, n, r) <==> f in fs[..n] && Meets(f, r)
  {
    if n > 0 {
      MeetingHolds(fs, n - 1, r, f);
      assert fs[..n] == fs[..n - 1] + [fs[n - 1]];
    }
  }

  lemma MeetingFiles(fs: seq<File>, r: Range)
    ensures forall f :: f in Meeting(fs, r) <==> f in fs && Meets(f, r)
  {
    forall f
      ensures f in Meeting(fs, r) <==> f in fs && Meets(f, r)
    {
      MeetingHolds(fs, |fs|, r, f);
      assert fs[..|fs|] == fs;
    }
  }

  ghost predicate NoneMeets(fs: seq<File>, r: Range) {
    forall f :: f in fs ==> !Meets(f, r)
  }

  // ----- overlap tests and the level of a flush

  /** SomeFileOverlapsRange. */
  method SomeFileOverlapsRange(disjointSorted: bool, fs: seq<File>, r: Range) returns (b: bool)
    requires WfFiles(fs) && (disjointSorted ==> Disjoint(fs))
    ensures b <==> !NoneMeets(fs, r)
  {
    if !disjointSorted {
      for i := 0 to |fs|
        invariant forall k :: 0 <= k < i ==> !Meets(fs[k], r)
      {
        if Meets(fs[i], r) {
          return true;
        }
      }
      return false;
    }
    var index := 0;
    if r.lo.Some? {
      index := FindFile(fs, SeekKey(r.lo.value, MAX_SEQUENCE));
    }
    if index >= |fs| {
      forall f | f in fs
        ensures !Meets(f, r)
      {
        var k :| 0 <= k < |fs| && fs[k] == f;
        LargestBeforeSeek(f, r.lo.value);
      }
      return false;
    }
    b := !(r.hi.Some? && r.hi.value < fs[index].smallest.user);
    if r.lo.Some? {
      LargestBeforeSeek(fs[index], r.lo.value);
    }
    if b {
      assert Meets(fs[index], r);
    } else {
      forall k | 0 <= k < |fs|
        ensures !Meets(fs[k], r)
      {
        if k < index {
          LargestBeforeSeek(fs[k], r.lo.value);
        } else if index < k {
          BoundsOrdered(fs[index]);
          assert Before(fs[index].largest, fs[k].smallest);
        }
      }
    }
  }

  /** The seek key with the greatest sequence number comes before every entry of its user key. */
  lemma LargestBeforeSeek(f: File, u: UserKey)
    requires WfFile(f)
    ensures Before(f.largest, SeekKey(u, MAX_SEQUENCE)) <==> f.largest.user < u
  {
    assert f.entries[|f.entries| - 1] in f.entries;
  }

  function TotalFileSize(fs: seq<File>): nat {
    if fs == [] then 0 else fs[0].size + TotalFileSize(fs[1..])
  }

  const MAX_MEM_COMPACT_LEVEL: nat := 2

  /** PickLevelForMemTableOutput: the flushed file sinks as long as neither the
      level it leaves nor the one it enters meets its range, and little of the
      level after that does; what stops it is named. */
  method PickLevelForMemTableOutput(v: Version, lo: UserKey, hi: UserKey, maxGrandparentBytes: nat)
    returns (level: nat)
    requires Shape(v)
    ensures level <= 2
    ensures level > 0 ==> forall l :: 0 <= l <= level ==> NoneMeets(v[l], Range(Some(lo), Some(hi)))
    ensures forall l :: 2 <= l < level + 2 ==> TotalFileSize(Meeting(v[l], Range(Some(lo), Some(hi)))) <= maxGrandparentBytes
    ensures level < 2 ==>
              || (level == 0 && !NoneMeets(v[0], Range(Some(lo), Some(hi))))
              || !NoneMeets(v[level + 1], Range(Some(lo), Some(hi)))
              || TotalFileSize(Meeting(v[level + 2], Range(Some(lo), Some(hi)))) > maxGrandparentBytes
  {
    var r := Range(Some(lo), Some(hi));
    level := 0;
    var overlap := SomeFileOverlapsRange(false, v[0], r);
    if !overlap {
      while level < MAX_MEM_COMPACT_LEVEL
        invariant level <= MAX_MEM_COMPACT_LEVEL
        invariant forall l :: 0 <= l <= level ==> NoneMeets(v[l], r)
        invariant forall l :: 2 <= l < level + 2 ==> TotalFileSize(Meeting(v[l], r)) <= maxGrandparentBytes
      {
        overlap := SomeFileOverlapsRange(true, v[level + 1], r);
        if overlap {
          break;
        }
        if level + 2 < NUM_LEVELS {
          var overlaps, _ := GetOverlappingInputs(level + 2, v[level + 2], r);
          if TotalFileSize(overlaps) > maxGrandparentBytes {
            break;
          }
        }
        level := level + 1;
      }
    }
  }

  // ----- GetOverlappingInputs

  /** The files of a level that meet a range. At level 0 a file that sticks out
      widens the range and restarts the scan. */
  method GetOverlappingInputs(level: nat, fs: seq<File>, r0: Range) returns (inputs: seq<File>, ghost r: Range)
    ensures inputs == Meeting(fs, r)
    ensures if level == 0 then LeastClosed(fs, r0, r) else r == r0
    ensures level != 0 ==> inputs == Meeting(fs, r0)
    ensures level == 0 ==> forall least :: LeastClosed(fs, r0, least) ==> inputs == Meeting(fs, least)
  {
    inputs := [];
    var cur := r0;
    var i := 0;
    while i < |fs|
      invariant i <= |fs| && inputs == MeetingUpTo(fs, i, cur)
      invariant if level == 0 then Covers(cur, r0) && BelowEveryClosed(fs, r0, cur) else cur == r0
      invariant level == 0 ==> ClosedUnderOverlap(fs[..i], cur)
      decreases StickingOutBelow(fs, cur), StickingOutAbove(fs, cur), |fs| - i
    {
      var f := fs[i];
      i := i + 1;
      if cur.lo.Some? && f.largest.user < cur.lo.value {
      } else if cur.hi.Some? && f.smallest.user > cur.hi.value {
      } else {
        inputs := inputs + [f];
        if level == 0 {
          var wider := Widened(f, cur);
          if wider != cur {
            Widening(fs, r0, cur, i - 1);
            cur := wider;
            inputs := [];
            i := 0;
          }
        }
      }
    }
    r := cur;
    assert fs[..|fs|] == fs;
    if level == 0 {
      forall least | LeastClosed(fs, r0, least)
        ensures least == r
      {
        LeastIsUnique(fs, r0, least, r);
      }
    }
  }

  lemma LeastIsUnique(fs: seq<File>, r0: Range, r: Range, r': Range)
    requires LeastClosed(fs, r0, r) && LeastClosed(fs, r0, r')
    ensures r == r'
  {
    assert Covers(r, r') && Covers(r', r);
  }

  /** One bound moved out to a file that sticks out of it, the lower bound first. */
  function Widened(f: File, r: Range): Range {
    if r.lo.Some? && f.smallest.user < r.lo.value then r.(lo := Some(f.smallest.user))
    else if r.hi.Some? && f.largest.user > r.hi.value then r.(hi := Some(f.largest.user))
    else r
  }

  lemma Widening(fs: seq<File>, r0: Range, r: Range, k: nat)
    requires k < |fs| && Meets(fs[k], r) && Widened(fs[k], r) != r
    requires Covers(r, r0) && BelowEveryClosed(fs, r0, r)
    ensures var r' := Widened(fs[k], r);
            && Covers(r', r0) && BelowEveryClosed(fs, r0, r')
            && (StickingOutBelow(fs, r') < StickingOutBelow(fs, r)
                || (StickingOutBelow(fs, r') == StickingOutBelow(fs, r) && StickingOutAbove(fs, r') < StickingOutAbove(fs, r)))
  {
    WideningStaysBelow(fs, r0, r, fs[k]);
    Shrinks(fs, r, Widened(fs[k], r), k);
  }

  /** A closed range that covers `r` also covers any file that meets `r`. */
  lemma WideningStaysBelow(fs: seq<File>, r0: Range, r: Range, f: File)
    requires BelowEveryClosed(fs, r0, r) && f in fs && Meets(f, r)
    ensures r.lo.Some? && f.smallest.user < r.lo.value ==> BelowEveryClosed(fs, r0, r.(lo := Some(f.smallest.user)))
    ensures r.hi.Some? && f.largest.user > r.hi.value ==> BelowEveryClosed(fs, r0, r.(hi := Some(f.largest.user)))
  {
    forall r' | Covers(r', r0) && ClosedUnderOverlap(fs, r')
      ensures Inside(f, r') && Covers(r', r)
    {
      assert Covers(r', r);
      assert Meets(f, r');
    }
  }

  ghost function StickingOutBelow(fs: seq<File>, r: Range): set<int> {
    set k | 0 <= k < |fs| && r.lo.Some? && fs[k].smallest.user < r.lo.value
  }

  ghost function StickingOutAbove(fs: seq<File>, r: Range): set<int> {
    set k | 0 <= k < |fs| && r.hi.Some? && fs[k].largest.user > r.hi.value
  }

  /** Widening one bound to a file that stuck out leaves fewer files sticking out there. */
  lemma Shrinks(fs: seq<File>, r: Range, r': Range, k: nat)
    requires k < |fs| && Meets(fs[k], r)
    requires || (r.lo.Some? && fs[k].smallest.user < r.lo.value && r' == r.(lo := Some(fs[k].smallest.user)))
             || (r.hi.Some? && fs[k].largest.user > r.hi.value && r' == r.(hi := Some(fs[k].largest.user)))
    ensures StickingOutBelow(fs, r') < StickingOutBelow(fs, r)
         || (StickingOutBelow(fs, r') == StickingOutBelow(fs, r) && StickingOutAbove(fs, r') < StickingOutAbove(fs, r))
  {
    if r'.lo != r.lo {
      assert k in StickingOutBelow(fs, r) && k !in StickingOutBelow(fs, r');
    } else {
      assert k in StickingOutAbove(fs, r) && k !in StickingOutAbove(fs, r');
    }
  }

  /** Scanning a level without repeats selects without repeats. */
  lemma {:induction false} MeetingNoRepeats(fs: seq<File>, n: nat, r: Range)
    requires NoRepeats(fs) && n <= |fs|
    ensures NoRepeats(MeetingUpTo(fs, n, r))
    ensures forall f :: f in MeetingUpTo(fs, n, r) ==> exists i :: 0 <= i < n && fs[i] == f
  {
    if n > 0 {
      MeetingNoRepeats(fs, n - 1, r);
      assert fs[n - 1] !in MeetingUpTo(fs, n - 1, r);
    }
  }

  // ----- the range of a set of inputs

  /** The smallest and largest internal keys of the inputs (GetRange). */
  method GetRange(inputs: seq<File>) returns (smallest: IKey, largest: IKey)
    requires inputs != [] && WfFiles(inputs)
    ensures exists f :: f in inputs && f.smallest == smallest
    ensures exists f :: f in inputs && f.largest == largest
    ensures forall f :: f in inputs ==> AtOrBefore(smallest, f.smallest) && AtOrBefore(f.largest, largest)
  {
    smallest, largest := inputs[0].smallest, inputs[0].largest;
    for i := 1 to |inputs|
      invariant exists f :: f in inputs && f.smallest == smallest
      invariant exists f :: f in inputs && f.largest == largest
      invariant forall k :: 0 <= k < i ==> AtOrBefore(smallest, inputs[k].smallest) && AtOrBefore(inputs[k].largest, largest)
    {
      if Before(inputs[i].smallest, smallest) {
        smallest := inputs[i].smallest;
      }
      if Before(largest, inputs[i].largest) {
        largest := inputs[i].largest;
      }
      OrderIsTotal(inputs[i].smallest, smallest);
      OrderIsTotal(inputs[i].largest, largest);
    }
  }
}
