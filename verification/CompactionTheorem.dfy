/** Compactions and moves keep the level invariants, and exactly when they keep
    every read at or above the oldest snapshot. */
module CompactionTheorem {
  import opened Keys
  import opened Versions
  import opened CompactionInputs
  import opened CompactionStep
  import opened Compaction

  /** A correct installation: the inputs the engine selects, and outputs cut from what they hold. */
  ghost predicate Installed(v: Version, v': Version, level: nat, in0: seq<File>, in1: seq<File>, outs: seq<File>)
    requires level + 1 < |v|
  {
    && Selected(v, level, in0, in1)
    && Replaced(v, v', level, in0, in1, outs)
    && NumbersFree(v, level, in0, outs)
    && WfFiles(outs) && Disjoint(outs)
    && LevelElems(outs) <= LevelElems(in0) + LevelElems(in1)
  }

  // ----- sortedness of the two levels

  lemma SortedApartIsDisjoint(fs: seq<File>)
    requires BySmallest(fs) && WfFiles(fs)
    requires forall f, g :: f in fs && g in fs && f != g ==> Before(f.largest, g.smallest) || Before(g.largest, f.smallest)
    ensures Disjoint(fs)
  {
    forall i, j | 0 <= i < j < |fs|
      ensures Before(fs[i].largest, fs[j].smallest)
    {
      assert FileBefore(fs[i], fs[j]);
      BoundsOrdered(fs[i]);
      BoundsOrdered(fs[j]);
    }
  }

  lemma DisjointFilesApart(fs: seq<File>, f: File, g: File)
    requires Disjoint(fs) && f in fs && g in fs && f != g
    ensures Before(f.largest, g.smallest) || Before(g.largest, f.smallest)
  {
    var i :| 0 <= i < |fs| && fs[i] == f;
    var j :| 0 <= j < |fs| && fs[j] == g;
  }

  /** `g` ends before every input begins. */
  ghost predicate BeforeAll(g: File, in0: seq<File>, in1: seq<File>) {
    forall h, e :: (h in in0 || h in in1) && e in h.entries ==> Before(g.largest, e.key)
  }

  /** `g` begins after every input ends. */
  ghost predicate AfterAll(g: File, in0: seq<File>, in1: seq<File>) {
    forall h, e :: (h in in0 || h in in1) && e in h.entries ==> Before(e.key, g.smallest)
  }

  /** A file left out of the next level lies entirely beside the whole compaction. */
  lemma LeftOutIsBeside(v: Version, level: nat, in0: seq<File>, in1: seq<File>, g: File)
    requires Shape(v) && level + 1 < NUM_LEVELS && Selected(v, level, in0, in1)
    requires g in v[level + 1] && g !in in1
    ensures BeforeAll(g, in0, in1) || AfterAll(g, in0, in1)
  {
    if forall p :: p in in0 ==> g.largest.user < p.smallest.user {
      forall h, e | (h in in0 || h in in1) && e in h.entries
        ensures Before(g.largest, e.key)
      {
        InBounds(h, e);
        if h !in in0 {
          DisjointFilesApart(v[level + 1], g, h);
          BoundsOrdered(g);
        }
      }
    } else {
      var p :| p in in0 && p.smallest.user <= g.largest.user;
      forall q | q in in0
        ensures q.largest.user < g.smallest.user
      {
        assert !MeetsRangeOf(g, in0);
      }
      forall h, e | (h in in0 || h in in1) && e in h.entries
        ensures Before(e.key, g.smallest)
      {
        InBounds(h, e);
        if h !in in0 {
          DisjointFilesApart(v[level + 1], g, h);
          BoundsOrdered(g);
        }
      }
    }
  }

  lemma OutputBesideLeftOut(in0: seq<File>, in1: seq<File>, outs: seq<File>, g: File, o: File)
    requires LevelElems(outs) <= LevelElems(in0) + LevelElems(in1)
    requires o in outs && WfFile(o) && (BeforeAll(g, in0, in1) || AfterAll(g, in0, in1))
    ensures Before(g.largest, o.smallest) || Before(o.largest, g.smallest)
  {
    InputEntry(in0, in1, outs, o, o.entries[0]);
    InputEntry(in0, in1, outs, o, o.entries[|o.entries| - 1]);
  }

  lemma InputEntry(in0: seq<File>, in1: seq<File>, outs: seq<File>, o: File, e: Entry)
    requires LevelElems(outs) <= LevelElems(in0) + LevelElems(in1) && o in outs && e in o.entries
    ensures exists h :: (h in in0 || h in in1) && e in h.entries
  {
    assert e in LevelElems(outs);
  }

  lemma ShapeKept(v: Version, v': Version, level: nat, in0: seq<File>, in1: seq<File>, outs: seq<File>)
    requires Shape(v) && level + 1 < NUM_LEVELS && Installed(v, v', level, in0, in1, outs)
    ensures Shape(v')
  {
    hide Selected, NumbersFree, WfFile, LevelElems;
    FilesKept(v, v', level, in0, in1, outs);
    if level >= 1 {
      InputLevelKept(v[level], v'[level]);
    }
    OutputLevelDisjoint(v, v', level, in0, in1, outs);
  }

  lemma FilesKept(v: Version, v': Version, level: nat, in0: seq<File>, in1: seq<File>, outs: seq<File>)
    requires Shape(v) && level + 1 < NUM_LEVELS && Replaced(v, v', level, in0, in1, outs) && WfFiles(outs)
    ensures forall l :: 0 <= l < |v'| ==> WfFiles(v'[l])
  {
    forall l | 0 <= l < |v'|
      ensures WfFiles(v'[l])
    {
      forall f | f in v'[l]
        ensures WfFile(f)
      {
        assert f in v[l] || f in outs;
      }
    }
  }

  lemma InputLevelKept(fs: seq<File>, fs': seq<File>)
    requires WfFiles(fs) && Disjoint(fs) && BySmallest(fs') && forall f :: f in fs' ==> f in fs
    ensures Disjoint(fs')
  {
    forall f, g | f in fs' && g in fs' && f != g
      ensures Before(f.largest, g.smallest) || Before(g.largest, f.smallest)
    {
      DisjointFilesApart(fs, f, g);
    }
    SortedApartIsDisjoint(fs');
  }

  lemma OutputLevelDisjoint(v: Version, v': Version, level: nat, in0: seq<File>, in1: seq<File>, outs: seq<File>)
    requires Shape(v) && level + 1 < NUM_LEVELS && Installed(v, v', level, in0, in1, outs)
    ensures Disjoint(v'[level + 1])
  {
    forall f, g | f in v'[level + 1] && g in v'[level + 1] && f != g
      ensures Before(f.largest, g.smallest) || Before(g.largest, f.smallest)
    {
      if f in outs && g in outs {
        DisjointFilesApart(outs, f, g);
      } else if f in outs {
        LeftOutIsBeside(v, level, in0, in1, g);
        OutputBesideLeftOut(in0, in1, outs, g, f);
      } else if g in outs {
        LeftOutIsBeside(v, level, in0, in1, f);
        OutputBesideLeftOut(in0, in1, outs, f, g);
      } else {
        DisjointFilesApart(v[level + 1], f, g);
      }
    }
    SortedApartIsDisjoint(v'[level + 1]);
  }

  // ----- numbers

  lemma NumbersKept(v: Version, v': Version, level: nat, in0: seq<File>, in1: seq<File>, outs: seq<File>)
    requires NumbersUnique(v) && level + 1 < |v| && Replaced(v, v', level, in0, in1, outs) && NumbersFree(v, level, in0, outs)
    ensures NumbersUnique(v')
  {
    forall l, m, f, g | 0 <= l < |v'| && 0 <= m < |v'| && f in v'[l] && g in v'[m] && f.number == g.number
      ensures l == m && f == g
    {
      if l == level + 1 && f in outs && m == level + 1 && g in outs {
        OutputNumbersDistinct(outs, f, g);
      } else if l == level + 1 && f in outs {
        OutputNumberFree(v, v', level, in0, in1, outs, f, m, g);
      } else if m == level + 1 && g in outs {
        OutputNumberFree(v, v', level, in0, in1, outs, g, l, f);
      } else {
        assert f in v[l] && g in v[m];
      }
    }
  }

  lemma OutputNumbersDistinct(outs: seq<File>, f: File, g: File)
    requires forall i, j :: 0 <= i < j < |outs| ==> outs[i].number != outs[j].number
    requires f in outs && g in outs && f.number == g.number
    ensures f == g
  {
    var i :| 0 <= i < |outs| && outs[i] == f;
    var j :| 0 <= j < |outs| && outs[j] == g;
  }

  lemma OutputNumberFree(v: Version, v': Version, level: nat, in0: seq<File>, in1: seq<File>, outs: seq<File>, o: File, m: nat, g: File)
    requires level + 1 < |v| && Replaced(v, v', level, in0, in1, outs) && NumbersFree(v, level, in0, outs)
    requires o in outs && m < |v'| && g in v'[m] && (m != level + 1 || g !in outs)
    ensures o.number != g.number
  {
    assert g in v[m];
  }

  lemma BySmallestKept(v: Version, v': Version, level: nat, in0: seq<File>, in1: seq<File>, outs: seq<File>)
    requires LevelsBySmallest(v) && level + 1 < |v| && Replaced(v, v', level, in0, in1, outs)
    ensures LevelsBySmallest(v')
  {
  }

  /** Files of level 0 that stay keep their order of age. */
  lemma AgeOfLevel0Kept(v: Version, v': Version, level: nat, in0: seq<File>, in1: seq<File>, outs: seq<File>)
    requires level + 1 < |v| && NumbersUnique(v) && NumberedByAge(v[0]) && Replaced(v, v', level, in0, in1, outs)
    ensures NumberedByAge(v'[0])
  {
    if level == 0 {
      forall i, j | 0 <= i < j < |v'[0]|
        ensures v'[0][i].number != v'[0][j].number
      {
        assert FileBefore(v'[0][i], v'[0][j]);
        assert v'[0][i] in v[0] && v'[0][j] in v[0];
      }
    }
  }

  // ----- age across levels

  /** What stays at the level is newer, key by key, than what moves down. */
  lemma RestNewerThanInputs(v: Version, level: nat, in0: seq<File>, in1: seq<File>, f: File, h: File, x: Entry, y: Entry)
    requires Shape(v) && level + 1 < NUM_LEVELS && Selected(v, level, in0, in1)
    requires f in v[level] && f !in in0 && x in f.entries
    requires h in in0 && y in h.entries && x.key.user == y.key.user
    ensures Tag(x.key) > Tag(y.key)
  {
    InBounds(f, x);
    InBounds(h, y);
    if level == 0 {
      assert MeetsRangeOf(f, in0);
    } else {
      DisjointFilesApart(v[level], f, h);
      if Before(h.largest, f.smallest) {
        AfterTheRun(v[level], in0, h, f);
      }
    }
  }

  /** A left-out file past an input is past the whole run, and starts with another user key. */
  lemma AfterTheRun(fs: seq<File>, run: seq<File>, h: File, f: File)
    requires WfFiles(fs) && Disjoint(fs) && IsRun(fs, run) && BoundaryClosed(fs, run)
    requires h in run && f in fs && f !in run && Before(h.largest, f.smallest)
    ensures h.largest.user < f.smallest.user
  {
    var a, i, b := PlaceInRun(fs, run, h);
    var k :| 0 <= k < |fs| && fs[k] == f;
    LeftOutPastTheRun(fs, run, a, b, i, k);
  }

  lemma PlaceInRun(fs: seq<File>, run: seq<File>, h: File) returns (a: nat, i: nat, b: nat)
    requires IsRun(fs, run) && h in run
    ensures a <= i < b <= |fs| && run == fs[a..b] && fs[i] == h
  {
    a, b :| 0 <= a < b <= |fs| && run == fs[a..b];
    var j :| 0 <= j < |run| && run[j] == h;
    i := a + j;
  }

  lemma LeftOutPastTheRun(fs: seq<File>, run: seq<File>, a: nat, b: nat, i: nat, k: nat)
    requires WfFiles(fs) && Disjoint(fs) && a <= i < b <= |fs| && k < |fs|
    requires run == fs[a..b] && BoundaryClosed(fs, run)
    requires fs[k] !in run && Before(fs[i].largest, fs[k].smallest)
    ensures fs[i].largest.user < fs[k].smallest.user
  {
    LastIsLargest(fs, a, b);
    assert !Continues(fs[k], fs[b - 1].largest);
    PastTheRunStartsAfter(fs, a, b, i, k);
  }

  lemma PastTheRunStartsAfter(fs: seq<File>, a: nat, b: nat, i: nat, k: nat)
    requires WfFiles(fs) && Disjoint(fs) && a <= i < b <= |fs| && k < |fs|
    requires fs[k] !in fs[a..b] && Before(fs[i].largest, fs[k].smallest)
    requires !Continues(fs[k], fs[b - 1].largest)
    ensures fs[i].largest.user < fs[k].smallest.user
  {
    PastTheRun(fs, a, b, i, k);
    assert Before(fs[b - 1].largest, fs[k].smallest);
    if i < b - 1 {
      BoundsOrdered(fs[b - 1]);
      assert Before(fs[i].largest, fs[b - 1].smallest);
    }
  }

  lemma PastTheRun(fs: seq<File>, a: nat, b: nat, i: nat, k: nat)
    requires WfFiles(fs) && Disjoint(fs) && a <= i < b <= |fs| && k < |fs|
    requires fs[k] !in fs[a..b] && Before(fs[i].largest, fs[k].smallest)
    ensures k >= b
  {
    BoundsOrdered(fs[k]);
    BoundsOrdered(fs[i]);
    forall j | a <= j < b
      ensures fs[j] != fs[k]
    {
      assert fs[a..b][j - a] == fs[j];
    }
  }

  lemma LastIsLargest(fs: seq<File>, a: nat, b: nat)
    requires WfFiles(fs) && Disjoint(fs) && a < b <= |fs|
    ensures IsLargest(fs[a..b], fs[b - 1].largest)
  {
    assert fs[b - 1] in fs[a..b];
    forall f | f in fs[a..b]
      ensures AtOrBefore(f.largest, fs[b - 1].largest)
    {
      var i :| a <= i < b && fs[i] == f;
      BoundsOrdered(fs[b - 1]);
    }
  }

  lemma AgeKept(v: Version, v': Version, level: nat, in0: seq<File>, in1: seq<File>, outs: seq<File>)
    requires Shape(v) && LevelsByAge(v) && level + 1 < NUM_LEVELS && Installed(v, v', level, in0, in1, outs)
    ensures LevelsByAge(v')
  {
    assert |v'| == NUM_LEVELS;
    forall l, m | 0 <= l < m < |v'|
      ensures Newer(LevelElems(v'[l]), LevelElems(v'[m]))
    {
      AgeKeptAt(v, v', level, in0, in1, outs, l, m);
    }
  }

  lemma AgeKeptAt(v: Version, v': Version, level: nat, in0: seq<File>, in1: seq<File>, outs: seq<File>, l: nat, m: nat)
    requires Shape(v) && LevelsByAge(v) && level + 1 < NUM_LEVELS && Installed(v, v', level, in0, in1, outs) && l < m < |v'|
    ensures Newer(LevelElems(v'[l]), LevelElems(v'[m]))
  {
    hide LevelsByAge, NumbersFree, OverlapClosed, IsRun, BoundaryClosed;
    forall x, y | x in LevelElems(v'[l]) && y in LevelElems(v'[m]) && x.key.user == y.key.user
      ensures Tag(x.key) > Tag(y.key)
    {
      var f :| f in v'[l] && x in f.entries;
      var g :| g in v'[m] && y in g.entries;
      var lx := LevelOf(v, v', level, in0, in1, outs, l, f, x);
      var my := LevelOf(v, v', level, in0, in1, outs, m, g, y);
      if lx < my {
        ShallowerIsNewer(v, lx, my, x, y);
      } else {
        var h :| h in in0 && y in h.entries;
        RestNewerThanInputs(v, level, in0, in1, f, h, x, y);
      }
    }
  }

  /** The level an entry of the new version had in the old one. */
  lemma LevelOf(v: Version, v': Version, level: nat, in0: seq<File>, in1: seq<File>, outs: seq<File>, l: nat, f: File, e: Entry)
    returns (k: nat)
    requires level + 1 < |v| && FromLevels(v, level, in0, in1) && Replaced(v, v', level, in0, in1, outs)
    requires LevelElems(outs) <= LevelElems(in0) + LevelElems(in1)
    requires l < |v'| && f in v'[l] && e in f.entries
    ensures k < |v| && e in LevelElems(v[k])
    ensures k == l || (l == level + 1 && k == level && exists h :: h in in0 && e in h.entries)
  {
    k := l;
    if l == level + 1 && f in outs {
      InputEntry(in0, in1, outs, f, e);
      var h :| (h in in0 || h in in1) && e in h.entries;
      if h in in0 {
        k := level;
        InLevel(v[level], h, e);
      } else {
        InLevel(v[level + 1], h, e);
      }
    } else {
      assert f in v[l];
      InLevel(v[l], f, e);
    }
  }

  lemma InLevel(fs: seq<File>, f: File, e: Entry)
    requires f in fs && e in f.entries
    ensures e in LevelElems(fs)
  {
  }

  /** The invariants of a version survive every compaction and every move. */
  lemma StepKeepsInv(v: Version, v': Version, level: nat, in0: seq<File>, in1: seq<File>, outs: seq<File>)
    requires Inv(v) && level + 1 < NUM_LEVELS && Installed(v, v', level, in0, in1, outs)
    ensures Inv(v')
  {
    ShapeKept(v, v', level, in0, in1, outs);
    BySmallestKept(v, v', level, in0, in1, outs);
    NumbersKept(v, v', level, in0, in1, outs);
    AgeOfLevel0Kept(v, v', level, in0, in1, outs);
    AgeKept(v, v', level, in0, in1, outs);
  }

  // ----- what a read sees

  /** Entries at shallower levels and the entries of the level that stay there. */
  ghost function Above(v: Version, level: nat, in0: seq<File>): set<Entry>
    requires level < |v|
  {
    Shallower(v, level) + Staying(v[level], in0)
  }

  ghost function Shallower(v: Version, level: nat): set<Entry>
    requires level <= |v|
  {
    set l, e | 0 <= l < level && e in LevelElems(v[l]) :: e
  }

  ghost function Staying(fs: seq<File>, inputs: seq<File>): set<Entry> {
    set f, e | f in fs && f !in inputs && e in f.entries :: e
  }

  ghost function Inputs(in0: seq<File>, in1: seq<File>): set<Entry> {
    LevelElems(in0) + LevelElems(in1)
  }

  /** Entries of the next level that are not part of the compaction. */
  ghost function Beside(v: Version, level: nat, in1: seq<File>): set<Entry>
    requires level + 1 < |v|
  {
    set f, e | f in v[level + 1] && f !in in1 && e in f.entries :: e
  }

  ghost function Below(v: Version, level: nat): set<Entry> {
    set l, e | level + 2 <= l < |v| && e in LevelElems(v[l]) :: e
  }

  lemma OldParts(v: Version, level: nat, in0: seq<File>, in1: seq<File>, e: Entry)
    requires level + 1 < |v| && FromLevels(v, level, in0, in1)
    ensures e in VersionElems(v)
       <==> e in Above(v, level, in0) || e in Inputs(in0, in1) || e in Beside(v, level, in1) || e in Below(v, level)
  {
    if e in VersionElems(v) {
      var l :| 0 <= l < |v| && e in LevelElems(v[l]);
      var f :| f in v[l] && e in f.entries;
    }
    if e in Inputs(in0, in1) {
      assert e in LevelElems(v[level]) || e in LevelElems(v[level + 1]);
    }
    if e in Beside(v, level, in1) {
      assert e in LevelElems(v[level + 1]);
    }
    if e in Above(v, level, in0) && !(exists l :: 0 <= l < level && e in LevelElems(v[l])) {
      assert e in LevelElems(v[level]);
    }
  }

  lemma NewParts(v: Version, v': Version, level: nat, in0: seq<File>, in1: seq<File>, outs: seq<File>, e: Entry)
    requires level + 1 < |v| && Replaced(v, v', level, in0, in1, outs)
    ensures e in VersionElems(v')
       <==> e in Above(v, level, in0) || e in LevelElems(outs) || e in Beside(v, level, in1) || e in Below(v, level)
  {
    if e in VersionElems(v') {
      var l :| 0 <= l < |v'| && e in LevelElems(v'[l]);
      var f :| f in v'[l] && e in f.entries;
    }
    if e in LevelElems(outs) || e in Beside(v, level, in1) {
      assert e in LevelElems(v'[level + 1]);
    }
    if e in Above(v, level, in0) && !(exists l :: 0 <= l < level && e in LevelElems(v[l])) {
      assert e in LevelElems(v'[level]);
    }
    if e in Above(v, level, in0) && exists l :: 0 <= l < level && e in LevelElems(v[l]) {
      var l :| 0 <= l < level && e in LevelElems(v[l]);
      assert e in LevelElems(v'[l]);
    }
    if e in Below(v, level) {
      var l :| level + 2 <= l < |v| && e in LevelElems(v[l]);
      assert e in LevelElems(v'[l]);
    }
  }

  /** The parts are ordered by age, except that nothing is known of the inputs
      against the files left beside them. */
  lemma PartsByAge(v: Version, level: nat, in0: seq<File>, in1: seq<File>)
    requires Shape(v) && LevelsByAge(v) && level + 1 < NUM_LEVELS && Selected(v, level, in0, in1)
    ensures Newer(Above(v, level, in0), Inputs(in0, in1) + Beside(v, level, in1) + Below(v, level))
    ensures Newer(Inputs(in0, in1) + Beside(v, level, in1), Below(v, level))
  {
    AboveNewer(v, level, in0, in1);
    BelowOlder(v, level, in0, in1);
    NewerThanBoth(Above(v, level, in0), Inputs(in0, in1) + Beside(v, level, in1), Below(v, level));
  }

  lemma NewerThanBoth(a: set<Entry>, b: set<Entry>, c: set<Entry>)
    requires Newer(a, b) && Newer(a + b, c)
    ensures Newer(a, b + c) && Newer(b, c)
  {
  }

  lemma AboveNewer(v: Version, level: nat, in0: seq<File>, in1: seq<File>)
    requires Shape(v) && LevelsByAge(v) && level + 1 < NUM_LEVELS && Selected(v, level, in0, in1)
    ensures Newer(Above(v, level, in0), Inputs(in0, in1) + Beside(v, level, in1))
  {
    ShallowerNewer(v, level, level);
    ShallowerNewer(v, level, level + 1);
    StayingNewerThanInputs(v, level, in0, in1);
    StayingNewerThanNext(v, level, in0);
    MiddleFrom(v, level, in0, in1);
    NewerPieces(Shallower(v, level), Staying(v[level], in0), LevelElems(v[level]), LevelElems(in0), LevelElems(v[level + 1]),
                Inputs(in0, in1) + Beside(v, level, in1));
  }

  lemma NewerPieces(a: set<Entry>, b: set<Entry>, here: set<Entry>, in0: set<Entry>, next: set<Entry>, mid: set<Entry>)
    requires Newer(a, here) && Newer(a, next) && Newer(b, in0) && Newer(b, next)
    requires in0 <= here && mid <= in0 + next
    ensures Newer(a + b, mid)
  {
  }

  lemma ShallowerNewer(v: Version, level: nat, m: nat)
    requires LevelsByAge(v) && level <= m < |v|
    ensures Newer(Shallower(v, level), LevelElems(v[m]))
  {
    forall x: Entry, y: Entry | x in Shallower(v, level) && y in LevelElems(v[m]) && x.key.user == y.key.user
      ensures Tag(x.key) > Tag(y.key)
    {
      var l :| 0 <= l < level && x in LevelElems(v[l]);
      ShallowerIsNewer(v, l, m, x, y);
    }
  }

  lemma StayingNewerThanInputs(v: Version, level: nat, in0: seq<File>, in1: seq<File>)
    requires Shape(v) && level + 1 < NUM_LEVELS && Selected(v, level, in0, in1)
    ensures Newer(Staying(v[level], in0), LevelElems(in0))
  {
    forall x: Entry, y: Entry | x in Staying(v[level], in0) && y in LevelElems(in0) && x.key.user == y.key.user
      ensures Tag(x.key) > Tag(y.key)
    {
      var f :| f in v[level] && f !in in0 && x in f.entries;
      var h :| h in in0 && y in h.entries;
      RestNewerThanInputs(v, level, in0, in1, f, h, x, y);
    }
  }

  lemma StayingNewerThanNext(v: Version, level: nat, in0: seq<File>)
    requires LevelsByAge(v) && level + 1 < |v|
    ensures Newer(Staying(v[level], in0), LevelElems(v[level + 1]))
  {
    assert Staying(v[level], in0) <= LevelElems(v[level]);
    assert Newer(LevelElems(v[level]), LevelElems(v[level + 1]));
  }

  lemma MiddleFrom(v: Version, level: nat, in0: seq<File>, in1: seq<File>)
    requires level + 1 < |v| && FromLevels(v, level, in0, in1)
    ensures LevelElems(in0) <= LevelElems(v[level])
    ensures Inputs(in0, in1) + Beside(v, level, in1) <= LevelElems(in0) + LevelElems(v[level + 1])
  {
  }

  lemma BelowOlder(v: Version, level: nat, in0: seq<File>, in1: seq<File>)
    requires LevelsByAge(v) && level + 1 < |v| && FromLevels(v, level, in0, in1)
    ensures Newer(Above(v, level, in0) + (Inputs(in0, in1) + Beside(v, level, in1)), Below(v, level))
  {
    ShallowerNewerThanBelow(v, level);
    NewerThanBelow(v, level, level);
    NewerThanBelow(v, level + 1, level);
    MiddleFrom(v, level, in0, in1);
    assert Staying(v[level], in0) <= LevelElems(v[level]);
    BelowPieces(Shallower(v, level), LevelElems(v[level]), LevelElems(v[level + 1]), Below(v, level),
                Above(v, level, in0) + (Inputs(in0, in1) + Beside(v, level, in1)));
  }

  lemma BelowPieces(a: set<Entry>, here: set<Entry>, next: set<Entry>, below: set<Entry>, all: set<Entry>)
    requires Newer(a, below) && Newer(here, below) && Newer(next, below) && all <= a + here + next
    ensures Newer(all, below)
  {
  }

  lemma NewerThanBelow(v: Version, l: nat, level: nat)
    requires LevelsByAge(v) && l < level + 2 <= |v| + 1 && l < |v|
    ensures Newer(LevelElems(v[l]), Below(v, level))
  {
    forall x: Entry, y: Entry | x in LevelElems(v[l]) && y in Below(v, level) && x.key.user == y.key.user
      ensures Tag(x.key) > Tag(y.key)
    {
      var m :| level + 2 <= m < |v| && y in LevelElems(v[m]);
      ShallowerIsNewer(v, l, m, x, y);
    }
  }

  lemma ShallowerNewerThanBelow(v: Version, level: nat)
    requires LevelsByAge(v) && level < |v|
    ensures Newer(Shallower(v, level), Below(v, level))
  {
    forall x: Entry, y: Entry | x in Shallower(v, level) && y in Below(v, level) && x.key.user == y.key.user
      ensures Tag(x.key) > Tag(y.key)
    {
      var l :| 0 <= l < level && x in LevelElems(v[l]);
      NewerThanBelow(v, l, level);
    }
  }

  /** In a version no two entries share an internal key. */
  lemma VersionKeysDistinct(v: Version)
    requires Shape(v) && LevelsByAge(v) && NumberedByAge(v[0])
    ensures DistinctKeys(VersionElems(v))
  {
    forall x, y | x in VersionElems(v) && y in VersionElems(v) && x.key == y.key
      ensures x == y
    {
      var l :| 0 <= l < |v| && x in LevelElems(v[l]);
      var m :| 0 <= m < |v| && y in LevelElems(v[m]);
      SameKeySameEntry(v, l, m, x, y);
    }
  }

  lemma ShallowerIsNewer(v: Version, l: nat, m: nat, x: Entry, y: Entry)
    requires LevelsByAge(v) && l < m < |v| && x in LevelElems(v[l]) && y in LevelElems(v[m]) && x.key.user == y.key.user
    ensures Tag(x.key) > Tag(y.key)
  {
    assert Newer(LevelElems(v[l]), LevelElems(v[m]));
  }

  lemma SameKeySameEntry(v: Version, l: nat, m: nat, x: Entry, y: Entry)
    requires Shape(v) && LevelsByAge(v) && NumberedByAge(v[0])
    requires l < |v| && m < |v| && x in LevelElems(v[l]) && y in LevelElems(v[m]) && x.key == y.key
    ensures x == y
  {
    if l < m {
      ShallowerIsNewer(v, l, m, x, y);
    } else if m < l {
      ShallowerIsNewer(v, m, l, y, x);
    } else {
      LevelKeysDistinct(v[l], x, y, l);
    }
  }

  lemma LevelKeysDistinct(fs: seq<File>, x: Entry, y: Entry, l: nat)
    requires WfFiles(fs) && if l == 0 then NumberedByAge(fs) else Disjoint(fs)
    requires x in LevelElems(fs) && y in LevelElems(fs) && x.key == y.key
    ensures x == y
  {
    var f :| f in fs && x in f.entries;
    var g :| g in fs && y in g.entries;
    if f == g {
      FileKeysDistinct(f, x, y);
    } else if l > 0 {
      InBounds(f, x);
      InBounds(g, y);
      DisjointFilesApart(fs, f, g);
    } else {
      Level0KeysDistinct(fs, f, g, x, y);
    }
  }

  lemma FileKeysDistinct(f: File, x: Entry, y: Entry)
    requires Sorted(f.entries) && x in f.entries && y in f.entries && x.key == y.key
    ensures x == y
  {
    var i :| 0 <= i < |f.entries| && f.entries[i] == x;
    var j :| 0 <= j < |f.entries| && f.entries[j] == y;
  }

  lemma Level0KeysDistinct(fs: seq<File>, f: File, g: File, x: Entry, y: Entry)
    requires NumberedByAge(fs) && f in fs && g in fs && f != g && x in f.entries && y in g.entries
    ensures x.key != y.key
  {
    assert x in Elems(f.entries) && y in Elems(g.entries);
    if f.number == g.number {
      SameNumberSameFile(fs, f, g);
    }
  }

  /** The one hazard. A deletion that rule (B) drops hides, at `s`, a value that
      a file of the output level outside the compaction still holds, and nothing
      above hides it. */
  ghost predicate Resurrects(v: Version, level: nat, in0: seq<File>, in1: seq<File>, snap: nat, u: UserKey, s: nat)
    requires level + 1 < |v|
  {
    && IsNewest(Above(v, level, in0), u, s, None)
    && exists m, b ::
         && IsNewest(Inputs(in0, in1), u, s, Some(m)) && Obsolete(v, level, m, snap)
         && IsNewest(Beside(v, level, in1), u, s, Some(b)) && b.key.kind == Value && Tag(b.key) < Tag(m.key)
  }

  function FirstOf(a: Option<Entry>, b: Option<Entry>): Option<Entry> {
    if a.Some? then a else b
  }

  function Later(a: Option<Entry>, b: Option<Entry>): Option<Entry> {
    if a == None || (b.Some? && Tag(b.value.key) > Tag(a.value.key)) then b else a
  }

  lemma NewestOfBoth(a: set<Entry>, b: set<Entry>, u: UserKey, s: nat, ra: Option<Entry>, rb: Option<Entry>)
    requires IsNewest(a, u, s, ra) && IsNewest(b, u, s, rb)
    ensures IsNewest(a + b, u, s, Later(ra, rb))
  {
  }

  /** The answer put together from the answers of four parts. */
  lemma AnswerOfParts(a: set<Entry>, m: set<Entry>, b: set<Entry>, d: set<Entry>, all: set<Entry>, u: UserKey, s: nat,
                      ra: Option<Entry>, rm: Option<Entry>, rb: Option<Entry>, rd: Option<Entry>, r: Option<Entry>)
    requires Newer(a, m + b + d) && Newer(m + b, d) && DistinctKeys(all) && all == a + (m + b + d)
    requires IsNewest(a, u, s, ra) && IsNewest(m, u, s, rm) && IsNewest(b, u, s, rb) && IsNewest(d, u, s, rd)
    requires IsNewest(all, u, s, r)
    ensures r == FirstOf(ra, FirstOf(Later(rm, rb), rd))
  {
    NewestOfBoth(m, b, u, s, rm, rb);
    NewestOfUnion(m + b, d, u, s, Later(rm, rb), rd);
    NewestOfUnion(a, m + b + d, u, s, ra, FirstOf(Later(rm, rb), rd));
    NewestIsUnique(all, u, s, r, FirstOf(ra, FirstOf(Later(rm, rb), rd)));
  }

  lemma NothingBelow(v: Version, level: nat, u: UserKey, s: nat)
    requires Shape(v) && IsBase(v, level, u)
    ensures IsNewest(Below(v, level), u, s, None)
  {
    forall e | e in Below(v, level)
      ensures !Sees(e, u, s)
    {
      var l :| level + 2 <= l < |v| && e in LevelElems(v[l]);
      var f :| f in v[l] && e in f.entries;
      InBounds(f, e);
    }
  }

  /** A compaction as the engine runs it: the selected inputs, merged, go through
      the drop loop, and the outputs are installed. */
  ghost predicate CompactionRun(v: Version, v': Version, level: nat, in0: seq<File>, in1: seq<File>, outs: seq<File>,
                                input: seq<Entry>, snap: nat)
    requires level + 1 < |v|
  {
    && Installed(v, v', level, in0, in1, outs)
    && Sorted(input) && Elems(input) == Inputs(in0, in1)
    && LevelElems(outs) == Elems(Kept(v, level, input, snap, |input|))
  }

  lemma ObsoleteIsDropped(v: Version, level: nat, input: seq<Entry>, snap: nat, m: Entry)
    requires Obsolete(v, level, m, snap)
    ensures m !in Kept(v, level, input, snap, |input|)
  {
    KeptHolds(v, level, input, snap, |input|, m);
  }

  lemma PartsOf(v: Version, v': Version, level: nat, in0: seq<File>, in1: seq<File>, outs: seq<File>)
    requires level + 1 < |v| && FromLevels(v, level, in0, in1) && Replaced(v, v', level, in0, in1, outs)
    ensures VersionElems(v) == Above(v, level, in0) + (Inputs(in0, in1) + Beside(v, level, in1) + Below(v, level))
    ensures VersionElems(v') == Above(v, level, in0) + (LevelElems(outs) + Beside(v, level, in1) + Below(v, level))
  {
    forall e
      ensures e in VersionElems(v) <==> e in Above(v, level, in0) + (Inputs(in0, in1) + Beside(v, level, in1) + Below(v, level))
    {
      OldParts(v, level, in0, in1, e);
    }
    forall e
      ensures e in VersionElems(v') <==> e in Above(v, level, in0) + (LevelElems(outs) + Beside(v, level, in1) + Below(v, level))
    {
      NewParts(v, v', level, in0, in1, outs, e);
    }
  }

  /** The two answers from the answers of the parts; `k` is what the outputs hold. */
  lemma BothAnswers(a: set<Entry>, m: set<Entry>, o: set<Entry>, b: set<Entry>, d: set<Entry>, all: set<Entry>, all': set<Entry>,
                    u: UserKey, s: nat, ra: Option<Entry>, rm: Option<Entry>, rk: Option<Entry>, rb: Option<Entry>,
                    r: Option<Entry>, r': Option<Entry>)
    requires Newer(a, m + b + d) && Newer(m + b, d) && DistinctKeys(all) && o <= m
    requires all == a + (m + b + d) && all' == a + (o + b + d)
    requires IsNewest(a, u, s, ra) && IsNewest(m, u, s, rm) && IsNewest(o, u, s, rk) && IsNewest(b, u, s, rb)
    requires IsNewest(all, u, s, r) && IsNewest(all', u, s, r')
    requires rk == rm || (rk == None && rm.Some? && rm.value.key.kind == Deletion && IsNewest(d, u, s, None))
    ensures Answer(r) == Answer(r')
        <==> !(ra == None && rk != rm && rb.Some? && rb.value.key.kind == Value && Tag(rb.value.key) < Tag(rm.value.key))
  {
    var rd := NewestExists(d, u, s);
    AnswerOfParts(a, m, b, d, all, u, s, ra, rm, rb, rd, r);
    AnswerOfParts(a, o, b, d, all', u, s, ra, rk, rb, rd, r');
    if rk != rm && rb.Some? {
      assert rb.value in all && rm.value in all;
      OrderIsTotal(rb.value.key, rm.value.key);
      if rb.value.key == rm.value.key {
        assert rb == rm;
      }
    }
  }

  /** The hazard, in terms of the newest entries of the parts. */
  lemma HazardMeans(v: Version, level: nat, in0: seq<File>, in1: seq<File>, snap: nat, u: UserKey, s: nat,
                    a: Option<Entry>, m: Option<Entry>, b: Option<Entry>)
    requires level + 1 < |v| && FromLevels(v, level, in0, in1) && DistinctKeys(VersionElems(v))
    requires IsNewest(Above(v, level, in0), u, s, a) && IsNewest(Inputs(in0, in1), u, s, m)
    requires IsNewest(Beside(v, level, in1), u, s, b)
    ensures Resurrects(v, level, in0, in1, snap, u, s)
       <==> (a == None && m.Some? && Obsolete(v, level, m.value, snap)
             && b.Some? && b.value.key.kind == Value && Tag(b.value.key) < Tag(m.value.key))
  {
    InputsAndBesideDistinct(v, level, in0, in1);
    if Resurrects(v, level, in0, in1, snap, u, s) {
      var m', b' :| && IsNewest(Inputs(in0, in1), u, s, Some(m')) && Obsolete(v, level, m', snap)
                    && IsNewest(Beside(v, level, in1), u, s, Some(b')) && b'.key.kind == Value && Tag(b'.key) < Tag(m'.key);
      NewestIsUnique(Inputs(in0, in1), u, s, m, Some(m'));
      NewestIsUnique(Beside(v, level, in1), u, s, b, Some(b'));
    }
  }

  lemma InputsAndBesideDistinct(v: Version, level: nat, in0: seq<File>, in1: seq<File>)
    requires level + 1 < |v| && FromLevels(v, level, in0, in1) && DistinctKeys(VersionElems(v))
    ensures DistinctKeys(Inputs(in0, in1)) && DistinctKeys(Beside(v, level, in1))
  {
    forall e | e in Inputs(in0, in1) || e in Beside(v, level, in1)
      ensures e in VersionElems(v)
    {
      OldParts(v, level, in0, in1, e);
    }
  }

  /** A compaction keeps the answer of a read at or above the oldest snapshot if
      and only if the read does not meet the hazard. */
  lemma ReadsKeptExactly(v: Version, v': Version, level: nat, in0: seq<File>, in1: seq<File>, outs: seq<File>,
                         input: seq<Entry>, snap: nat, u: UserKey, s: nat, r: Option<Entry>, r': Option<Entry>)
    requires Inv(v) && level + 1 < NUM_LEVELS && CompactionRun(v, v', level, in0, in1, outs, input, snap)
    requires snap <= s && IsNewest(VersionElems(v), u, s, r) && IsNewest(VersionElems(v'), u, s, r')
    ensures Answer(r) == Answer(r') <==> !Resurrects(v, level, in0, in1, snap, u, s)
  {
    var a := NewestExists(Above(v, level, in0), u, s);
    var m := NewestExists(Elems(input), u, s);
    var b := NewestExists(Beside(v, level, in1), u, s);
    var k := OutputsAnswer(v, level, input, snap, u, s, m);
    AnswersCompared(v, v', level, in0, in1, outs, u, s, a, m, k, b, r, r');
    VersionKeysDistinct(v);
    HazardMeans(v, level, in0, in1, snap, u, s, a, m, b);
  }

  lemma AnswersCompared(v: Version, v': Version, level: nat, in0: seq<File>, in1: seq<File>, outs: seq<File>, u: UserKey, s: nat,
                        a: Option<Entry>, m: Option<Entry>, k: Option<Entry>, b: Option<Entry>, r: Option<Entry>, r': Option<Entry>)
    requires Inv(v) && level + 1 < NUM_LEVELS && Installed(v, v', level, in0, in1, outs)
    requires IsNewest(VersionElems(v), u, s, r) && IsNewest(VersionElems(v'), u, s, r')
    requires IsNewest(Above(v, level, in0), u, s, a) && IsNewest(Inputs(in0, in1), u, s, m)
    requires IsNewest(LevelElems(outs), u, s, k) && IsNewest(Beside(v, level, in1), u, s, b)
    requires k == m || (k == None && m.Some? && m.value.key.kind == Deletion && IsNewest(Below(v, level), u, s, None))
    ensures Answer(r) == Answer(r')
        <==> !(a == None && k != m && b.Some? && b.value.key.kind == Value && Tag(b.value.key) < Tag(m.value.key))
  {
    PartsOf(v, v', level, in0, in1, outs);
    PartsByAge(v, level, in0, in1);
    VersionKeysDistinct(v);
    BothAnswers(Above(v, level, in0), Inputs(in0, in1), LevelElems(outs), Beside(v, level, in1), Below(v, level),
                VersionElems(v), VersionElems(v'), u, s, a, m, k, b, r, r');
  }

  /** What the outputs answer: the inputs' newest entry, unless rule (B) dropped it. */
  lemma OutputsAnswer(v: Version, level: nat, input: seq<Entry>, snap: nat, u: UserKey, s: nat, m: Option<Entry>)
    returns (k: Option<Entry>)
    requires Shape(v) && Sorted(input) && snap <= s && IsNewest(Elems(input), u, s, m)
    ensures IsNewest(Elems(Kept(v, level, input, snap, |input|)), u, s, k)
    ensures k == if m.Some? && Obsolete(v, level, m.value, snap) then None else m
    ensures k != m ==> IsNewest(Below(v, level), u, s, None)
  {
    DropLoopKeepsReads(v, level, input, snap, u, s, m);
    k := if m.Some? && Obsolete(v, level, m.value, snap) then None else m;
    if k != m {
      ObsoleteIsDropped(v, level, input, snap, m.value);
      NothingBelow(v, level, u, s);
    }
  }

  /** Reads are kept when no file left beside the compaction holds older entries
      of an input's user key. Selecting inputs does not establish this. */
  lemma ReadsKeptWhenClosed(v: Version, v': Version, level: nat, in0: seq<File>, in1: seq<File>, outs: seq<File>,
                            input: seq<Entry>, snap: nat, u: UserKey, s: nat, r: Option<Entry>, r': Option<Entry>)
    requires Inv(v) && level + 1 < NUM_LEVELS && CompactionRun(v, v', level, in0, in1, outs, input, snap)
    requires Newer(Beside(v, level, in1), Inputs(in0, in1))
    requires snap <= s && IsNewest(VersionElems(v), u, s, r) && IsNewest(VersionElems(v'), u, s, r')
    ensures Answer(r) == Answer(r')
  {
    ReadsKeptExactly(v, v', level, in0, in1, outs, input, snap, u, s, r, r');
    ClosedHasNoHazard(v, level, in0, in1, snap, u, s);
  }

  lemma ClosedHasNoHazard(v: Version, level: nat, in0: seq<File>, in1: seq<File>, snap: nat, u: UserKey, s: nat)
    requires level + 1 < |v| && Newer(Beside(v, level, in1), Inputs(in0, in1))
    ensures !Resurrects(v, level, in0, in1, snap, u, s)
  {
    NewerExcludesOlder(Beside(v, level, in1), Inputs(in0, in1), u, s);
  }

  lemma NewerExcludesOlder(b: set<Entry>, m: set<Entry>, u: UserKey, s: nat)
    requires Newer(b, m)
    ensures forall x, y :: IsNewest(b, u, s, Some(x)) && IsNewest(m, u, s, Some(y)) ==> Tag(x.key) > Tag(y.key)
  {
  }
}
