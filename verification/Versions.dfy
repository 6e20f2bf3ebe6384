/** Table files, the files of a version by level, and `Version::Get`
    (`db/version_set.cc`). */
module Versions {
  import opened Keys

  /** What the version set records about a table file, and the entries in it. */
  datatype File = File(number: nat, size: nat, smallest: IKey, largest: IKey, entries: seq<Entry>)

  /** The files of each level, shallowest level first. */
  type Version = seq<seq<File>>

  ghost predicate WfFile(f: File) {
    && f.entries != [] && Sorted(f.entries)
    && f.smallest == f.entries[0].key
    && f.largest == f.entries[|f.entries| - 1].key
    && forall e :: e in f.entries ==> e.key.seqno <= MAX_SEQUENCE
  }

  ghost predicate WfFiles(fs: seq<File>) {
    forall f :: f in fs ==> WfFile(f)
  }

  /** Sorted, and no two files of the level overlap, by internal key. */
  ghost predicate Disjoint(fs: seq<File>) {
    forall i, j :: 0 <= i < j < |fs| ==> Before(fs[i].largest, fs[j].smallest)
  }

  /** The order of files inside a level: by smallest key, ties by number. */
  predicate FileBefore(f: File, g: File) {
    Before(f.smallest, g.smallest) || (f.smallest == g.smallest && f.number < g.number)
  }

  ghost predicate BySmallest(fs: seq<File>) {
    forall i, j :: 0 <= i < j < |fs| ==> FileBefore(fs[i], fs[j])
  }

  ghost function LevelElems(fs: seq<File>): set<Entry> {
    set f, e | f in fs && e in f.entries :: e
  }

  ghost function VersionElems(v: Version): set<Entry> {
    set l, e | 0 <= l < |v| && e in LevelElems(v[l]) :: e
  }

  /** Level-0 files may overlap; a higher number holds newer entries. */
  ghost predicate NumberedByAge(fs: seq<File>) {
    && (forall i, j :: 0 <= i < j < |fs| ==> fs[i].number != fs[j].number)
    && (forall f, g :: f in fs && g in fs && f.number > g.number ==> Newer(Elems(f.entries), Elems(g.entries)))
  }

  /** Seven levels of well-formed files; below level 0 they do not overlap. */
  ghost predicate Shape(v: Version) {
    && |v| == NUM_LEVELS
    && (forall l :: 0 <= l < |v| ==> WfFiles(v[l]))
    && (forall l :: 1 <= l < |v| ==> Disjoint(v[l]))
  }

  /** For each user key, a shallower level holds newer entries than a deeper one. */
  ghost predicate LevelsByAge(v: Version) {
    forall l, m :: 0 <= l < m < |v| ==> Newer(LevelElems(v[l]), LevelElems(v[m]))
  }

  /** A file number names one file of one level. */
  ghost predicate NumbersUnique(v: Version) {
    forall l, m, f, g :: 0 <= l < |v| && 0 <= m < |v| && f in v[l] && g in v[m] && f.number == g.number
      ==> l == m && f == g
  }

  ghost predicate LevelsBySmallest(v: Version) {
    forall l :: 0 <= l < |v| ==> BySmallest(v[l])
  }

  /** What every version installed by the engine satisfies. */
  ghost predicate Inv(v: Version) {
    && Shape(v)
    && LevelsBySmallest(v)
    && NumberedByAge(v[0])
    && NumbersUnique(v)
    && LevelsByAge(v)
  }

  function Runs(fs: seq<File>): (r: seq<seq<Entry>>)
    ensures |r| == |fs| && forall i :: 0 <= i < |r| ==> r[i] == fs[i].entries
  {
    seq(|fs|, i requires 0 <= i < |fs| => fs[i].entries)
  }

  /** An entry of a file lies between the bounds recorded for the file. */
  lemma InBounds(f: File, e: Entry)
    requires WfFile(f) && e in f.entries
    ensures AtOrBefore(f.smallest, e.key) && AtOrBefore(e.key, f.largest)
    ensures f.smallest.user <= e.key.user <= f.largest.user
  {
    var i :| 0 <= i < |f.entries| && f.entries[i] == e;
    if i > 0 {
      assert Before(f.entries[0].key, f.entries[i].key);
    }
    if i < |f.entries| - 1 {
      assert Before(f.entries[i].key, f.entries[|f.entries| - 1].key);
    }
  }

  /** Binary search for the first file whose largest key is at or after `k`. */
  method FindFile(fs: seq<File>, k: IKey) returns (right: nat)
    requires WfFiles(fs) && Disjoint(fs)
    ensures right <= |fs|
    ensures forall j :: 0 <= j < right ==> Before(fs[j].largest, k)
    ensures forall j :: right <= j < |fs| ==> !Before(fs[j].largest, k)
  {
    var left := 0;
    right := |fs|;
    while left < right
      invariant left <= right <= |fs|
      invariant forall j :: 0 <= j < left ==> Before(fs[j].largest, k)
      invariant forall j :: right <= j < |fs| ==> !Before(fs[j].largest, k)
    {
      var mid := (left + right) / 2;
      forall j | 0 <= j < |fs| && j != mid
        ensures j < mid ==> Before(fs[j].largest, fs[mid].largest)
        ensures mid < j ==> Before(fs[mid].largest, fs[j].largest)
      {
        BoundsOrdered(fs[j]);
        BoundsOrdered(fs[mid]);
      }
      if Before(fs[mid].largest, k) {
        left := mid + 1;
      } else {
        right := mid;
      }
    }
  }

  lemma BoundsOrdered(f: File)
    requires WfFile(f)
    ensures AtOrBefore(f.smallest, f.largest)
  {
    InBounds(f, f.entries[0]);
  }

  function InsertNewestFirst(f: File, fs: seq<File>): (r: seq<File>) {
    if fs == [] || f.number > fs[0].number then [f] + fs
    else [fs[0]] + InsertNewestFirst(f, fs[1..])
  }

  /** `std::sort` with NewestFirst. */
  function NewestFirst(fs: seq<File>): (r: seq<File>) {
    if fs == [] then [] else InsertNewestFirst(fs[0], NewestFirst(fs[1..]))
  }

  ghost predicate Descending(fs: seq<File>) {
    forall i, j :: 0 <= i < j < |fs| ==> fs[i].number >= fs[j].number
  }

  lemma {:induction false} InsertNewestFirstKeeps(f: File, fs: seq<File>)
    ensures multiset(InsertNewestFirst(f, fs)) == multiset([f]) + multiset(fs)
  {
    if fs != [] && f.number <= fs[0].number {
      InsertNewestFirstKeeps(f, fs[1..]);
      assert fs == [fs[0]] + fs[1..];
    }
  }

  lemma {:induction false} InsertNewestFirstSorts(f: File, fs: seq<File>)
    requires Descending(fs)
    ensures Descending(InsertNewestFirst(f, fs))
  {
    if fs != [] && f.number <= fs[0].number {
      InsertNewestFirstSorts(f, fs[1..]);
      var rest := InsertNewestFirst(f, fs[1..]);
      forall j | 0 <= j < |rest|
        ensures fs[0].number >= rest[j].number
      {
        InsertNewestFirstKeeps(f, fs[1..]);
        assert rest[j] in multiset(rest);
        assert rest[j] == f || rest[j] in fs[1..];
      }
    }
  }

  lemma {:induction false} NewestFirstSorts(fs: seq<File>)
    ensures Descending(NewestFirst(fs)) && multiset(NewestFirst(fs)) == multiset(fs)
  {
    if fs != [] {
      NewestFirstSorts(fs[1..]);
      InsertNewestFirstSorts(fs[0], NewestFirst(fs[1..]));
      InsertNewestFirstKeeps(fs[0], NewestFirst(fs[1..]));
      assert fs == [fs[0]] + fs[1..];
    }
  }

  /** The files a level-0 read looks into: all that can hold `u`, newest first. */
  ghost predicate Candidates(fs: seq<File>, u: UserKey, sorted: seq<File>) {
    && Descending(sorted)
    && forall f :: f in sorted <==> f in fs && f.smallest.user <= u <= f.largest.user
  }

  method FilesThatMayHold(fs: seq<File>, u: UserKey) returns (tmp: seq<File>)
    ensures forall f :: f in tmp <==> f in fs && f.smallest.user <= u <= f.largest.user
  {
    tmp := [];
    for i := 0 to |fs|
      invariant forall f :: f in tmp <==> f in fs[..i] && f.smallest.user <= u <= f.largest.user
    {
      assert fs[..i + 1] == fs[..i] + [fs[i]];
      if fs[i].smallest.user <= u && u <= fs[i].largest.user {
        tmp := tmp + [fs[i]];
      }
    }
    assert fs[..|fs|] == fs;
  }

  /** The first of these files whose own read answers. */
  method FirstAnswering(sorted: seq<File>, u: UserKey, s: nat) returns (i: nat)
    ensures i <= |sorted|
    ensures forall k :: 0 <= k < i ==> RunGet(sorted[k].entries, u, s) == None
    ensures i < |sorted| ==> RunGet(sorted[i].entries, u, s).Some?
  {
    i := 0;
    while i < |sorted|
      invariant i <= |sorted|
      invariant forall k :: 0 <= k < i ==> RunGet(sorted[k].entries, u, s) == None
    {
      var r := RunGet(sorted[i].entries, u, s);
      if r.Some? {
        return;
      }
      i := i + 1;
    }
  }

  /** Level 0: every file whose user-key range holds `u`, newest file first, until one answers. */
  method GetFromLevel0(fs: seq<File>, u: UserKey, s: nat) returns (r: Option<Entry>)
    requires WfFiles(fs) && NumberedByAge(fs)
    ensures IsNewest(LevelElems(fs), u, s, r)
  {
    var tmp := FilesThatMayHold(fs, u);
    var sorted := NewestFirst(tmp);
    SortingKeepsCandidates(fs, u, tmp);
    var i := FirstAnswering(sorted, u, s);
    if i < |sorted| {
      r := RunGet(sorted[i].entries, u, s);
      FirstHitIsNewest(fs, sorted, i, u, s);
    } else {
      r := None;
      NoHit(fs, sorted, u, s);
    }
  }

  lemma SortingKeepsCandidates(fs: seq<File>, u: UserKey, tmp: seq<File>)
    requires forall f :: f in tmp <==> f in fs && f.smallest.user <= u <= f.largest.user
    ensures Candidates(fs, u, NewestFirst(tmp))
  {
    NewestFirstSorts(tmp);
    forall f
      ensures f in NewestFirst(tmp) <==> f in tmp
    {
      assert f in multiset(NewestFirst(tmp)) <==> f in multiset(tmp);
    }
  }

  /** A visible entry of the level lies in a candidate file, whose own read answers. */
  lemma VisibleInCandidate(fs: seq<File>, sorted: seq<File>, u: UserKey, s: nat, e: Entry) returns (k: nat)
    requires WfFiles(fs) && Candidates(fs, u, sorted)
    requires e in LevelElems(fs) && Sees(e, u, s)
    ensures k < |sorted| && e in sorted[k].entries && RunGet(sorted[k].entries, u, s).Some?
    ensures Tag(e.key) <= Tag(RunGet(sorted[k].entries, u, s).value.key)
  {
    var f :| f in fs && e in f.entries;
    InBounds(f, e);
    k :| 0 <= k < |sorted| && sorted[k] == f;
    RunGetIsNewest(f.entries, u, s);
    assert e in Elems(f.entries);
  }

  lemma FirstHitIsNewest(fs: seq<File>, sorted: seq<File>, i: nat, u: UserKey, s: nat)
    requires WfFiles(fs) && NumberedByAge(fs) && Candidates(fs, u, sorted)
    requires i < |sorted| && RunGet(sorted[i].entries, u, s).Some?
    requires forall k :: 0 <= k < i ==> RunGet(sorted[k].entries, u, s) == None
    ensures IsNewest(LevelElems(fs), u, s, RunGet(sorted[i].entries, u, s))
  {
    var r := RunGet(sorted[i].entries, u, s).value;
    assert sorted[i] in fs;
    RunGetIsNewest(sorted[i].entries, u, s);
    assert r in Elems(sorted[i].entries);
    forall e | e in LevelElems(fs) && Sees(e, u, s)
      ensures Tag(e.key) <= Tag(r.key)
    {
      var k := VisibleInCandidate(fs, sorted, u, s, e);
      assert sorted[k] in fs;
      if sorted[k].number == sorted[i].number {
        SameNumberSameFile(fs, sorted[i], sorted[k]);
      } else {
        assert e in Elems(sorted[k].entries);
        assert Newer(Elems(sorted[i].entries), Elems(sorted[k].entries));
      }
    }
  }

  lemma NoHit(fs: seq<File>, sorted: seq<File>, u: UserKey, s: nat)
    requires WfFiles(fs) && Candidates(fs, u, sorted)
    requires forall k :: 0 <= k < |sorted| ==> RunGet(sorted[k].entries, u, s) == None
    ensures IsNewest(LevelElems(fs), u, s, None)
  {
    forall e | e in LevelElems(fs)
      ensures !Sees(e, u, s)
    {
      if Sees(e, u, s) {
        var k := VisibleInCandidate(fs, sorted, u, s, e);
      }
    }
  }

  lemma SameNumberSameFile(fs: seq<File>, f: File, g: File)
    requires NumberedByAge(fs) && f in fs && g in fs && f.number == g.number
    ensures f == g
  {
    var i :| 0 <= i < |fs| && fs[i] == f;
    var j :| 0 <= j < |fs| && fs[j] == g;
  }

  /** A deeper level: at most one file, found by binary search, can hold the answer. */
  method GetFromLevel(fs: seq<File>, u: UserKey, s: nat) returns (r: Option<Entry>)
    requires WfFiles(fs) && Disjoint(fs)
    ensures IsNewest(LevelElems(fs), u, s, r)
  {
    if |fs| == 0 {
      return None;
    }
    var index := FindFile(fs, SeekKey(u, s));
    forall f, e | f in fs && e in f.entries && Sees(e, u, s)
      ensures index < |fs| && fs[index].smallest.user <= u
      ensures RunGet(fs[index].entries, u, s).Some? && Tag(e.key) <= Tag(RunGet(fs[index].entries, u, s).value.key)
    {
      var j :| 0 <= j < |fs| && fs[j] == f;
      InBounds(f, e);
      assert index <= j && WfFile(fs[index]);
      RunGetIsNewest(fs[index].entries, u, s);
      if index < j {
        assert Before(fs[index].largest, f.smallest);
        var last := fs[index].entries[|fs[index].entries| - 1];
        BoundsOrdered(fs[index]);
        assert last in Elems(fs[index].entries);
        assert Sees(last, u, s);
      } else {
        assert e in Elems(f.entries);
      }
    }
    if index < |fs| && u >= fs[index].smallest.user {
      assert WfFile(fs[index]);
      r := RunGet(fs[index].entries, u, s);
      RunGetIsNewest(fs[index].entries, u, s);
    } else {
      r := None;
    }
  }

  /** Version::Get: level by level, stopping at the first file that holds a
      visible entry of the user key, be it a value or a deletion. */
  method Get(v: Version, u: UserKey, s: nat) returns (r: Option<Entry>)
    requires Inv(v)
    ensures IsNewest(VersionElems(v), u, s, r)
  {
    r := GetFromLevel0(v[0], u, s);
    if r.Some? {
      NewestAtLevel(v, 0, u, s, r);
      return;
    }
    for level := 1 to NUM_LEVELS
      invariant forall l, e :: 0 <= l < level && e in LevelElems(v[l]) ==> !Sees(e, u, s)
    {
      r := GetFromLevel(v[level], u, s);
      if r.Some? {
        NewestAtLevel(v, level, u, s, r);
        return;
      }
    }
    r := None;
  }

  /** The newest entry of the shallowest level that has a visible one is the newest of all. */
  lemma NewestAtLevel(v: Version, level: nat, u: UserKey, s: nat, r: Option<Entry>)
    requires LevelsByAge(v) && level < |v|
    requires forall l, e :: 0 <= l < level && e in LevelElems(v[l]) ==> !Sees(e, u, s)
    requires r.Some? && IsNewest(LevelElems(v[level]), u, s, r)
    ensures IsNewest(VersionElems(v), u, s, r)
  {
    forall e | e in VersionElems(v) && Sees(e, u, s)
      ensures Tag(e.key) <= Tag(r.value.key)
    {
      var l :| 0 <= l < |v| && e in LevelElems(v[l]);
      if l > level {
        assert Newer(LevelElems(v[level]), LevelElems(v[l]));
      }
    }
  }
}
