/** Applying version edits: VersionSet::Builder, as used by LogAndApply (one
    edit at a time) and by Recover (all edits at once) (`db/version_set.cc`). */
module VersionBuilder {
  import opened Keys
  import opened Versions

  /** The file changes of a version edit, by level and number. */
  datatype Edit = Edit(deleted: set<(nat, nat)>, added: seq<(nat, File)>)

  /** What the builder remembers about one level. `added` is a std::set ordered by smallest key. */
  datatype LevelState = LevelState(deleted: set<nat>, added: seq<File>)

  /** Insertion into the ordered set; an equivalent element already there stays. */
  function InsertFile(fs: seq<File>, f: File): seq<File> {
    if fs == [] || FileBefore(f, fs[0]) then [f] + fs
    else if FileBefore(fs[0], f) then [fs[0]] + InsertFile(fs[1..], f)
    else fs
  }

  function AddOne(st: LevelState, f: File): LevelState {
    LevelState(st.deleted - {f.number}, InsertFile(st.added, f))
  }

  /** The files an edit adds to a level, in the order it lists them. */
  function Adds(added: seq<(nat, File)>, level: nat): seq<File> {
    if added == [] then []
    else
      var init := Adds(added[..|added| - 1], level);
      var last := added[|added| - 1];
      if last.0 == level then init + [last.1] else init
  }

  function AddAll(st: LevelState, fs: seq<File>): LevelState {
    if fs == [] then st else AddOne(AddAll(st, fs[..|fs| - 1]), fs[|fs| - 1])
  }

  function Deletes(edit: Edit, level: nat): set<nat> {
    set d | d in edit.deleted && d.0 == level :: d.1
  }

  function ApplyToLevel(st: LevelState, edit: Edit, level: nat): LevelState {
    AddAll(st.(deleted := st.deleted + Deletes(edit, level)), Adds(edit.added, level))
  }

  function Kept(f: File, deleted: set<nat>): seq<File> {
    if f.number in deleted then [] else [f]
  }

  /** Base files from `b` on merged with added files from `i` on: each added file
      goes after the base files that do not come after it. Deleted ones are left out. */
  function Rest(base: seq<File>, b: nat, st: LevelState, i: nat): seq<File>
    requires b <= |base| && i <= |st.added|
    decreases |base| - b + |st.added| - i
  {
    if b < |base| && (i == |st.added| || !FileBefore(st.added[i], base[b])) then
      Kept(base[b], st.deleted) + Rest(base, b + 1, st, i)
    else if i < |st.added| then
      Kept(st.added[i], st.deleted) + Rest(base, b, st, i + 1)
    else []
  }

  function SavedLevel(base: seq<File>, st: LevelState): seq<File> {
    Rest(base, 0, st, 0)
  }

  /** The version one edit makes of another. */
  function ApplyEdit(v: Version, edit: Edit): (r: Version)
    ensures |r| == |v|
  {
    seq(|v|, l requires 0 <= l < |v| => SavedLevel(v[l], ApplyToLevel(LevelState({}, []), edit, l)))
  }

  lemma AddsStep(st: LevelState, added: seq<(nat, File)>, i: nat, level: nat)
    requires i < |added|
    ensures AddAll(st, Adds(added[..i + 1], level))
         == if added[i].0 == level then AddOne(AddAll(st, Adds(added[..i], level)), added[i].1)
            else AddAll(st, Adds(added[..i], level))
  {
    assert added[..i + 1][..i] == added[..i];
    var init := Adds(added[..i], level);
    assert (init + [added[i].1])[..|init|] == init;
  }

  class Builder {
    const base: Version
    var levels: seq<LevelState>

    constructor (base: Version)
      ensures this.base == base && levels == seq(|base|, _ => LevelState({}, []))
    {
      this.base := base;
      levels := seq(|base|, _ => LevelState({}, []));
    }

    method Apply(edit: Edit)
      requires |levels| == |base|
      requires forall d :: d in edit.deleted ==> d.0 < |base|
      requires forall a :: a in edit.added ==> a.0 < |base|
      modifies this`levels
      ensures |levels| == |base|
      ensures forall l :: 0 <= l < |base| ==> levels[l] == ApplyToLevel(old(levels)[l], edit, l)
    {
      DeleteFiles(edit);
      AddFiles(edit);
    }

    method DeleteFiles(edit: Edit)
      requires |levels| == |base|
      requires forall d :: d in edit.deleted ==> d.0 < |base|
      modifies this`levels
      ensures |levels| == |base|
      ensures forall l :: 0 <= l < |base| ==>
        levels[l] == LevelState(old(levels)[l].deleted + Deletes(edit, l), old(levels)[l].added)
    {
      var todo := edit.deleted;
      while todo != {}
        invariant todo <= edit.deleted && |levels| == |base|
        invariant forall l :: 0 <= l < |base| ==> levels[l].added == old(levels)[l].added
        invariant forall l, n :: 0 <= l < |base| ==>
          (n in levels[l].deleted <==> n in old(levels)[l].deleted || ((l, n) in edit.deleted && (l, n) !in todo))
      {
        var d :| d in todo;
        todo := todo - {d};
        levels := levels[d.0 := levels[d.0].(deleted := levels[d.0].deleted + {d.1})];
      }
    }

    method AddFiles(edit: Edit)
      requires |levels| == |base|
      requires forall a :: a in edit.added ==> a.0 < |base|
      modifies this`levels
      ensures |levels| == |base|
      ensures forall l :: 0 <= l < |base| ==> levels[l] == AddAll(old(levels)[l], Adds(edit.added, l))
    {
      for i := 0 to |edit.added|
        invariant |levels| == |base|
        invariant forall l :: 0 <= l < |base| ==> levels[l] == AddAll(old(levels)[l], Adds(edit.added[..i], l))
      {
        var (level, f) := edit.added[i];
        forall l | 0 <= l < |base|
          ensures AddAll(old(levels)[l], Adds(edit.added[..i + 1], l))
               == if level == l then AddOne(levels[l], f) else levels[l]
        {
          AddsStep(old(levels)[l], edit.added, i, l);
        }
        levels := levels[level := AddOne(levels[level], f)];
      }
      assert edit.added[..|edit.added|] == edit.added;
    }

    method SaveTo() returns (v: Version)
      requires |levels| == |base|
      ensures |v| == |base|
      ensures forall l :: 0 <= l < |base| ==> v[l] == SavedLevel(base[l], levels[l])
    {
      v := [];
      for level := 0 to |base|
        invariant |v| == level
        invariant forall l :: 0 <= l < level ==> v[l] == SavedLevel(base[l], levels[l])
      {
        var files := SaveLevel(base[level], levels[level]);
        v := v + [files];
      }
    }
  }

  /** The merge loop of SaveTo for one level. */
  method SaveLevel(base: seq<File>, st: LevelState) returns (files: seq<File>)
    ensures files == SavedLevel(base, st)
  {
    files := [];
    var b := 0;
    for i := 0 to |st.added|
      invariant b <= |base| && files + Rest(base, b, st, i) == SavedLevel(base, st)
    {
      files, b := CopyBaseFiles(base, b, st, i, files);
      TakeAdded(base, b, st, i, files);
      files := files + Kept(st.added[i], st.deleted);
    }
    files, b := CopyBaseFiles(base, b, st, |st.added|, files);
  }

  lemma TakeBase(base: seq<File>, b: nat, st: LevelState, i: nat, files: seq<File>)
    requires b < |base| && i <= |st.added| && (i == |st.added| || !FileBefore(st.added[i], base[b]))
    ensures files + Rest(base, b, st, i) == (files + Kept(base[b], st.deleted)) + Rest(base, b + 1, st, i)
  {
    var kept, rest := Kept(base[b], st.deleted), Rest(base, b + 1, st, i);
    assert files + (kept + rest) == (files + kept) + rest;
  }

  lemma TakeAdded(base: seq<File>, b: nat, st: LevelState, i: nat, files: seq<File>)
    requires b <= |base| && i < |st.added| && (b == |base| || FileBefore(st.added[i], base[b]))
    ensures files + Rest(base, b, st, i) == (files + Kept(st.added[i], st.deleted)) + Rest(base, b, st, i + 1)
  {
    var kept, rest := Kept(st.added[i], st.deleted), Rest(base, b, st, i + 1);
    assert files + (kept + rest) == (files + kept) + rest;
  }

  /** Appends the kept base files up to the upper bound of added file `i`, or all of them at the end. */
  method CopyBaseFiles(base: seq<File>, b0: nat, st: LevelState, i: nat, files0: seq<File>)
    returns (files: seq<File>, b: nat)
    requires b0 <= |base| && i <= |st.added|
    ensures b0 <= b <= |base| && files + Rest(base, b, st, i) == files0 + Rest(base, b0, st, i)
    ensures b == |base| || (i < |st.added| && FileBefore(st.added[i], base[b]))
  {
    files, b := files0, b0;
    while b < |base| && (i == |st.added| || !FileBefore(st.added[i], base[b]))
      invariant b0 <= b <= |base| && files + Rest(base, b, st, i) == files0 + Rest(base, b0, st, i)
    {
      TakeBase(base, b, st, i, files);
      files := files + Kept(base[b], st.deleted);
      b := b + 1;
    }
  }

  // ----- what a saved level holds

  lemma {:induction false} RestHolds(base: seq<File>, b: nat, st: LevelState, i: nat, f: File)
    requires b <= |base| && i <= |st.added|
    ensures f in Rest(base, b, st, i) <==> (f in base[b..] || f in st.added[i..]) && f.number !in st.deleted
    decreases |base| - b + |st.added| - i
  {
    if b < |base| && (i == |st.added| || !FileBefore(st.added[i], base[b])) {
      assert base[b..] == [base[b]] + base[b + 1..];
      RestHolds(base, b + 1, st, i, f);
    } else if i < |st.added| {
      assert st.added[i..] == [st.added[i]] + st.added[i + 1..];
      RestHolds(base, b, st, i + 1, f);
    }
  }

  lemma SavedLevelHolds(base: seq<File>, st: LevelState, f: File)
    ensures f in SavedLevel(base, st) <==> (f in base || f in st.added) && f.number !in st.deleted
  {
    RestHolds(base, 0, st, 0, f);
  }

  /** No number that is not deleted is both in the base and added. */
  ghost predicate Apart(base: seq<File>, st: LevelState) {
    forall f, g :: f in base && g in st.added && f.number == g.number ==> f.number in st.deleted
  }

  lemma FilesComparable(f: File, g: File)
    ensures FileBefore(f, g) || FileBefore(g, f) || (f.smallest == g.smallest && f.number == g.number)
  {
    OrderIsTotal(f.smallest, g.smallest);
  }

  ghost predicate AllAfter(f: File, fs: seq<File>) {
    forall g :: g in fs ==> FileBefore(f, g)
  }

  lemma FirstIsLeast(fs: seq<File>)
    requires fs != [] && BySmallest(fs)
    ensures AllAfter(fs[0], fs[1..]) && BySmallest(fs[1..])
  {
  }

  lemma PrependLeast(f: File, fs: seq<File>)
    requires BySmallest(fs) && AllAfter(f, fs)
    ensures BySmallest([f] + fs)
  {
  }

  /** The file taken next comes before everything merged later. */
  lemma NextIsLeast(base: seq<File>, b: nat, st: LevelState, i: nat, f: File)
    requires BySmallest(base) && BySmallest(st.added) && b <= |base| && i <= |st.added|
    requires b < |base| ==> FileBefore(f, base[b])
    requires i < |st.added| ==> FileBefore(f, st.added[i])
    ensures AllAfter(f, Rest(base, b, st, i))
  {
    forall g | g in Rest(base, b, st, i)
      ensures FileBefore(f, g)
    {
      RestHolds(base, b, st, i, g);
      if g in base[b..] {
        var k :| b <= k < |base| && base[k] == g;
        assert k == b || FileBefore(base[b], base[k]);
      } else {
        var k :| i <= k < |st.added| && st.added[k] == g;
        assert k == i || FileBefore(st.added[i], st.added[k]);
      }
    }
  }

  /** The merged level is ordered unless it holds a file twice. */
  lemma {:induction false} RestIsSorted(base: seq<File>, b: nat, st: LevelState, i: nat)
    requires BySmallest(base) && BySmallest(st.added) && Apart(base, st) && b <= |base| && i <= |st.added|
    ensures BySmallest(Rest(base, b, st, i))
    decreases |base| - b + |st.added| - i
  {
    if b < |base| && (i == |st.added| || !FileBefore(st.added[i], base[b])) {
      RestIsSorted(base, b + 1, st, i);
      if base[b].number !in st.deleted {
        if i < |st.added| {
          assert base[b] in base && st.added[i] in st.added;
          FilesComparable(base[b], st.added[i]);
        }
        NextIsLeast(base, b + 1, st, i, base[b]);
        PrependLeast(base[b], Rest(base, b + 1, st, i));
      }
    } else if i < |st.added| {
      RestIsSorted(base, b, st, i + 1);
      NextIsLeast(base, b, st, i + 1, st.added[i]);
      PrependLeast(st.added[i], Rest(base, b, st, i + 1));
    }
  }

  lemma MemberOfNonempty(fs: seq<File>)
    ensures fs == [] || exists f :: f in fs
  {
    if fs != [] {
      assert fs[0] in fs;
    }
  }

  lemma LeastOfAll(fs: seq<File>, f: File)
    requires BySmallest(fs) && f in fs && f != fs[0]
    ensures FileBefore(fs[0], f)
  {
  }

  /** Sorted sequences of the same files are the same sequence. */
  lemma {:induction false} SortedIsUnique(a: seq<File>, b: seq<File>)
    requires BySmallest(a) && BySmallest(b) && forall f :: f in a <==> f in b
    ensures a == b
  {
    if a == [] {
      MemberOfNonempty(b);
    } else {
      MemberOfNonempty(a);
      var f, g := a[0], b[0];
      FirstIsLeast(a);
      FirstIsLeast(b);
      if f != g {
        LeastOfAll(a, g);
        LeastOfAll(b, f);
      }
      forall f
        ensures f in a[1..] <==> f in b[1..]
      {
        assert f in a <==> f == a[0] || f in a[1..];
        assert f in b <==> f == b[0] || f in b[1..];
      }
      SortedIsUnique(a[1..], b[1..]);
    }
  }

  // ----- what a level state holds

  /** The ordered set does not tell these two apart. */
  predicate Alike(f: File, g: File) {
    f.smallest == g.smallest && f.number == g.number
  }

  lemma {:induction false} InsertFileHolds(fs: seq<File>, f: File, g: File)
    requires BySmallest(fs)
    ensures g in InsertFile(fs, f) <==> g in fs || (g == f && forall h :: h in fs ==> !Alike(h, f))
  {
    if fs != [] {
      FilesComparable(f, fs[0]);
      FirstIsLeast(fs);
      assert forall h :: h in fs <==> h == fs[0] || h in fs[1..];
      if FileBefore(f, fs[0]) {
        assert forall h :: h in fs ==> FileBefore(f, h);
        assert g in [f] + fs <==> g == f || g in fs;
      } else if FileBefore(fs[0], f) {
        InsertFileHolds(fs[1..], f, g);
      } else {
        assert Alike(fs[0], f) && fs[0] in fs;
      }
    }
  }

  lemma {:induction false} InsertFileIsSorted(fs: seq<File>, f: File)
    requires BySmallest(fs)
    ensures BySmallest(InsertFile(fs, f))
  {
    if fs == [] {
    } else if FileBefore(f, fs[0]) {
      FirstIsLeast(fs);
      forall g | g in fs
        ensures FileBefore(f, g)
      {
        assert g == fs[0] || g in fs[1..];
      }
      PrependLeast(f, fs);
    } else if FileBefore(fs[0], f) {
      FirstIsLeast(fs);
      InsertFileIsSorted(fs[1..], f);
      forall g | g in InsertFile(fs[1..], f)
        ensures FileBefore(fs[0], g)
      {
        InsertFileHolds(fs[1..], f, g);
      }
      PrependLeast(fs[0], InsertFile(fs[1..], f));
    }
  }

  function Numbers(fs: seq<File>): set<nat> {
    set f | f in fs :: f.number
  }

  /** Numbers in `fs` are pairwise distinct and new to `old'`. */
  ghost predicate NewNumbers(old': seq<File>, fs: seq<File>) {
    && (forall i, j :: 0 <= i < j < |fs| ==> fs[i].number != fs[j].number)
    && forall f, g :: f in old' && g in fs ==> f.number != g.number
  }

  /** Adding files with new numbers: all of them are in, none of them is deleted. */
  lemma {:induction false} AddAllHolds(st: LevelState, fs: seq<File>, g: File)
    requires BySmallest(st.added) && NewNumbers(st.added, fs)
    ensures BySmallest(AddAll(st, fs).added)
    ensures g in AddAll(st, fs).added <==> g in st.added || g in fs
    ensures AddAll(st, fs).deleted == st.deleted - Numbers(fs)
  {
    if fs != [] {
      var init, last := fs[..|fs| - 1], fs[|fs| - 1];
      var before := AddAll(st, init);
      AddAllHolds(st, init, g);
      forall h | h in before.added
        ensures h.number != last.number
      {
        AddAllHolds(st, init, h);
        if h in init {
          var i :| 0 <= i < |init| && init[i] == h;
          assert fs[i] == h;
        }
      }
      InsertFileHolds(before.added, last, g);
      InsertFileIsSorted(before.added, last);
      assert forall h :: h in fs <==> h in init || h == last;
      assert Numbers(fs) == Numbers(init) + {last.number};
    }
  }

  lemma SavedIsSorted(base: seq<File>, st: LevelState)
    requires BySmallest(base) && BySmallest(st.added) && Apart(base, st)
    ensures BySmallest(SavedLevel(base, st))
  {
    RestIsSorted(base, 0, st, 0);
  }
}
