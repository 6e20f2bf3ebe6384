/** Recovering the version from the MANIFEST (`db/version_set.cc`): one builder fed with
    all edits, against a version installed after each edit, and exactly when both agree. */
module Recovery {
  import opened Keys
  import opened Versions
  import opened VersionBuilder

  /** A version after each edit in turn, as the running database installs them. */
  function InstallEach(v: Version, edits: seq<Edit>): (r: Version)
    ensures |r| == |v|
  {
    if edits == [] then v else ApplyEdit(InstallEach(v, edits[..|edits| - 1]), edits[|edits| - 1])
  }

  /** One builder fed with every edit, as recovery does. */
  function FoldLevel(edits: seq<Edit>, level: nat): LevelState {
    if edits == [] then LevelState({}, [])
    else ApplyToLevel(FoldLevel(edits[..|edits| - 1], level), edits[|edits| - 1], level)
  }

  function BuildOnce(v: Version, edits: seq<Edit>): (r: Version)
    ensures |r| == |v|
  {
    seq(|v|, l requires 0 <= l < |v| => SavedLevel(v[l], FoldLevel(edits, l)))
  }

  /** All files the edits add to a level, in order. */
  function AllAdds(edits: seq<Edit>, level: nat): seq<File> {
    if edits == [] then []
    else AllAdds(edits[..|edits| - 1], level) + Adds(edits[|edits| - 1].added, level)
  }

  /** Each edit only adds numbers that the level does not hold when it is installed. */
  ghost predicate AddsUnheld(v: Version, edits: seq<Edit>, level: nat)
    requires level < |v|
  {
    forall i :: 0 <= i < |edits| ==> NewNumbers(InstallEach(v, edits[..i])[level], Adds(edits[i].added, level))
  }

  // ----- the first and the last file added under a number

  function FirstAdded(fs: seq<File>, n: nat): Option<File> {
    if fs == [] then None
    else
      var earlier := FirstAdded(fs[..|fs| - 1], n);
      if earlier.Some? || fs[|fs| - 1].number != n then earlier else Some(fs[|fs| - 1])
  }

  function LastAdded(fs: seq<File>, n: nat): Option<File> {
    if fs == [] then None
    else if fs[|fs| - 1].number == n then Some(fs[|fs| - 1])
    else LastAdded(fs[..|fs| - 1], n)
  }

  /** The first of the files that the builder does not tell apart. */
  ghost predicate FirstAlike(fs: seq<File>, f: File) {
    fs != [] && (FirstAlike(fs[..|fs| - 1], f)
                 || (f == fs[|fs| - 1] && forall h :: h in fs[..|fs| - 1] ==> !Alike(h, f)))
  }

  lemma InitAndLast(fs: seq<File>, f: File)
    requires fs != []
    ensures f in fs <==> f in fs[..|fs| - 1] || f == fs[|fs| - 1]
  {
    assert fs == fs[..|fs| - 1] + [fs[|fs| - 1]];
  }

  lemma {:induction false} FirstAlikeIsIn(fs: seq<File>, f: File)
    requires FirstAlike(fs, f)
    ensures f in fs
  {
    InitAndLast(fs, f);
    if FirstAlike(fs[..|fs| - 1], f) {
      FirstAlikeIsIn(fs[..|fs| - 1], f);
    }
  }

  /** Every file has a first one like it. */
  lemma {:induction false} HasFirstAlike(fs: seq<File>, f: File) returns (g: File)
    requires f in fs
    ensures FirstAlike(fs, g) && Alike(g, f)
  {
    var init := fs[..|fs| - 1];
    InitAndLast(fs, f);
    if h :| h in init && Alike(h, f) {
      g := HasFirstAlike(init, h);
    } else {
      g := f;
    }
  }

  lemma {:induction false} LastAddedIs(fs: seq<File>, n: nat)
    ensures LastAdded(fs, n) == None <==> n !in Numbers(fs)
    ensures LastAdded(fs, n).Some? ==> LastAdded(fs, n).value in fs && LastAdded(fs, n).value.number == n
  {
    if fs != [] {
      LastAddedIs(fs[..|fs| - 1], n);
      assert forall f :: f in fs <==> f in fs[..|fs| - 1] || f == fs[|fs| - 1] by {
        assert fs == fs[..|fs| - 1] + [fs[|fs| - 1]];
      }
    }
  }

  lemma {:induction false} FirstAddedIs(fs: seq<File>, n: nat)
    ensures FirstAdded(fs, n) == None <==> n !in Numbers(fs)
    ensures FirstAdded(fs, n).Some? ==> FirstAlike(fs, FirstAdded(fs, n).value) && FirstAdded(fs, n).value.number == n
  {
    if fs != [] {
      FirstAddedIs(fs[..|fs| - 1], n);
      assert forall f :: f in fs <==> f in fs[..|fs| - 1] || f == fs[|fs| - 1] by {
        assert fs == fs[..|fs| - 1] + [fs[|fs| - 1]];
      }
    }
  }

  /** Later files come last. */
  lemma {:induction false} LastAddedOf(a: seq<File>, b: seq<File>, n: nat)
    ensures LastAdded(a + b, n) == if LastAdded(b, n).Some? then LastAdded(b, n) else LastAdded(a, n)
  {
    if b == [] {
      assert a + b == a;
    } else {
      var init := b[..|b| - 1];
      LastAddedOf(a, init, n);
      assert (a + b)[..|a + b| - 1] == a + init && (a + b)[|a + b| - 1] == b[|b| - 1];
    }
  }

  /** Among files with different numbers each is the last of its own. */
  lemma LastOfDistinct(fs: seq<File>, f: File)
    requires forall i, j :: 0 <= i < j < |fs| ==> fs[i].number != fs[j].number
    ensures f in fs <==> LastAdded(fs, f.number) == Some(f)
  {
    LastAddedIs(fs, f.number);
    if f in fs {
      assert f.number in Numbers(fs);
    }
  }

  // ----- what the shared builder holds

  /** Of files it cannot tell apart the builder holds the first. */
  ghost predicate HoldsFirsts(added: seq<File>, all: seq<File>) {
    BySmallest(added) && forall f :: f in added <==> FirstAlike(all, f)
  }

  lemma OneMoreHolds(added: seq<File>, all: seq<File>, f: File)
    requires HoldsFirsts(added, all)
    ensures HoldsFirsts(InsertFile(added, f), all + [f])
  {
    hide Alike, FileBefore;
    assert (all + [f])[..|all + [f]| - 1] == all;
    InsertFileIsSorted(added, f);
    forall h | h in added
      ensures h in all
    {
      FirstAlikeIsIn(all, h);
    }
    if h :| h in all && Alike(h, f) {
      var first := HasFirstAlike(all, h);
      AlikeToo(first, h, f);
    }
    forall g
      ensures g in InsertFile(added, f) <==> FirstAlike(all + [f], g)
    {
      InsertFileHolds(added, f, g);
    }
  }

  lemma AlikeToo(a: File, b: File, c: File)
    requires Alike(a, b) && Alike(b, c)
    ensures Alike(a, c)
  {
  }

  lemma {:induction false} AllHold(st: LevelState, all: seq<File>, fs: seq<File>)
    requires HoldsFirsts(st.added, all)
    ensures HoldsFirsts(AddAll(st, fs).added, all + fs)
    ensures AddAll(st, fs).deleted == st.deleted - Numbers(fs)
  {
    hide HoldsFirsts;
    if fs == [] {
      assert all + fs == all;
    } else {
      var init, last := fs[..|fs| - 1], fs[|fs| - 1];
      AllHold(st, all, init);
      OneMoreHolds(AddAll(st, init).added, all + init, last);
      assert all + fs == all + init + [last];
      assert forall h :: h in fs <==> h in init || h == last by {
        assert fs == init + [last];
      }
      assert Numbers(fs) == Numbers(init) + {last.number};
    }
  }

  lemma {:induction false} FoldHolds(edits: seq<Edit>, level: nat)
    ensures HoldsFirsts(FoldLevel(edits, level).added, AllAdds(edits, level))
  {
    if edits != [] {
      hide HoldsFirsts;
      var init, last := edits[..|edits| - 1], edits[|edits| - 1];
      FoldHolds(init, level);
      var st := FoldLevel(init, level);
      AllHold(st.(deleted := st.deleted + Deletes(last, level)), AllAdds(init, level), Adds(last.added, level));
    }
  }

  lemma FoldDeletes(edits: seq<Edit>, level: nat)
    requires edits != []
    ensures var init, last := edits[..|edits| - 1], edits[|edits| - 1];
            FoldLevel(edits, level).deleted
            == FoldLevel(init, level).deleted + Deletes(last, level) - Numbers(Adds(last.added, level))
  {
    hide HoldsFirsts;
    var init, last := edits[..|edits| - 1], edits[|edits| - 1];
    FoldHolds(init, level);
    var st := FoldLevel(init, level);
    AllHold(st.(deleted := st.deleted + Deletes(last, level)), AllAdds(init, level), Adds(last.added, level));
  }

  // ----- what the running database holds

  /** Of the numbers that are not deleted, the last file added under each, and the base
      files of numbers never added. */
  ghost predicate HoldsLasts(files: seq<File>, base: seq<File>, all: seq<File>, deleted: set<nat>) {
    && BySmallest(files)
    && forall f :: f in files <==>
         f.number !in deleted && (match LastAdded(all, f.number) case None => f in base case Some(g) => f == g)
  }

  lemma {:induction false} RunningHolds(v: Version, edits: seq<Edit>, level: nat)
    requires level < |v| && BySmallest(v[level]) && AddsUnheld(v, edits, level)
    ensures HoldsLasts(InstallEach(v, edits)[level], v[level], AllAdds(edits, level), FoldLevel(edits, level).deleted)
  {
    if edits != [] {
      var init, last := edits[..|edits| - 1], edits[|edits| - 1];
      forall i | 0 <= i < |init|
        ensures NewNumbers(InstallEach(v, init[..i])[level], Adds(init[i].added, level))
      {
        assert init[..i] == edits[..i] && init[i] == edits[i];
      }
      RunningHolds(v, init, level);
      var here := InstallEach(v, init)[level];
      assert NewNumbers(here, Adds(last.added, level)) by {
        assert init == edits[..|edits| - 1];
      }
      FoldDeletes(edits, level);
      assert InstallEach(v, edits)[level] == SavedLevel(here, ApplyToLevel(LevelState({}, []), last, level));
      OneEditHolds(here, v[level], AllAdds(init, level), FoldLevel(init, level).deleted, last, level);
    }
  }

  lemma OneEditHolds(here: seq<File>, base: seq<File>, all: seq<File>, deleted: set<nat>, edit: Edit, level: nat)
    requires HoldsLasts(here, base, all, deleted) && NewNumbers(here, Adds(edit.added, level))
    ensures var adds := Adds(edit.added, level);
            HoldsLasts(SavedLevel(here, ApplyToLevel(LevelState({}, []), edit, level)), base, all + adds,
                       deleted + Deletes(edit, level) - Numbers(adds))
  {
    var adds, dels := Adds(edit.added, level), Deletes(edit, level);
    var st := ApplyToLevel(LevelState({}, []), edit, level);
    assert st == AddAll(LevelState(dels, []), adds) by {
      assert {} + dels == dels;
    }
    NewFilesAre(st, dels, adds);
    SavedIsSorted(here, st);
    forall f
      ensures f in SavedLevel(here, st) <==>
                f.number !in deleted + dels - Numbers(adds)
                && (match LastAdded(all + adds, f.number) case None => f in base case Some(g) => f == g)
    {
      SavedLevelHolds(here, st, f);
      LastAddedOf(all, adds, f.number);
      LastOfDistinct(adds, f);
      LastAddedIs(adds, f.number);
    }
  }

  lemma NewFilesAre(st: LevelState, dels: set<nat>, adds: seq<File>)
    requires st == AddAll(LevelState(dels, []), adds) && NewNumbers([], adds)
    ensures BySmallest(st.added) && (forall f :: f in st.added <==> f in adds) && st.deleted == dels - Numbers(adds)
  {
    var any: File :| true;
    AddAllHolds(LevelState(dels, []), adds, any);
    forall f
      ensures f in st.added <==> f in adds
    {
      AddAllHolds(LevelState(dels, []), adds, f);
    }
  }

  // ----- exactly when both agree

  /** The number is not in the base, and all files ever added under it begin with the
      same key, the first of them being the last. */
  ghost predicate Steady(base: seq<File>, all: seq<File>, n: nat) {
    && (forall h :: h in base ==> h.number != n)
    && (forall f, g :: f in all && g in all && f.number == n && g.number == n ==> f.smallest == g.smallest)
    && FirstAdded(all, n) == LastAdded(all, n)
  }

  /** Every number added to the level, and still there, is steady. */
  ghost predicate AllSteady(base: seq<File>, all: seq<File>, deleted: set<nat>) {
    forall n :: n in Numbers(all) && n !in deleted ==> Steady(base, all, n)
  }

  lemma SteadyHoldsOne(base: seq<File>, all: seq<File>, f: File)
    requires Steady(base, all, f.number)
    ensures FirstAlike(all, f) <==> FirstAdded(all, f.number) == Some(f)
  {
    FirstAddedIs(all, f.number);
    if FirstAlike(all, f) {
      FirstAlikeIsIn(all, f);
      assert f.number in Numbers(all);
      var first := FirstAdded(all, f.number).value;
      FirstAlikeIsIn(all, first);
      OneFirstAlike(all, f, first);
    }
  }

  lemma {:induction false} OneFirstAlike(all: seq<File>, f: File, g: File)
    requires FirstAlike(all, f) && FirstAlike(all, g) && Alike(f, g)
    ensures f == g
  {
    var init := all[..|all| - 1];
    if FirstAlike(init, f) {
      FirstAlikeIsIn(init, f);
    }
    if FirstAlike(init, g) {
      FirstAlikeIsIn(init, g);
    }
    assert Alike(g, f);
    if FirstAlike(init, f) && FirstAlike(init, g) {
      OneFirstAlike(init, f, g);
    }
  }

  /** Steady numbers leave both with the same files. */
  lemma SteadyAgrees(base: seq<File>, all: seq<File>, st: LevelState, files: seq<File>)
    requires BySmallest(base) && HoldsFirsts(st.added, all) && HoldsLasts(files, base, all, st.deleted)
    requires AllSteady(base, all, st.deleted)
    ensures SavedLevel(base, st) == files
  {
    hide Alike, FileBefore, FirstAlike;
    forall f, g | f in base && g in st.added && f.number == g.number
      ensures f.number in st.deleted
    {
      FirstAlikeIsIn(all, g);
      assert g.number in Numbers(all);
    }
    SavedIsSorted(base, st);
    forall f
      ensures f in SavedLevel(base, st) <==> f in files
    {
      SavedLevelHolds(base, st, f);
      LastAddedIs(all, f.number);
      if f.number !in st.deleted {
        if f.number in Numbers(all) {
          SteadyHoldsOne(base, all, f);
        } else if FirstAlike(all, f) {
          FirstAlikeIsIn(all, f);
        }
      }
    }
    SortedIsUnique(SavedLevel(base, st), files);
  }

  /** A file kept from the base and from what was added is there twice. */
  lemma {:induction false} KeptTwice(base: seq<File>, b: nat, st: LevelState, i: nat, f: File)
    requires b <= |base| && i <= |st.added| && f in base[b..] && f in st.added[i..] && f.number !in st.deleted
    ensures !BySmallest(Rest(base, b, st, i))
    decreases |base| - b + |st.added| - i
  {
    var rest := Rest(base, b, st, i);
    if i == |st.added| || !FileBefore(st.added[i], base[b]) {
      if base[b] == f {
        RestHolds(base, b + 1, st, i, f);
        var k :| 0 <= k < |Rest(base, b + 1, st, i)| && Rest(base, b + 1, st, i)[k] == f;
        assert rest[0] == f && rest[k + 1] == f;
      } else {
        assert base[b..] == [base[b]] + base[b + 1..];
        KeptTwice(base, b + 1, st, i, f);
        TailUnsorted(Kept(base[b], st.deleted), Rest(base, b + 1, st, i));
      }
    } else {
      if st.added[i] == f {
        RestHolds(base, b, st, i + 1, f);
        var k :| 0 <= k < |Rest(base, b, st, i + 1)| && Rest(base, b, st, i + 1)[k] == f;
        assert rest[0] == f && rest[k + 1] == f;
      } else {
        assert st.added[i..] == [st.added[i]] + st.added[i + 1..];
        KeptTwice(base, b, st, i + 1, f);
        TailUnsorted(Kept(st.added[i], st.deleted), Rest(base, b, st, i + 1));
      }
    }
  }

  lemma TailUnsorted(a: seq<File>, b: seq<File>)
    requires !BySmallest(b)
    ensures !BySmallest(a + b)
  {
    var i, j :| 0 <= i < j < |b| && !FileBefore(b[i], b[j]);
    assert (a + b)[|a| + i] == b[i] && (a + b)[|a| + j] == b[j];
  }

  /** Where both agree, each number added and still there is steady. */
  lemma AgreesIsSteady(base: seq<File>, all: seq<File>, st: LevelState, files: seq<File>, n: nat)
    requires BySmallest(base) && HoldsFirsts(st.added, all) && HoldsLasts(files, base, all, st.deleted)
    requires SavedLevel(base, st) == files && n in Numbers(all) && n !in st.deleted
    ensures Steady(base, all, n)
  {
    hide FileBefore, FirstAlike, BySmallest;
    LastAddedIs(all, n);
    FirstAddedIs(all, n);
    var last, first := LastAdded(all, n).value, FirstAdded(all, n).value;
    forall f | FirstAlike(all, f) && f.number == n
      ensures f == last
    {
      SavedLevelHolds(base, st, f);
    }
    assert first == last;
    forall f | f in all && f.number == n
      ensures f.smallest == last.smallest
    {
      var g := HasFirstAlike(all, f);
    }
    forall h | h in base
      ensures h.number != n
    {
      if h.number == n {
        SavedLevelHolds(base, st, h);
        assert h == last && base[0..] == base && st.added[0..] == st.added;
        KeptTwice(base, 0, st, 0, h);
      }
    }
  }

  /** One builder fed with all edits saves what a new version after each edit gives, if
      and only if every number added to a level, and still there, is steady. */
  lemma RecoverMatchesExactly(v: Version, edits: seq<Edit>)
    requires forall l :: 0 <= l < |v| ==> BySmallest(v[l]) && AddsUnheld(v, edits, l)
    ensures BuildOnce(v, edits) == InstallEach(v, edits)
       <==> forall l :: 0 <= l < |v| ==> AllSteady(v[l], AllAdds(edits, l), FoldLevel(edits, l).deleted)
  {
    hide AllSteady, BySmallest, AddsUnheld, HoldsFirsts, HoldsLasts;
    forall l | 0 <= l < |v|
      ensures BuildOnce(v, edits)[l] == InstallEach(v, edits)[l]
         <==> AllSteady(v[l], AllAdds(edits, l), FoldLevel(edits, l).deleted)
    {
      FoldHolds(edits, l);
      RunningHolds(v, edits, l);
      LevelMatches(v[l], AllAdds(edits, l), FoldLevel(edits, l), InstallEach(v, edits)[l]);
    }
  }

  lemma LevelMatches(base: seq<File>, all: seq<File>, st: LevelState, files: seq<File>)
    requires BySmallest(base) && HoldsFirsts(st.added, all) && HoldsLasts(files, base, all, st.deleted)
    ensures SavedLevel(base, st) == files <==> AllSteady(base, all, st.deleted)
  {
    hide BySmallest, HoldsFirsts, HoldsLasts, Steady;
    if AllSteady(base, all, st.deleted) {
      SteadyAgrees(base, all, st, files);
    }
    if SavedLevel(base, st) == files {
      forall n | n in Numbers(all) && n !in st.deleted
        ensures Steady(base, all, n)
      {
        AgreesIsSteady(base, all, st, files, n);
      }
    }
  }

  // ----- numbers that are added once

  /** A file number is added to the level at most once, and not if the base has it. */
  ghost predicate AddedOnce(base: seq<File>, edits: seq<Edit>, level: nat) {
    NewNumbers(base, AllAdds(edits, level))
  }

  lemma NewNumbersSplit(old': seq<File>, a: seq<File>, b: seq<File>)
    requires NewNumbers(old', a + b)
    ensures NewNumbers(old', a) && NewNumbers(old', b) && NewNumbers(a, b)
  {
    var c := a + b;
    forall i, j | 0 <= i < j < |a|
      ensures a[i].number != a[j].number
    {
      assert c[i] == a[i] && c[j] == a[j];
    }
    forall i, j | 0 <= i < j < |b|
      ensures b[i].number != b[j].number
    {
      assert c[|a| + i] == b[i] && c[|a| + j] == b[j];
    }
    forall i, j | 0 <= i < |a| && 0 <= j < |b|
      ensures a[i].number != b[j].number
    {
      assert c[i] == a[i] && c[|a| + j] == b[j];
    }
  }

  /** Numbers that are new to the base and to all files added are not held. */
  lemma NewBesideLasts(files: seq<File>, base: seq<File>, all: seq<File>, deleted: set<nat>, adds: seq<File>)
    requires HoldsLasts(files, base, all, deleted) && NewNumbers(base, adds) && NewNumbers(all, adds)
    ensures NewNumbers(files, adds)
  {
    hide BySmallest;
    forall f | f in files
      ensures f in base || f in all
    {
      LastAddedIs(all, f.number);
    }
  }

  lemma UnheldGrows(v: Version, edits: seq<Edit>, level: nat)
    requires level < |v| && edits != []
    requires var init, last := edits[..|edits| - 1], edits[|edits| - 1];
             AddsUnheld(v, init, level) && NewNumbers(InstallEach(v, init)[level], Adds(last.added, level))
    ensures AddsUnheld(v, edits, level)
  {
    hide NewNumbers, InstallEach;
    var init := edits[..|edits| - 1];
    forall i | 0 <= i < |edits|
      ensures NewNumbers(InstallEach(v, edits[..i])[level], Adds(edits[i].added, level))
    {
      if i < |init| {
        assert init[..i] == edits[..i] && init[i] == edits[i];
      }
    }
  }

  lemma {:induction false} OnceIsUnheld(v: Version, edits: seq<Edit>, level: nat)
    requires level < |v| && BySmallest(v[level]) && AddedOnce(v[level], edits, level)
    ensures AddsUnheld(v, edits, level)
  {
    hide BySmallest, HoldsFirsts, HoldsLasts, NewNumbers;
    if edits == [] {
    } else {
      var init, last := edits[..|edits| - 1], edits[|edits| - 1];
      var all, adds := AllAdds(init, level), Adds(last.added, level);
      NewNumbersSplit(v[level], all, adds);
      OnceIsUnheld(v, init, level);
      RunningHolds(v, init, level);
      NewBesideLasts(InstallEach(v, init)[level], v[level], all, FoldLevel(init, level).deleted, adds);
      hide AddsUnheld;
      UnheldGrows(v, edits, level);
    }
  }

  lemma OnceIsSteady(base: seq<File>, all: seq<File>, n: nat)
    requires NewNumbers(base, all) && n in Numbers(all)
    ensures Steady(base, all, n)
  {
    LastAddedIs(all, n);
    FirstAddedIs(all, n);
    FirstAlikeIsIn(all, FirstAdded(all, n).value);
    forall f, g | f in all && g in all && f.number == n && g.number == n
      ensures f == g
    {
      LastOfDistinct(all, f);
      LastOfDistinct(all, g);
    }
  }

  /** Recovery rebuilds exactly the version the running database had when no number is
      added to a level twice. */
  lemma RecoverMatchesRunning(v: Version, edits: seq<Edit>)
    requires forall l :: 0 <= l < |v| ==> BySmallest(v[l]) && AddedOnce(v[l], edits, l)
    ensures BuildOnce(v, edits) == InstallEach(v, edits)
  {
    hide AddsUnheld, BySmallest, Steady, NewNumbers;
    forall l | 0 <= l < |v|
      ensures AddsUnheld(v, edits, l) && AllSteady(v[l], AllAdds(edits, l), FoldLevel(edits, l).deleted)
    {
      OnceIsUnheld(v, edits, l);
      forall n | n in Numbers(AllAdds(edits, l))
        ensures Steady(v[l], AllAdds(edits, l), n)
      {
        OnceIsSteady(v[l], AllAdds(edits, l), n);
      }
    }
    RecoverMatchesExactly(v, edits);
  }

  // ----- a number that is used again

  /** A file is added, deleted, and a file with its number is added. */
  function Reuse(f: File, g: File): seq<Edit> {
    [Edit({}, [(0, f)]), Edit({(0, f.number)}, []), Edit({}, [(0, g)])]
  }

  lemma OneAdd(level: nat, f: File)
    ensures Adds([(level, f)], level) == [f]
  {
    assert [(level, f)][..0] == [];
  }

  lemma {:induction false} SavedFromEmpty(st: LevelState, i: nat)
    requires st.deleted == {} && i <= |st.added|
    ensures Rest([], 0, st, i) == st.added[i..]
    decreases |st.added| - i
  {
    if i < |st.added| {
      SavedFromEmpty(st, i + 1);
    }
  }

  lemma AddOnlyOne(st: LevelState, f: File, level: nat)
    ensures ApplyToLevel(st, Edit({}, [(level, f)]), level) == LevelState(st.deleted - {f.number}, InsertFile(st.added, f))
  {
    OneAdd(level, f);
    assert [f][..0] == [];
    var e := Edit({}, [(level, f)]);
    assert st.deleted + Deletes(e, level) == st.deleted;
    assert AddAll(st, [f]) == AddOne(AddAll(st, []), f);
  }

  lemma DeleteOnlyOne(st: LevelState, number: nat, level: nat)
    ensures ApplyToLevel(st, Edit({(level, number)}, []), level) == LevelState(st.deleted + {number}, st.added)
  {
    var e := Edit({(level, number)}, []);
    assert (level, number) in e.deleted;
    assert Deletes(e, level) == {number};
  }

  lemma ApplyToOne(files: seq<File>, edit: Edit)
    ensures ApplyEdit([files], edit) == [SavedLevel(files, ApplyToLevel(LevelState({}, []), edit, 0))]
  {
    assert ApplyEdit([files], edit)[0] == SavedLevel([files][0], ApplyToLevel(LevelState({}, []), edit, 0));
  }

  lemma OneMoreEdit(edits: seq<Edit>, last: Edit, level: nat)
    ensures FoldLevel(edits + [last], level) == ApplyToLevel(FoldLevel(edits, level), last, level)
    ensures AllAdds(edits + [last], level) == AllAdds(edits, level) + Adds(last.added, level)
  {
    assert (edits + [last])[..|edits + [last]| - 1] == edits;
  }

  lemma ReusePrefixes(f: File, g: File)
    ensures var e := Reuse(f, g); e[..0] == [] && e[..1] == [e[0]] && e[..1][..0] == [] && e[..2] == [e[0], e[1]] && e[..2][..1] == [e[0]]
  {
  }

  /** What the running database has before each of the edits. */
  lemma ReuseInstalls(f: File, g: File)
    ensures InstallEach([[]], Reuse(f, g)[..1]) == [[f]] && InstallEach([[]], Reuse(f, g)[..2]) == [[]]
  {
    var none, e := LevelState({}, []), Reuse(f, g);
    ReusePrefixes(f, g);
    AddOnlyOne(none, f, 0);
    DeleteOnlyOne(none, f.number, 0);
    ApplyToOne([], e[0]);
    SavedFromEmpty(LevelState({} - {f.number}, [f]), 0);
    assert ApplyEdit([[]], e[0]) == [[f]];
    ApplyToOne([f], e[1]);
    var st := LevelState({} + {f.number}, []);
    assert Rest([f], 0, st, 0) == Kept(f, st.deleted) + Rest([f], 1, st, 0);
  }

  /** What the shared builder has seen after them. */
  lemma ReuseFolds(f: File, g: File)
    requires f.number == g.number
    ensures AllAdds(Reuse(f, g), 0) == [f, g] && FoldLevel(Reuse(f, g), 0).deleted == {}
  {
    hide ApplyToLevel, Adds, InsertFile;
    var e := Reuse(f, g);
    OneAdd(0, f);
    OneAdd(0, g);
    NoAdd(0);
    OneMoreEdit([], e[0], 0);
    OneMoreEdit([] + [e[0]], e[1], 0);
    OneMoreEdit([] + [e[0]] + [e[1]], e[2], 0);
    assert e == [] + [e[0]] + [e[1]] + [e[2]];
    AddOnlyOne(FoldLevel([], 0), f, 0);
    DeleteOnlyOne(FoldLevel([] + [e[0]], 0), f.number, 0);
    AddOnlyOne(FoldLevel([] + [e[0]] + [e[1]], 0), g, 0);
  }

  lemma NoAdd(level: nat)
    ensures Adds([], level) == []
  {
  }

  /** A number that is deleted and used again: recovery agrees with what was installed if
      and only if the same file comes back. */
  lemma ReusedNumberDiffers(f: File, g: File)
    requires f.number == g.number
    ensures BuildOnce([[]], Reuse(f, g)) == InstallEach([[]], Reuse(f, g)) <==> f == g
  {
    var v, e := [[]], Reuse(f, g);
    ReuseInstalls(f, g);
    ReuseFolds(f, g);
    forall i | 0 <= i < 3
      ensures NewNumbers(InstallEach(v, e[..i])[0], Adds(e[i].added, 0))
    {
      OneAdd(0, f);
      OneAdd(0, g);
      assert e[..0] == [];
    }
    RecoverMatchesExactly(v, e);
    ReuseIsSteady(f, g);
  }

  lemma ReuseIsSteady(f: File, g: File)
    requires f.number == g.number
    ensures AllSteady([], [f, g], {}) <==> f == g
  {
    var all := [f, g];
    assert all[..|all| - 1] == [f] && [f][..|[f]| - 1] == [];
    assert FirstAdded([], f.number) == None && FirstAdded([f], f.number) == Some(f);
    assert FirstAdded(all, f.number) == Some(f) && LastAdded(all, f.number) == Some(g);
    assert f in all && f.number in Numbers(all);
  }
}
