/** Installing a compaction or a move: the new version keeps the invariants of
    the old one, and when it keeps the reads (`db/db_impl.cc`). */
module CompactionStep {
  import opened Keys
  import opened Versions
  import opened VersionBuilder

  /** `v'` is `v` with the inputs taken out and the outputs put into the next level. */
  ghost predicate Replaced(v: Version, v': Version, level: nat, in0: seq<File>, in1: seq<File>, outs: seq<File>)
    requires level + 1 < |v|
  {
    && |v'| == |v|
    && (forall l :: 0 <= l < |v| && l != level && l != level + 1 ==> v'[l] == v[l])
    && (forall f :: f in v'[level] <==> f in v[level] && f !in in0)
    && (forall f :: f in v'[level + 1] <==> (f in v[level + 1] && f !in in1) || f in outs)
    && BySmallest(v'[level]) && BySmallest(v'[level + 1])
  }

  /** The inputs are files of their levels. */
  ghost predicate FromLevels(v: Version, level: nat, in0: seq<File>, in1: seq<File>)
    requires level + 1 < |v|
  {
    (forall f :: f in in0 ==> f in v[level]) && (forall f :: f in in1 ==> f in v[level + 1])
  }

  /** An output's number is new, or belongs to an input that leaves its level. */
  ghost predicate NumbersFree(v: Version, level: nat, in0: seq<File>, outs: seq<File>) {
    && (forall i, j :: 0 <= i < j < |outs| ==> outs[i].number != outs[j].number)
    && forall o, l, g :: o in outs && 0 <= l < |v| && g in v[l] && o.number == g.number ==> l == level && g in in0 && o == g
  }

  function InputDeletions(level: nat, in0: seq<File>, in1: seq<File>): set<(nat, nat)> {
    (set f | f in in0 :: (level, f.number)) + (set f | f in in1 :: (level + 1, f.number))
  }

  function Additions(level: nat, outs: seq<File>): seq<(nat, File)> {
    if outs == [] then [] else Additions(level, outs[..|outs| - 1]) + [(level, outs[|outs| - 1])]
  }

  /** AddInputDeletions and AddFile fill the edit that LogAndApply installs. */
  method InstallCompactionResults(v: Version, level: nat, in0: seq<File>, in1: seq<File>, outs: seq<File>)
    returns (v': Version)
    requires Inv(v) && level + 1 < NUM_LEVELS && FromLevels(v, level, in0, in1) && NumbersFree(v, level, in0, outs)
    ensures Replaced(v, v', level, in0, in1, outs)
  {
    var deleted: set<(nat, nat)> := {};
    for i := 0 to |in0|
      invariant deleted == set f | f in in0[..i] :: (level, f.number)
    {
      assert in0[..i + 1] == in0[..i] + [in0[i]];
      deleted := deleted + {(level, in0[i].number)};
    }
    assert in0[..|in0|] == in0;
    ghost var first := deleted;
    for i := 0 to |in1|
      invariant deleted == first + set f | f in in1[..i] :: (level + 1, f.number)
    {
      assert in1[..i + 1] == in1[..i] + [in1[i]];
      deleted := deleted + {(level + 1, in1[i].number)};
    }
    assert in1[..|in1|] == in1;
    var added: seq<(nat, File)> := [];
    for i := 0 to |outs|
      invariant added == Additions(level + 1, outs[..i])
      invariant forall a :: a in added ==> a.0 == level + 1
    {
      assert outs[..i + 1][..i] == outs[..i];
      added := added + [(level + 1, outs[i])];
    }
    assert outs[..|outs|] == outs;
    v' := LogAndApply(v, Edit(deleted, added));
    EditReplaces(v, level, in0, in1, outs);
  }

  /** The part of LogAndApply that makes the new version. */
  method LogAndApply(v: Version, edit: Edit) returns (v': Version)
    requires forall d :: d in edit.deleted ==> d.0 < |v|
    requires forall a :: a in edit.added ==> a.0 < |v|
    ensures v' == ApplyEdit(v, edit)
  {
    var builder := new Builder(v);
    builder.Apply(edit);
    v' := builder.SaveTo();
  }

  lemma {:induction false} AddsOfAdditions(level: nat, outs: seq<File>, l: nat)
    ensures Adds(Additions(level, outs), l) == if l == level then outs else []
  {
    if outs != [] {
      AddsOfAdditions(level, outs[..|outs| - 1], l);
      var init := Additions(level, outs[..|outs| - 1]);
      assert Additions(level, outs)[..|init|] == init;
      assert outs == outs[..|outs| - 1] + [outs[|outs| - 1]];
    }
  }

  lemma {:induction false} NothingToSave(fs: seq<File>, b: nat)
    requires b <= |fs|
    ensures Rest(fs, b, LevelState({}, []), 0) == fs[b..]
    decreases |fs| - b
  {
    if b < |fs| {
      NothingToSave(fs, b + 1);
    }
  }

  lemma EditAtLevel(v: Version, level: nat, in0: seq<File>, in1: seq<File>, outs: seq<File>, l: nat)
    requires l < |v|
    ensures var edit := Edit(InputDeletions(level, in0, in1), Additions(level + 1, outs));
            ApplyEdit(v, edit)[l] == SavedLevel(v[l], AddAll(LevelState(Deletes(edit, l), []), if l == level + 1 then outs else []))
    ensures var edit := Edit(InputDeletions(level, in0, in1), Additions(level + 1, outs));
            forall n :: n in Deletes(edit, l) <==> (l == level && n in Numbers(in0)) || (l == level + 1 && n in Numbers(in1))
  {
    var edit := Edit(InputDeletions(level, in0, in1), Additions(level + 1, outs));
    AddsOfAdditions(level + 1, outs, l);
    assert LevelState({}, []).(deleted := {} + Deletes(edit, l)) == LevelState(Deletes(edit, l), []);
    forall n
      ensures n in Deletes(edit, l) <==> (l == level && n in Numbers(in0)) || (l == level + 1 && n in Numbers(in1))
    {
      assert n in Deletes(edit, l) <==> (l, n) in edit.deleted;
    }
  }

  lemma EditReplaces(v: Version, level: nat, in0: seq<File>, in1: seq<File>, outs: seq<File>)
    requires Inv(v) && level + 1 < NUM_LEVELS && FromLevels(v, level, in0, in1) && NumbersFree(v, level, in0, outs)
    ensures Replaced(v, ApplyEdit(v, Edit(InputDeletions(level, in0, in1), Additions(level + 1, outs))), level, in0, in1, outs)
  {
    forall l | 0 <= l < |v| && l != level && l != level + 1 {
      OtherLevel(v, level, in0, in1, outs, l);
    }
    InputLevel(v, level, in0, in1, outs);
    OutputLevel(v, level, in0, in1, outs);
  }

  lemma OtherLevel(v: Version, level: nat, in0: seq<File>, in1: seq<File>, outs: seq<File>, l: nat)
    requires l < |v| && l != level && l != level + 1
    ensures ApplyEdit(v, Edit(InputDeletions(level, in0, in1), Additions(level + 1, outs)))[l] == v[l]
  {
    EditAtLevel(v, level, in0, in1, outs, l);
    assert Deletes(Edit(InputDeletions(level, in0, in1), Additions(level + 1, outs)), l) == {};
    NothingToSave(v[l], 0);
  }

  lemma InputLevel(v: Version, level: nat, in0: seq<File>, in1: seq<File>, outs: seq<File>)
    requires NumbersUnique(v) && level + 1 < |v| && BySmallest(v[level]) && FromLevels(v, level, in0, in1)
    ensures var fs := ApplyEdit(v, Edit(InputDeletions(level, in0, in1), Additions(level + 1, outs)))[level];
            BySmallest(fs) && forall f :: f in fs <==> f in v[level] && f !in in0
  {
    var edit := Edit(InputDeletions(level, in0, in1), Additions(level + 1, outs));
    EditAtLevel(v, level, in0, in1, outs, level);
    var st := LevelState(Deletes(edit, level), []);
    SavedIsSorted(v[level], st);
    forall f
      ensures f in SavedLevel(v[level], st) <==> f in v[level] && f !in in0
    {
      SavedLevelHolds(v[level], st, f);
      NumberInSet(v, level, in0, f);
    }
  }

  /** Among the files of a level, deleting by number deletes exactly the inputs. */
  lemma NumberInSet(v: Version, level: nat, inputs: seq<File>, f: File)
    requires NumbersUnique(v) && level < |v| && forall g :: g in inputs ==> g in v[level]
    ensures f in v[level] ==> (f.number in Numbers(inputs) <==> f in inputs)
  {
  }

  lemma OutputLevel(v: Version, level: nat, in0: seq<File>, in1: seq<File>, outs: seq<File>)
    requires NumbersUnique(v) && level + 1 < |v| && BySmallest(v[level + 1]) && FromLevels(v, level, in0, in1)
    requires NumbersFree(v, level, in0, outs)
    ensures var fs := ApplyEdit(v, Edit(InputDeletions(level, in0, in1), Additions(level + 1, outs)))[level + 1];
            BySmallest(fs) && forall f :: f in fs <==> (f in v[level + 1] && f !in in1) || f in outs
  {
    EditAtLevel(v, level, in0, in1, outs, level + 1);
    var dels := Deletes(Edit(InputDeletions(level, in0, in1), Additions(level + 1, outs)), level + 1);
    assert dels == Numbers(in1);
    forall f, g | f in v[level + 1] && g in outs
      ensures f.number != g.number
    {
    }
    SavedWithNew(v[level + 1], in1, outs);
  }

  /** A level saved with its inputs deleted and files with new numbers added. */
  lemma SavedWithNew(base: seq<File>, inputs: seq<File>, outs: seq<File>)
    requires BySmallest(base) && (forall f, g :: f in base && g in base && f.number == g.number ==> f == g)
    requires (forall f :: f in inputs ==> f in base) && NewNumbers(base, outs)
    ensures var fs := SavedLevel(base, AddAll(LevelState(Numbers(inputs), []), outs));
            BySmallest(fs) && forall f :: f in fs <==> (f in base && f !in inputs) || f in outs
  {
    var st := AddAll(LevelState(Numbers(inputs), []), outs);
    var any: File :| true;
    AddAllHolds(LevelState(Numbers(inputs), []), outs, any);
    forall f
      ensures f in st.added <==> f in outs
    {
      AddAllHolds(LevelState(Numbers(inputs), []), outs, f);
    }
    forall f
      ensures f in SavedLevel(base, st) <==> (f in base && f !in inputs) || f in outs
    {
      SavedLevelHolds(base, st, f);
      assert f in outs ==> f.number in Numbers(outs);
    }
    SavedIsSorted(base, st);
  }
}
