/** The hazard of CompactionTheorem is real: the engine's own input selection
    allows it. A user key that ends one input file and starts the next file of
    the output level loses its deletion and gets its old value back, because
    SetupOtherInputs adds boundary files to the first input level only
    (`db/version_set.cc`). */
module Resurrection {
  import opened Keys
  import opened Versions
  import opened CompactionInputs
  import opened CompactionTheorem
  import opened Compaction

  const E1 := Entry(IKey(1.0, 30, Value), [1])
  const E2 := Entry(IKey(1.0, 5, Value), [2])
  const TOMBSTONE := Entry(IKey(2.0, 20, Deletion), [])
  const OLD_VALUE := Entry(IKey(2.0, 10, Value), [7])

  const F := File(1, 0, E1.key, E1.key, [E1])
  const G := File(2, 0, E2.key, TOMBSTONE.key, [E2, TOMBSTONE])
  const H := File(3, 0, OLD_VALUE.key, OLD_VALUE.key, [OLD_VALUE])
  const OUT := File(4, 0, E1.key, E1.key, [E1])

  const BEFORE: Version := [[], [F], [G, H], [], [], [], []]
  const AFTER: Version := [[], [], [OUT, H], [], [], [], []]

  lemma FilesOf(f: File)
    ensures f in [F] <==> f == F
    ensures f in [G, H] <==> f == G || f == H
    ensures f in [OUT, H] <==> f == OUT || f == H
  {
  }

  lemma BeforeHolds(l: nat, f: File)
    requires l < |BEFORE|
    ensures f in BEFORE[l] <==> (l == 1 && f == F) || (l == 2 && (f == G || f == H))
  {
    FilesOf(f);
  }

  lemma BeforeHasInv()
    ensures Inv(BEFORE)
  {
    BeforeShape();
    BeforeSorted();
    BeforeNumbers();
    BeforeAges();
  }

  lemma BeforeSorted()
    ensures LevelsBySmallest(BEFORE) && NumberedByAge(BEFORE[0])
  {
    forall l | 0 <= l < |BEFORE|
      ensures BySmallest(BEFORE[l])
    {
    }
  }

  lemma BeforeShape()
    ensures Shape(BEFORE)
  {
    forall l | 0 <= l < |BEFORE|
      ensures WfFiles(BEFORE[l])
    {
      forall f | f in BEFORE[l]
        ensures WfFile(f)
      {
        BeforeHolds(l, f);
      }
    }
    forall l | 1 <= l < |BEFORE|
      ensures Disjoint(BEFORE[l])
    {
    }
  }

  lemma BeforeNumbers()
    ensures NumbersUnique(BEFORE)
  {
    forall l, m, f, g | 0 <= l < |BEFORE| && 0 <= m < |BEFORE| && f in BEFORE[l] && g in BEFORE[m] && f.number == g.number
      ensures l == m && f == g
    {
      BeforeHolds(l, f);
      BeforeHolds(m, g);
    }
  }

  lemma BeforeAges()
    ensures LevelsByAge(BEFORE)
  {
    forall l, m, x, y | 0 <= l < m < |BEFORE| && x in LevelElems(BEFORE[l]) && y in LevelElems(BEFORE[m]) && x.key.user == y.key.user
      ensures Tag(x.key) > Tag(y.key)
    {
      var f :| f in BEFORE[l] && x in f.entries;
      var g :| g in BEFORE[m] && y in g.entries;
      BeforeHolds(l, f);
      BeforeHolds(m, g);
    }
  }

  lemma InputsSelected()
    ensures Selected(BEFORE, 1, [F], [G])
  {
    assert BEFORE[1][0..1] == [F];
    assert IsRun(BEFORE[1], [F]);
    assert F in [F];
    forall f
      ensures f in [G] <==> f in BEFORE[2] && MeetsRangeOf(f, [F])
    {
      BeforeHolds(2, f);
      if f == G {
        assert MeetsRangeOf(G, [F]);
      }
    }
  }

  lemma RunInstalls()
    ensures CompactionRun(BEFORE, AFTER, 1, [F], [G], [OUT], [E1, E2, TOMBSTONE], 30)
  {
    InputsSelected();
    var input := [E1, E2, TOMBSTONE];
    OnlyFirstKept();
    OneFile(OUT);
    OneFile(F);
    OneFile(G);
    forall f {:trigger f in AFTER[1]} {:trigger f in AFTER[2]}
      ensures f in AFTER[1] <==> f in BEFORE[1] && f !in [F]
      ensures f in AFTER[2] <==> (f in BEFORE[2] && f !in [G]) || f in [OUT]
    {
      FilesOf(f);
    }
    forall o, l, g | o in [OUT] && 0 <= l < |BEFORE| && g in BEFORE[l]
      ensures o.number != g.number
    {
      BeforeHolds(l, g);
    }
  }

  lemma OnlyFirstKept()
    ensures Kept(BEFORE, 1, [E1, E2, TOMBSTONE], 30, 3) == [E1]
  {
    var input := [E1, E2, TOMBSTONE];
    assert Hidden(input, 30, 1);
    NothingDeeper();
    assert !Dropped(BEFORE, 1, input, 30, 0);
    assert Kept(BEFORE, 1, input, 30, 1) == Kept(BEFORE, 1, input, 30, 0) + [E1];
    assert Kept(BEFORE, 1, input, 30, 2) == [E1];
  }

  lemma OneFile(f: File)
    ensures LevelElems([f]) == Elems(f.entries)
  {
    assert f in [f];
  }

  lemma NothingDeeper()
    ensures IsBase(BEFORE, 1, 2.0)
  {
    forall l, f | 3 <= l < |BEFORE| && f in BEFORE[l]
      ensures false
    {
      BeforeHolds(l, f);
    }
  }

  /** The deletion of user key 2 at sequence number 20 is dropped while its value
      at 10 stays: the read at 30 finds nothing before and the value after. */
  lemma DeletedKeyComesBack()
    ensures Inv(BEFORE) && CompactionRun(BEFORE, AFTER, 1, [F], [G], [OUT], [E1, E2, TOMBSTONE], 30)
    ensures forall r, r' :: IsNewest(VersionElems(BEFORE), 2.0, 30, r) && IsNewest(VersionElems(AFTER), 2.0, 30, r')
                            ==> Answer(r) != Answer(r')
  {
    BeforeHasInv();
    RunInstalls();
    HazardMet();
    forall r, r' | IsNewest(VersionElems(BEFORE), 2.0, 30, r) && IsNewest(VersionElems(AFTER), 2.0, 30, r')
      ensures Answer(r) != Answer(r')
    {
      ReadsKeptExactly(BEFORE, AFTER, 1, [F], [G], [OUT], [E1, E2, TOMBSTONE], 30, 2.0, 30, r, r');
    }
  }

  lemma HazardMet()
    ensures Resurrects(BEFORE, 1, [F], [G], 30, 2.0, 30)
  {
    NothingDeeper();
    OneFile(F);
    OneFile(G);
    assert Inputs([F], [G]) == {E1, E2, TOMBSTONE};
    assert IsNewest(Inputs([F], [G]), 2.0, 30, Some(TOMBSTONE));
    assert H in BEFORE[2] && H !in [G];
    forall e
      ensures e in Beside(BEFORE, 1, [G]) <==> e == OLD_VALUE
    {
      if e in Beside(BEFORE, 1, [G]) {
        var f :| f in BEFORE[2] && f !in [G] && e in f.entries;
        BeforeHolds(2, f);
        assert f == H;
      }
      if e == OLD_VALUE {
        assert e in H.entries;
      }
    }
    assert IsNewest(Beside(BEFORE, 1, [G]), 2.0, 30, Some(OLD_VALUE));
    assert Above(BEFORE, 1, [F]) == {};
  }
}
