/** The condition of LongCompaction is needed. A manual compaction of two files with a
    gap between them makes one output that spans the gap; a memtable flushed meanwhile
    goes into the gap, at the level of the output (`db/db_impl.cc`, `db/version_set.cc`). */
module FlushOverlap {
  import opened Keys
  import opened Versions
  import opened InputSelection
  import opened CompactionInputs
  import opened Compaction
  import opened LongCompaction
  import CompactionTheorem
  import Lsm

  const E1 := Entry(IKey(1.0, 1, Value), [1])
  const E9 := Entry(IKey(9.0, 2, Value), [9])
  const E5 := Entry(IKey(5.0, 3, Value), [5])

  const P := File(1, 0, E1.key, E1.key, [E1])
  const Q := File(2, 0, E9.key, E9.key, [E9])
  const F := File(4, 0, E5.key, E5.key, [E5])
  const OUT := File(5, 0, E1.key, E9.key, [E1, E9])

  const AT_FIRST: Version := [[], [P, Q], [], [], [], [], []]
  const FLUSHED: Version := [[], [P, Q], [F], [], [], [], []]
  const AT_LAST: Version := [[], [], [OUT, F], [], [], [], []]

  const START := Lsm.Db([E5], None, AT_FIRST, 3, 3, multiset{}, {E1, E9, E5})
  const SWITCHED := START.(mem := [], imm := Some([E5]), nextFile := 4)
  const GAP_FILLED := SWITCHED.(imm := None, version := FLUSHED, nextFile := 5)
  const NUMBERED := GAP_FILLED.(nextFile := 6)
  const INSTALLED := NUMBERED.(version := AT_LAST)

  const JOB := Job(AT_FIRST, 1, [P, Q], [], [E1, E9], 3, {}, {})
  const JOB_FLUSHED := JOB.(flushed := {Flushed(2, F)})
  const JOB_NUMBERED := JOB_FLUSHED.(numbers := {5})

  lemma FilesOf(f: File)
    ensures f in [P, Q] <==> f == P || f == Q
    ensures f in [OUT, F] <==> f == OUT || f == F
    ensures f in [F] <==> f == F
    ensures f in [OUT] <==> f == OUT
  {
  }

  lemma FirstHolds(l: nat, f: File)
    requires l < |AT_FIRST|
    ensures f in AT_FIRST[l] <==> l == 1 && (f == P || f == Q)
  {
    FilesOf(f);
  }

  lemma FilesAreWf()
    ensures WfFile(P) && WfFile(Q) && WfFile(F) && WfFile(OUT)
  {
    assert Sorted([E1, E9]);
  }

  // ----- the store before

  lemma FirstHasInv()
    ensures Inv(AT_FIRST)
  {
    FilesAreWf();
    FirstShape();
    FirstNumbers();
    FirstAges();
  }

  lemma FirstShape()
    ensures Shape(AT_FIRST) && LevelsBySmallest(AT_FIRST) && NumberedByAge(AT_FIRST[0])
  {
    FilesAreWf();
    forall l | 0 <= l < |AT_FIRST|
      ensures WfFiles(AT_FIRST[l]) && BySmallest(AT_FIRST[l]) && Disjoint(AT_FIRST[l])
    {
      forall f | f in AT_FIRST[l]
        ensures WfFile(f)
      {
        FirstHolds(l, f);
      }
    }
  }

  lemma FirstNumbers()
    ensures NumbersUnique(AT_FIRST) && Lsm.NumbersBelow(AT_FIRST, 3)
  {
    forall l, f | 0 <= l < |AT_FIRST| && f in AT_FIRST[l]
      ensures l == 1 && (f == P || f == Q)
    {
      FirstHolds(l, f);
    }
  }

  lemma FirstAges()
    ensures LevelsByAge(AT_FIRST)
  {
    forall l, m, x, y | 0 <= l < m < |AT_FIRST| && x in LevelElems(AT_FIRST[l]) && y in LevelElems(AT_FIRST[m])
      ensures false
    {
      var f :| f in AT_FIRST[l] && x in f.entries;
      var g :| g in AT_FIRST[m] && y in g.entries;
      FirstHolds(l, f);
      FirstHolds(m, g);
    }
  }

  lemma FirstElems()
    ensures VersionElems(AT_FIRST) == {E1, E9}
  {
    forall e
      ensures e in VersionElems(AT_FIRST) <==> e == E1 || e == E9
    {
      if e in VersionElems(AT_FIRST) {
        var l :| 0 <= l < |AT_FIRST| && e in LevelElems(AT_FIRST[l]);
        var f :| f in AT_FIRST[l] && e in f.entries;
        FirstHolds(l, f);
      }
      FilesOf(P);
      FilesOf(Q);
      assert E1 in P.entries && E9 in Q.entries && P in AT_FIRST[1] && Q in AT_FIRST[1];
      assert E1 in LevelElems(AT_FIRST[1]) && E9 in LevelElems(AT_FIRST[1]);
    }
  }

  lemma StartHasInv()
    ensures Lsm.DbInv(START)
  {
    FirstHasInv();
    FirstNumbers();
    FirstElems();
    hide Inv, VersionElems, Lsm.NumbersBelow;
    assert Elems([]) == {} && Elems([E5]) == {E5};
    assert Lsm.AllElems(START) == START.history;
    assert DistinctKeys(START.history);
    forall u, s: nat, r, h | IsNewest(Lsm.AllElems(START), u, s, r) && IsNewest(START.history, u, s, h)
      ensures Answer(r) == Answer(h)
    {
      NewestIsUnique(START.history, u, s, r, h);
    }
  }

  // ----- the steps

  /** A manual compaction of all of level 1 takes both files. */
  lemma BothSelected()
    ensures Selected(AT_FIRST, 1, [P, Q], []) && Meeting(AT_FIRST[1], Range(None, None)) == [P, Q]
  {
    assert AT_FIRST[1][0..2] == [P, Q];
    assert IsRun(AT_FIRST[1], [P, Q]);
    assert MeetingUpTo([P, Q], 1, Range(None, None)) == [P];
    assert MeetingUpTo([P, Q], 2, Range(None, None)) == [P, Q];
    FilesOf(P);
  }

  lemma BeginIsStep()
    ensures Next(State(START, None), State(START, Some(JOB)), Begin(1, [P, Q], [], [E1, E9], 3))
  {
    BothSelected();
    hide Selected;
    InputsHold();
    assert Sorted([E1, E9]);
  }

  lemma InputsHold()
    ensures CompactionTheorem.Inputs([P, Q], []) == {E1, E9} && Elems([E1, E9]) == {E1, E9} && LevelElems([OUT]) == {E1, E9}
  {
    forall e
      ensures e in LevelElems([P, Q]) <==> e == E1 || e == E9
      ensures e in LevelElems([OUT]) <==> e == E1 || e == E9
    {
      FilesOf(P);
      FilesOf(Q);
      FilesOf(OUT);
      assert E1 in P.entries && E9 in Q.entries && E1 in OUT.entries && E9 in OUT.entries;
      if e in LevelElems([P, Q]) {
        var f :| f in [P, Q] && e in f.entries;
        FilesOf(f);
      }
      if e in LevelElems([OUT]) {
        var f :| f in [OUT] && e in f.entries;
        FilesOf(f);
      }
    }
    assert LevelElems([]) == {};
  }

  lemma SwitchIsStep()
    ensures Next(State(START, Some(JOB)), State(SWITCHED, Some(JOB)), Other(Lsm.Switch))
  {
  }

  /** Level 2 is where the flush goes: nothing there or above meets it. */
  lemma FlushIsStep()
    ensures Next(State(SWITCHED, Some(JOB)), State(GAP_FILLED, Some(JOB_FLUSHED)), Other(Lsm.Flush(2, F)))
  {
    FilesAreWf();
    forall l, g | 0 <= l <= 2 && g in AT_FIRST[l]
      ensures !Meets(g, RangeOf(F))
    {
      FirstHolds(l, g);
    }
    assert Lsm.FlushLevelOk(AT_FIRST, 2, F);
    FilesOf(F);
    forall g
      ensures g in FLUSHED[2] <==> g in AT_FIRST[2] || g == F
    {
      FilesOf(g);
    }
    assert Lsm.Joined(AT_FIRST, FLUSHED, 2, F);
    assert {} + {Flushed(2, F)} == {Flushed(2, F)};
  }

  lemma OutputIsStep()
    ensures Next(State(GAP_FILLED, Some(JOB_FLUSHED)), State(NUMBERED, Some(JOB_NUMBERED)), NewOutput)
  {
    assert {} + {5} == {5};
  }

  lemma AllAreKept()
    ensures Kept(AT_FIRST, 1, [E1, E9], 3, 2) == [E1, E9]
  {
    assert Kept(AT_FIRST, 1, [E1, E9], 3, 1) == Kept(AT_FIRST, 1, [E1, E9], 3, 0) + [E1];
    assert !Dropped(AT_FIRST, 1, [E1, E9], 3, 1);
  }

  lemma InstallIsStep()
    ensures InstallStep(State(NUMBERED, Some(JOB_NUMBERED)), State(INSTALLED, None), [OUT])
  {
    FilesAreWf();
    AllAreKept();
    InputsHold();
    forall f {:trigger f in AT_LAST[1]} {:trigger f in AT_LAST[2]}
      ensures f in AT_LAST[1] <==> f in FLUSHED[1] && f !in [P, Q]
      ensures f in AT_LAST[2] <==> (f in FLUSHED[2] && f !in []) || f in [OUT]
    {
      FilesOf(f);
    }
    assert BySmallest(AT_LAST[1]) && BySmallest(AT_LAST[2]);
    forall o | o in [OUT]
      ensures WfFile(o) && o.number in JOB_NUMBERED.numbers
    {
      FilesOf(o);
    }
  }

  lemma OutputMeetsFlushed()
    ensures !Apart(JOB_NUMBERED, [OUT])
  {
    assert OUT in [OUT] && Meets(OUT, RangeOf(F));
    assert !NoneMeets([OUT], RangeOf(F));
    assert Flushed(2, F) in JOB_NUMBERED.flushed;
  }

  /** Every step is one the engine takes, and the version installed in the end has two
      files of level 2 that overlap. */
  lemma GapIsFilled()
    ensures StateInv(State(START, None))
    ensures Next(State(START, None), State(START, Some(JOB)), Begin(1, [P, Q], [], [E1, E9], 3))
    ensures Next(State(START, Some(JOB)), State(SWITCHED, Some(JOB)), Other(Lsm.Switch))
    ensures Next(State(SWITCHED, Some(JOB)), State(GAP_FILLED, Some(JOB_FLUSHED)), Other(Lsm.Flush(2, F)))
    ensures Next(State(GAP_FILLED, Some(JOB_FLUSHED)), State(NUMBERED, Some(JOB_NUMBERED)), NewOutput)
    ensures InstallStep(State(NUMBERED, Some(JOB_NUMBERED)), State(INSTALLED, None), [OUT])
    ensures !StateInv(State(INSTALLED, None)) && !Inv(INSTALLED.version)
  {
    StartHasInv();
    BeginIsStep();
    SwitchIsStep();
    FlushIsStep();
    OutputIsStep();
    InstallIsStep();
    OutputMeetsFlushed();
    hide *;
    var s0, s1, s2 := State(START, None), State(START, Some(JOB)), State(SWITCHED, Some(JOB));
    var s3, s4, s5 := State(GAP_FILLED, Some(JOB_FLUSHED)), State(NUMBERED, Some(JOB_NUMBERED)), State(INSTALLED, None);
    StateOf(s0);
    NextKeepsInv(s0, s1, Begin(1, [P, Q], [], [E1, E9], 3));
    NextKeepsInv(s1, s2, Other(Lsm.Switch));
    NextKeepsInv(s2, s3, Other(Lsm.Flush(2, F)));
    NextKeepsInv(s3, s4, NewOutput);
    InstallKeepsInv(s4, s5, [OUT]);
    InstallKeepsLevels(s4, s5, [OUT]);
  }

  /** A lookup past level 0 goes to the first file that ends at or after the key. That is
      the output, which has nothing of user key 5; the flushed file is not looked at. */
  lemma FlushedKeyIsMissed()
    ensures E5 in VersionElems(INSTALLED.version) && IsNewest(INSTALLED.history, 5.0, 3, Some(E5))
    ensures INSTALLED.version[2][0] == OUT && forall e :: e in OUT.entries ==> e.key.user != 5.0
    ensures forall f :: f in INSTALLED.version[2] ==> !Before(f.largest, SeekKey(5.0, 3))
  {
    FilesOf(F);
    assert E5 in F.entries && F in AT_LAST[2];
    assert E5 in LevelElems(AT_LAST[2]);
    forall f | f in AT_LAST[2]
      ensures !Before(f.largest, SeekKey(5.0, 3))
    {
      FilesOf(f);
    }
  }
}
