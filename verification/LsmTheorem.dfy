/** In every reachable state of the store, a read at the last sequence number or
    at a live snapshot answers what the history of writes answers. */
module LsmTheorem {
  import opened Keys
  import opened Versions
  import opened InputSelection
  import opened CompactionInputs
  import opened CompactionStep
  import opened CompactionTheorem
  import opened Lsm

  // ----- sets on top of each other

  /** Later entries on top of earlier ones: keys stay distinct. */
  lemma DistinctUnion(a: set<Entry>, b: set<Entry>)
    requires DistinctKeys(a) && DistinctKeys(b) && Newer(a, b)
    ensures DistinctKeys(a + b)
  {
  }

  lemma SortedKeysDistinct(es: seq<Entry>)
    requires Sorted(es)
    ensures DistinctKeys(Elems(es))
  {
    forall a, b | a in es && b in es && a.key == b.key
      ensures a == b
    {
      var i :| 0 <= i < |es| && es[i] == a;
      var j :| 0 <= j < |es| && es[j] == b;
    }
  }

  lemma AllKeysDistinct(d: Db)
    requires Layered(d)
    ensures DistinctKeys(Recent(d)) && DistinctKeys(AllElems(d))
  {
    SortedKeysDistinct(d.mem);
    SortedKeysDistinct(ImmOf(d));
    DistinctUnion(Elems(d.mem), Elems(ImmOf(d)));
    VersionKeysDistinct(d.version);
    DistinctUnion(Recent(d), VersionElems(d.version));
  }

  /** Entries stamped after `last` are newer than entries stamped up to it. */
  lemma LaterStampsAreNewer(a: set<Entry>, b: set<Entry>, last: nat)
    requires (forall e :: e in a ==> e.key.seqno > last) && StampedBy(b, last)
    ensures Newer(a, b)
  {
  }

  /** Reads at `s` up to `last` do not see later entries; reads from `last` on see all of `b`. */
  lemma LaterStampsUnseen(a: set<Entry>, b: set<Entry>, last: nat, u: UserKey, s: nat, r: Option<Entry>)
    requires (forall e :: e in a ==> e.key.seqno > last) && s <= last && IsNewest(a + b, u, s, r)
    ensures IsNewest(b, u, s, r)
  {
  }

  lemma AllSeenFrom(b: set<Entry>, last: nat, u: UserKey, s: nat, r: Option<Entry>)
    requires StampedBy(b, last) && last <= s
    ensures IsNewest(b, u, s, r) <==> IsNewest(b, u, last, r)
  {
  }

  /** Adding the same newer entries to both sides keeps their answers equal. */
  lemma SameOnTop(x: set<Entry>, a: set<Entry>, h: set<Entry>, last: nat, u: UserKey, s: nat, r: Option<Entry>, rh: Option<Entry>)
    requires (forall e :: e in x ==> e.key.seqno > last) && StampedBy(a, last) && StampedBy(h, last)
    requires DistinctKeys(x) && DistinctKeys(a) && DistinctKeys(h)
    requires IsNewest(x + a, u, s, r) && IsNewest(x + h, u, s, rh) && last <= s
    requires forall ra, rb :: IsNewest(a, u, last, ra) && IsNewest(h, u, last, rb) ==> Answer(ra) == Answer(rb)
    ensures Answer(r) == Answer(rh)
  {
    var top := NewestExists(x, u, s);
    var ra := NewestExists(a, u, s);
    var rb := NewestExists(h, u, s);
    OnTopAnswers(x, a, last, u, s, top, ra, r);
    OnTopAnswers(x, h, last, u, s, top, rb, rh);
    AllSeenFrom(a, last, u, s, ra);
    AllSeenFrom(h, last, u, s, rb);
  }

  lemma OnTopAnswers(x: set<Entry>, a: set<Entry>, last: nat, u: UserKey, s: nat, top: Option<Entry>, ra: Option<Entry>, r: Option<Entry>)
    requires (forall e :: e in x ==> e.key.seqno > last) && StampedBy(a, last) && DistinctKeys(x) && DistinctKeys(a)
    requires IsNewest(x, u, s, top) && IsNewest(a, u, s, ra) && IsNewest(x + a, u, s, r)
    ensures r == FirstOf(top, ra)
  {
    LaterStampsAreNewer(x, a, last);
    DistinctUnion(x, a);
    NewestOfUnion(x, a, u, s, top, ra);
    NewestIsUnique(x + a, u, s, r, FirstOf(top, ra));
  }

  // ----- writes

  lemma StampedFacts(ops: seq<Op>, last: nat)
    ensures DistinctKeys(Elems(Stamped(ops, last)))
    ensures forall e :: e in Elems(Stamped(ops, last)) ==> last < e.key.seqno <= last + |ops|
  {
    var es := Stamped(ops, last);
    forall a, b | a in es && b in es && a.key == b.key
      ensures a == b
    {
      var i :| 0 <= i < |es| && es[i] == a;
      var j :| 0 <= j < |es| && es[j] == b;
      assert a.key.seqno == last + 1 + i && b.key.seqno == last + 1 + j;
    }
    forall e | e in es
      ensures last < e.key.seqno <= last + |ops|
    {
      var i :| 0 <= i < |es| && es[i] == e;
    }
  }

  lemma WriteLayers(d: Db, d': Db, ops: seq<Op>)
    requires DbInv(d) && WriteStep(d, d', ops)
    ensures Layered(d') && AllElems(d') == Elems(Stamped(ops, d.lastSequence)) + AllElems(d)
  {
    var added := Elems(Stamped(ops, d.lastSequence));
    StampedFacts(ops, d.lastSequence);
    LaterStampsAreNewer(added, AllElems(d), d.lastSequence);
    assert ImmOf(d') == ImmOf(d) && d'.version == d.version;
    NewerTop(added, Elems(d.mem), Elems(ImmOf(d)), VersionElems(d.version));
    assert Recent(d') == added + Elems(d.mem) + Elems(ImmOf(d));
  }

  lemma NewerTop(x: set<Entry>, a: set<Entry>, b: set<Entry>, c: set<Entry>)
    requires Newer(x, a + b + c) && Newer(a, b) && Newer(a + b, c)
    ensures Newer(x + a, b) && Newer(a + x, b) && Newer(x + a + b, c)
  {
  }

  lemma WriteKeepsInv(d: Db, d': Db, ops: seq<Op>)
    requires DbInv(d) && WriteStep(d, d', ops)
    ensures DbInv(d')
  {
    var added := Elems(Stamped(ops, d.lastSequence));
    StampedFacts(ops, d.lastSequence);
    WriteLayers(d, d', ops);
    AllKeysDistinct(d);
    assert d'.history == added + d.history;
    LaterStampsAreNewer(added, d.history, d.lastSequence);
    DistinctUnion(added, d.history);
    forall u, s: nat, r, h | Live(d', s) && IsNewest(AllElems(d'), u, s, r) && IsNewest(d'.history, u, s, h)
      ensures Answer(r) == Answer(h)
    {
      if s <= d.lastSequence && s in d.snapshots {
        LaterStampsUnseen(added, AllElems(d), d.lastSequence, u, s, r);
        LaterStampsUnseen(added, d.history, d.lastSequence, u, s, h);
        assert Live(d, s);
      } else {
        assert Live(d, d.lastSequence);
        SameOnTop(added, AllElems(d), d.history, d.lastSequence, u, s, r, h);
      }
    }
  }

  // ----- steps that move entries around

  /** A step that keeps the stored entries, the history and the live reads keeps Agrees. */
  lemma SameElemsAgree(d: Db, d': Db)
    requires Agrees(d) && AllElems(d') == AllElems(d) && d'.history == d.history
    requires forall s :: Live(d', s) ==> Live(d, s)
    ensures Agrees(d')
  {
  }

  lemma SwitchKeepsInv(d: Db, d': Db)
    requires DbInv(d) && SwitchStep(d, d')
    ensures DbInv(d')
  {
    assert Elems([]) == {};
    assert Recent(d') == Recent(d);
    SameElemsAgree(d, d');
  }

  lemma JoinedKeepsInv(v: Version, v': Version, level: nat, f: File)
    requires Inv(v) && FlushLevelOk(v, level, f) && Joined(v, v', level, f) && WfFile(f)
    requires NumbersBelow(v, f.number) && Newer(Elems(f.entries), VersionElems(v))
    ensures Inv(v')
  {
    JoinedShape(v, v', level, f);
    JoinedNumbers(v, v', level, f);
    JoinedLevel0(v, v', level, f);
    JoinedAge(v, v', level, f);
  }

  lemma JoinedShape(v: Version, v': Version, level: nat, f: File)
    requires Shape(v) && LevelsBySmallest(v) && FlushLevelOk(v, level, f) && Joined(v, v', level, f) && WfFile(f)
    ensures Shape(v') && LevelsBySmallest(v')
  {
    assert WfFiles(v'[level]);
    if level >= 1 {
      forall a, b | a in v'[level] && b in v'[level] && a != b
        ensures Before(a.largest, b.smallest) || Before(b.largest, a.smallest)
      {
        assert NoneMeets(v[level], Range(Some(f.smallest.user), Some(f.largest.user)));
        if a != f && b != f {
          DisjointFilesApart(v[level], a, b);
        }
      }
      SortedApartIsDisjoint(v'[level]);
    }
  }

  lemma JoinedNumbers(v: Version, v': Version, level: nat, f: File)
    requires NumbersUnique(v) && level < |v| && Joined(v, v', level, f) && NumbersBelow(v, f.number)
    ensures NumbersUnique(v')
  {
    forall l, m, a, b | 0 <= l < |v'| && 0 <= m < |v'| && a in v'[l] && b in v'[m] && a.number == b.number
      ensures l == m && a == b
    {
      assert (l == level && a == f) || a in v[l];
      assert (m == level && b == f) || b in v[m];
    }
  }

  lemma JoinedLevel0(v: Version, v': Version, level: nat, f: File)
    requires level < |v| && NumberedByAge(v[0]) && NumbersUnique(v) && Joined(v, v', level, f)
    requires NumbersBelow(v, f.number) && Newer(Elems(f.entries), VersionElems(v))
    ensures NumberedByAge(v'[0])
  {
    if level == 0 {
      forall i, j | 0 <= i < j < |v'[0]|
        ensures v'[0][i].number != v'[0][j].number
      {
        assert FileBefore(v'[0][i], v'[0][j]);
        assert v'[0][i] == f || v'[0][i] in v[0];
        assert v'[0][j] == f || v'[0][j] in v[0];
      }
      forall a, b | a in v'[0] && b in v'[0] && a.number > b.number
        ensures Newer(Elems(a.entries), Elems(b.entries))
      {
        if a == f {
          assert b in v[0];
          assert Elems(b.entries) <= VersionElems(v) by {
            assert forall e :: e in b.entries ==> e in LevelElems(v[0]);
          }
        }
      }
    }
  }

  lemma JoinedAge(v: Version, v': Version, level: nat, f: File)
    requires Shape(v) && LevelsByAge(v) && FlushLevelOk(v, level, f) && Joined(v, v', level, f) && WfFile(f)
    requires Newer(Elems(f.entries), VersionElems(v))
    ensures LevelsByAge(v')
  {
    forall l, m | 0 <= l < m < |v'|
      ensures Newer(LevelElems(v'[l]), LevelElems(v'[m]))
    {
      assert Newer(LevelElems(v[l]), LevelElems(v[m]));
      if l == level {
        JoinedLevelElems(v[l], v'[l], f);
        LevelInVersion(v, m);
        NewerToo(LevelElems(v[l]), Elems(f.entries), LevelElems(v[m]), VersionElems(v));
      } else if m == level {
        JoinedLevelElems(v[m], v'[m], f);
        NothingMet(v[l], f);
        NewerBelow(LevelElems(v[l]), LevelElems(v[m]), Elems(f.entries));
      }
    }
  }

  lemma NewerToo(a: set<Entry>, x: set<Entry>, b: set<Entry>, all: set<Entry>)
    requires Newer(a, b) && Newer(x, all) && b <= all
    ensures Newer(a + x, b)
  {
  }

  lemma NewerBelow(a: set<Entry>, b: set<Entry>, x: set<Entry>)
    requires Newer(a, b) && Newer(a, x)
    ensures Newer(a, b + x)
  {
  }

  lemma JoinedLevelElems(fs: seq<File>, fs': seq<File>, f: File)
    requires forall g :: g in fs' <==> g in fs || g == f
    ensures LevelElems(fs') == LevelElems(fs) + Elems(f.entries)
  {
    assert f in fs';
  }

  lemma LevelInVersion(v: Version, l: nat)
    requires l < |v|
    ensures LevelElems(v[l]) <= VersionElems(v)
  {
  }

  /** A level that no file meets the flushed file in shares no user key with it. */
  lemma NothingMet(fs: seq<File>, f: File)
    requires WfFiles(fs) && WfFile(f) && NoneMeets(fs, Range(Some(f.smallest.user), Some(f.largest.user)))
    ensures Newer(LevelElems(fs), Elems(f.entries))
  {
    forall x: Entry, y: Entry | x in LevelElems(fs) && y in f.entries
      ensures x.key.user != y.key.user
    {
      var g :| g in fs && x in g.entries;
      InBounds(g, x);
      InBounds(f, y);
    }
  }

  lemma JoinedElems(v: Version, v': Version, level: nat, f: File)
    requires level < |v| && Joined(v, v', level, f)
    ensures VersionElems(v') == VersionElems(v) + Elems(f.entries)
  {
    JoinedLevelElems(v[level], v'[level], f);
    forall l | 0 <= l < |v|
      ensures LevelElems(v'[l]) == LevelElems(v[l]) + (if l == level then Elems(f.entries) else {})
    {
    }
  }

  lemma FlushKeepsInv(d: Db, d': Db, level: nat, f: File)
    requires DbInv(d) && FlushStep(d, d', level, f)
    ensures DbInv(d')
  {
    NoElems();
    if d.imm.value == [] {
      assert Recent(d') == Recent(d);
    } else {
      FlushKeepsLayers(d, d', level, f);
    }
    SameElemsAgree(d, d');
  }

  lemma FlushKeepsLayers(d: Db, d': Db, level: nat, f: File)
    requires Layered(d) && NumbersBelow(d.version, d.nextFile)
    requires FlushStep(d, d', level, f) && d.imm.value != []
    ensures Layered(d') && AllElems(d') == AllElems(d) && NumbersBelow(d'.version, d'.nextFile)
  {
    NewerOfUnion(Elems(d.mem), Elems(f.entries), VersionElems(d.version));
    FlushedFileJoins(d.version, d'.version, level, f);
    FlushedLayers(d, d');
  }

  lemma FlushedLayers(d: Db, d': Db)
    requires d'.mem == d.mem && d'.imm == None && Sorted(d.mem) && Inv(d'.version)
    requires VersionElems(d'.version) == VersionElems(d.version) + Elems(ImmOf(d))
    requires Newer(Elems(d.mem), VersionElems(d.version) + Elems(ImmOf(d)))
    ensures Layered(d') && AllElems(d') == AllElems(d)
  {
    NoElems();
    assert Recent(d') == Elems(d.mem);
  }

  lemma FlushedFileJoins(v: Version, v': Version, level: nat, f: File)
    requires Inv(v) && FlushLevelOk(v, level, f) && Joined(v, v', level, f) && WfFile(f)
    requires NumbersBelow(v, f.number) && Newer(Elems(f.entries), VersionElems(v))
    ensures Inv(v') && VersionElems(v') == VersionElems(v) + Elems(f.entries) && NumbersBelow(v', f.number + 1)
  {
    JoinedKeepsInv(v, v', level, f);
    JoinedElems(v, v', level, f);
    JoinedBelow(v, v', level, f);
  }

  lemma NoElems()
    ensures Elems([]) == {}
  {
  }

  lemma JoinedBelow(v: Version, v': Version, level: nat, f: File)
    requires level < |v| && Joined(v, v', level, f) && NumbersBelow(v, f.number)
    ensures NumbersBelow(v', f.number + 1)
  {
    forall l, g | 0 <= l < |v'| && g in v'[l]
      ensures g.number < f.number + 1
    {
      assert g in v[l] || g == f;
    }
  }

  lemma NewerOfUnion(a: set<Entry>, b: set<Entry>, c: set<Entry>)
    requires Newer(a, b) && Newer(a + b, c)
    ensures Newer(b, c) && Newer(a, c) && Newer(a, c + b)
  {
  }

  // ----- compactions and moves

  lemma SmallestSnapshotIsOldest(d: Db, snap: nat, s: nat)
    requires IsSmallestSnapshot(d, snap) && Live(d, s) && forall x :: x in d.snapshots ==> x <= d.lastSequence
    ensures snap <= s
  {
  }

  lemma OutputsFromVersion(v: Version, v': Version, level: nat, in0: seq<File>, in1: seq<File>, outs: seq<File>)
    requires level + 1 < |v| && Installed(v, v', level, in0, in1, outs)
    ensures VersionElems(v') <= VersionElems(v)
  {
    PartsOf(v, v', level, in0, in1, outs);
  }

  /** Two versions under the same memtables: equal answers below give equal answers in all. */
  lemma SameBelow(top: set<Entry>, a: set<Entry>, b: set<Entry>, u: UserKey, s: nat, r: Option<Entry>, r': Option<Entry>)
    requires Newer(top, a) && Newer(top, b) && DistinctKeys(top + a) && DistinctKeys(top + b)
    requires IsNewest(top + a, u, s, r) && IsNewest(top + b, u, s, r')
    requires IsNewest(top, u, s, None) ==> forall ra, rb :: IsNewest(a, u, s, ra) && IsNewest(b, u, s, rb) ==> Answer(ra) == Answer(rb)
    ensures Answer(r) == Answer(r')
  {
    var t := NewestExists(top, u, s);
    var ra := NewestExists(a, u, s);
    var rb := NewestExists(b, u, s);
    NewestOfUnion(top, a, u, s, t, ra);
    NewestOfUnion(top, b, u, s, t, rb);
    NewestIsUnique(top + a, u, s, r, FirstOf(t, ra));
    NewestIsUnique(top + b, u, s, r', FirstOf(t, rb));
  }

  /** What installing a version must bring: its own invariants, no new entries,
      and the same answers to every read the memtables leave open. */
  lemma InstallKeepsInv(d: Db, d': Db)
    requires DbInv(d) && d' == d.(version := d'.version, nextFile := d'.nextFile)
    requires Inv(d'.version) && VersionElems(d'.version) <= VersionElems(d.version)
    requires NumbersBelow(d'.version, d'.nextFile)
    requires forall u, s: nat, r, r' ::
               (Live(d, s) && IsNewest(Recent(d), u, s, None)
                && IsNewest(VersionElems(d.version), u, s, r) && IsNewest(VersionElems(d'.version), u, s, r'))
               ==> Answer(r) == Answer(r')
    ensures DbInv(d')
  {
    assert Recent(d') == Recent(d) && ImmOf(d') == ImmOf(d);
    AllKeysDistinct(d);
    AllKeysDistinct(d');
    forall u, s: nat, r', h | Live(d', s) && IsNewest(AllElems(d'), u, s, r') && IsNewest(d'.history, u, s, h)
      ensures Answer(r') == Answer(h)
    {
      var r := NewestExists(AllElems(d), u, s);
      assert Live(d, s);
      SameBelow(Recent(d), VersionElems(d.version), VersionElems(d'.version), u, s, r, r');
    }
  }

  lemma SafeCompactKeepsInv(d: Db, d': Db, level: nat, in0: seq<File>, in1: seq<File>, outs: seq<File>, input: seq<Entry>, snap: nat)
    requires DbInv(d) && CompactStep(d, d', level, in0, in1, outs, input, snap) && HazardFree(d, level, in0, in1, snap)
    ensures DbInv(d')
  {
    var v, v' := d.version, d'.version;
    StepKeepsInv(v, v', level, in0, in1, outs);
    OutputsFromVersion(v, v', level, in0, in1, outs);
    NumbersBelowKept(d, d', level, in0, in1, outs);
    forall u, s: nat, r, r' | Live(d, s) && IsNewest(Recent(d), u, s, None) && IsNewest(VersionElems(v), u, s, r) && IsNewest(VersionElems(v'), u, s, r')
      ensures Answer(r) == Answer(r')
    {
      SmallestSnapshotIsOldest(d, snap, s);
      ReadsKeptExactly(v, v', level, in0, in1, outs, input, snap, u, s, r, r');
    }
    InstallKeepsInv(d, d');
  }

  /** A live read that meets the hazard no longer agrees with the history. */
  lemma HazardBreaksInv(d: Db, d': Db, level: nat, in0: seq<File>, in1: seq<File>, outs: seq<File>, input: seq<Entry>, snap: nat,
                        u: UserKey, s: nat)
    requires DbInv(d) && CompactStep(d, d', level, in0, in1, outs, input, snap)
    requires Live(d, s) && IsNewest(Recent(d), u, s, None) && Resurrects(d.version, level, in0, in1, snap, u, s)
    ensures !Agrees(d')
  {
    RunOfStep(d, d', level, in0, in1, outs, input, snap, s);
    hide *;
    var v, v' := d.version, d'.version;
    var r := NewestExists(VersionElems(v), u, s);
    var r' := NewestExists(VersionElems(v'), u, s);
    var h := NewestExists(d.history, u, s);
    ReadsKeptExactly(v, v', level, in0, in1, outs, input, snap, u, s, r, r');
    NewestOfUnion(Recent(d), VersionElems(v), u, s, None, r);
    NewestOfUnion(Recent(d), VersionElems(v'), u, s, None, r');
    AgreesAt(d, u, s, r, h);
    if Agrees(d') {
      AgreesAt(d', u, s, r', h);
    }
  }

  lemma AgreesAt(d: Db, u: UserKey, s: nat, r: Option<Entry>, h: Option<Entry>)
    requires Agrees(d) && Live(d, s) && IsNewest(Recent(d) + VersionElems(d.version), u, s, r) && IsNewest(d.history, u, s, h)
    ensures Answer(r) == Answer(h)
  {
    assert AllElems(d) == Recent(d) + VersionElems(d.version);
  }

  lemma RunOfStep(d: Db, d': Db, level: nat, in0: seq<File>, in1: seq<File>, outs: seq<File>, input: seq<Entry>, snap: nat, s: nat)
    requires DbInv(d) && CompactStep(d, d', level, in0, in1, outs, input, snap) && Live(d, s)
    ensures Inv(d.version) && CompactionRun(d.version, d'.version, level, in0, in1, outs, input, snap) && snap <= s
    ensures Newer(Recent(d), VersionElems(d.version)) && Newer(Recent(d), VersionElems(d'.version))
    ensures Agrees(d) && Recent(d') == Recent(d) && level + 1 < NUM_LEVELS && d'.history == d.history && Live(d', s)
  {
    OutputsFromVersion(d.version, d'.version, level, in0, in1, outs);
    SmallestSnapshotIsOldest(d, snap, s);
  }

  /** A compaction keeps the invariant if and only if no live read meets the hazard. */
  lemma CompactKeepsInv(d: Db, d': Db, level: nat, in0: seq<File>, in1: seq<File>, outs: seq<File>, input: seq<Entry>, snap: nat)
    requires DbInv(d) && CompactStep(d, d', level, in0, in1, outs, input, snap)
    ensures DbInv(d') <==> HazardFree(d, level, in0, in1, snap)
  {
    hide CompactionRun, Resurrects, Layered, StampedBy, NumbersBelow;
    if HazardFree(d, level, in0, in1, snap) {
      SafeCompactKeepsInv(d, d', level, in0, in1, outs, input, snap);
    } else {
      var u, s: nat :| Live(d, s) && IsNewest(Recent(d), u, s, None) && Resurrects(d.version, level, in0, in1, snap, u, s);
      HazardBreaksInv(d, d', level, in0, in1, outs, input, snap, u, s);
    }
  }

  lemma NumbersBelowKept(d: Db, d': Db, level: nat, in0: seq<File>, in1: seq<File>, outs: seq<File>)
    requires NumbersBelow(d.version, d.nextFile) && d.nextFile <= d'.nextFile && level + 1 < |d.version|
    requires Replaced(d.version, d'.version, level, in0, in1, outs)
    requires forall o :: o in outs ==> o.number < d'.nextFile
    ensures NumbersBelow(d'.version, d'.nextFile)
  {
    forall l, f | 0 <= l < |d'.version| && f in d'.version[l]
      ensures f.number < d'.nextFile
    {
      assert f in d.version[l] || f in outs;
    }
  }

  /** A trivial move is a step whose output is its only input. */
  lemma MoveIsStep(v: Version, v': Version, level: nat, f: File)
    requires Inv(v) && level + 1 < |v| && Selected(v, level, [f], []) && Replaced(v, v', level, [f], [], [f])
    ensures Installed(v, v', level, [f], [], [f])
  {
    assert f in [f];
    assert LevelElems([f]) <= LevelElems([f]) + LevelElems([]);
  }

  lemma MoveKeepsInv(d: Db, d': Db, level: nat, f: File)
    requires DbInv(d) && MoveStep(d, d', level, f)
    ensures DbInv(d')
  {
    var v, v' := d.version, d'.version;
    MoveIsStep(v, v', level, f);
    StepKeepsInv(v, v', level, [f], [], [f]);
    OutputsFromVersion(v, v', level, [f], [], [f]);
    assert f in [f] && f in v[level];
    NumbersBelowKept(d, d', level, [f], [], [f]);
    MovedElems(v, v', level, f);
    VersionKeysDistinct(v);
    forall u, s: nat, r, r' | IsNewest(VersionElems(v), u, s, r) && IsNewest(VersionElems(v'), u, s, r')
      ensures Answer(r) == Answer(r')
    {
      NewestIsUnique(VersionElems(v), u, s, r, r');
    }
    InstallKeepsInv(d, d');
  }

  lemma MovedElems(v: Version, v': Version, level: nat, f: File)
    requires level + 1 < |v| && Installed(v, v', level, [f], [], [f])
    ensures VersionElems(v') == VersionElems(v)
  {
    PartsOf(v, v', level, [f], [], [f]);
    assert LevelElems([]) == {};
    assert Inputs([f], []) == LevelElems([f]);
  }

  // ----- every run

  lemma NextKeepsInv(d: Db, d': Db, step: Action)
    requires DbInv(d) && Next(d, d', step)
    ensures DbInv(d')
  {
    match step
    case Write(ops) => WriteKeepsInv(d, d', ops);
    case FailedWrite(count) => FailedKeepsInv(d, d', count);
    case Switch => SwitchKeepsInv(d, d');
    case Flush(level, f) => FlushKeepsInv(d, d', level, f);
    case Compact(level, in0, in1, outs, input, snap) => CompactKeepsInv(d, d', level, in0, in1, outs, input, snap);
    case Move(level, f) => MoveKeepsInv(d, d', level, f);
    case GetSnapshot => SnapshotsKeepInv(d, d');
    case ReleaseSnapshot(s) => SnapshotsKeepInv(d, d');
  }

  /** Numbers that are never written do not change what a read sees. */
  lemma FailedKeepsInv(d: Db, d': Db, count: nat)
    requires DbInv(d) && FailedStep(d, d', count)
    ensures DbInv(d')
  {
    assert AllElems(d') == AllElems(d) && Recent(d') == Recent(d) && ImmOf(d') == ImmOf(d);
    forall u, s: nat, r, h | Live(d', s) && IsNewest(AllElems(d'), u, s, r) && IsNewest(d'.history, u, s, h)
      ensures Answer(r) == Answer(h)
    {
      if s == d'.lastSequence {
        AllSeenFrom(AllElems(d), d.lastSequence, u, s, r);
        AllSeenFrom(d.history, d.lastSequence, u, s, h);
        assert Live(d, d.lastSequence);
      } else {
        assert Live(d, s);
      }
    }
  }

  lemma SnapshotsKeepInv(d: Db, d': Db)
    requires DbInv(d) && d' == d.(snapshots := d'.snapshots) && forall s :: s in d'.snapshots ==> Live(d, s)
    ensures DbInv(d')
  {
    assert AllElems(d') == AllElems(d) && Recent(d') == Recent(d) && ImmOf(d') == ImmOf(d);
    SameElemsAgree(d, d');
  }

  ghost predicate Run(ds: seq<Db>, steps: seq<Action>) {
    && |ds| == |steps| + 1 && Init(ds[0])
    && forall i :: 0 <= i < |steps| ==> Next(ds[i], ds[i + 1], steps[i])
  }

  lemma InitHasInv(d: Db)
    requires Init(d)
    ensures DbInv(d)
  {
    assert VersionElems(d.version) == {} by {
      assert forall l :: 0 <= l < |d.version| ==> LevelElems(d.version[l]) == {};
    }
    assert Elems([]) == {};
    assert Recent(d) == {} && AllElems(d) == {};
  }

  /** Safety over whole runs: the level invariants hold, and live reads agree with the history. */
  lemma {:induction false} RunKeepsInv(ds: seq<Db>, steps: seq<Action>, i: nat)
    requires Run(ds, steps) && i < |ds|
    ensures DbInv(ds[i])
  {
    if i == 0 {
      InitHasInv(ds[0]);
    } else {
      RunKeepsInv(ds, steps, i - 1);
      NextKeepsInv(ds[i - 1], ds[i], steps[i - 1]);
    }
  }

  /** What a snapshot sees never changes: later steps add nothing it can see to the history. */
  lemma {:induction false} SnapshotIsFixed(ds: seq<Db>, steps: seq<Action>, i: nat, j: nat, u: UserKey, s: nat, h: Option<Entry>)
    requires Run(ds, steps) && i <= j < |ds| && s <= ds[i].lastSequence
    ensures IsNewest(ds[i].history, u, s, h) <==> IsNewest(ds[j].history, u, s, h)
    ensures ds[i].lastSequence <= ds[j].lastSequence
    decreases j - i
  {
    if i < j {
      SnapshotIsFixed(ds, steps, i, j - 1, u, s, h);
      assert Next(ds[j - 1], ds[j], steps[j - 1]);
      NextKeepsPast(ds[j - 1], ds[j], steps[j - 1], u, s, h);
    }
  }

  lemma NextKeepsPast(d: Db, d': Db, step: Action, u: UserKey, s: nat, h: Option<Entry>)
    requires Next(d, d', step) && s <= d.lastSequence
    ensures (IsNewest(d.history, u, s, h) <==> IsNewest(d'.history, u, s, h)) && d.lastSequence <= d'.lastSequence
  {
    if step.Write? {
      StampedFacts(step.ops, d.lastSequence);
      OlderReadsKeep(d.history, Elems(Stamped(step.ops, d.lastSequence)), u, s, h);
    }
  }

  lemma OlderReadsKeep(h: set<Entry>, x: set<Entry>, u: UserKey, s: nat, r: Option<Entry>)
    requires forall e :: e in x ==> e.key.seqno > s
    ensures IsNewest(h, u, s, r) <==> IsNewest(h + x, u, s, r)
  {
  }
}
