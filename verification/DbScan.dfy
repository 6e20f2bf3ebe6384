/** Iterators over the whole store (`DBImpl::NewIterator`): the user keys a scan walks
    are those the history of writes holds at its sequence number. */
module DbScan {
  import opened Keys
  import opened Versions
  import opened Lsm
  import opened LsmTheorem
  import Replay
  import opened DbImpl
  import opened DbIter
  import opened Merger
  import Compaction
  import Cursor

  // ----- runs that share no key

  /** Sorted runs that hold `all` between them, no two of them the same key. */
  ghost predicate Parts(runs: seq<seq<Entry>>, all: set<Entry>) {
    && (forall i :: 0 <= i < |runs| ==> Sorted(runs[i]))
    && (forall i, e :: 0 <= i < |runs| && e in runs[i] ==> e in all)
    && (forall e :: e in all ==> exists i :: 0 <= i < |runs| && e in runs[i])
    && forall i, j, a, b :: 0 <= i < j < |runs| && a in runs[i] && b in runs[j] ==> a.key != b.key
  }

  ghost predicate KeysApart(a: set<Entry>, b: set<Entry>) {
    forall x, y :: x in a && y in b ==> x.key != y.key
  }

  lemma OneMore(runs: seq<seq<Entry>>, all: set<Entry>, run: seq<Entry>)
    requires Parts(runs, all) && Sorted(run) && KeysApart(all, Elems(run))
    ensures Parts(runs + [run], all + Elems(run))
  {
    hide Sorted;
    var more := runs + [run];
    forall e | e in all + Elems(run)
      ensures exists i :: 0 <= i < |more| && e in more[i]
    {
      if e in all {
        var i :| 0 <= i < |runs| && e in runs[i];
        assert e in more[i];
      } else {
        assert e in more[|runs|];
      }
    }
    forall i, j, a: Entry, b: Entry | 0 <= i < j < |more| && a in more[i] && b in more[j]
      ensures a.key != b.key
    {
      if j == |runs| {
        assert a in all && b in Elems(run);
      }
    }
  }

  lemma PartsMerge(runs: seq<seq<Entry>>, all: set<Entry>, merged: seq<Entry>)
    requires Parts(runs, all) && Sorted(merged) && Elems(merged) == all
    ensures IsMerge(runs, merged)
  {
    hide Sorted;
    forall e
      ensures e in merged <==> e in all
    {
      assert e in merged <==> e in Elems(merged);
    }
    forall i, j, a: Entry, b: Entry | 0 <= i < |runs| && 0 <= j < |runs| && i != j && a in runs[i] && b in runs[j]
      ensures a.key != b.key
    {
      if j < i {
        assert b in runs[j] && a in runs[i];
      }
    }
  }

  lemma NewerIsApart(a: set<Entry>, b: set<Entry>)
    requires Newer(a, b)
    ensures KeysApart(a, b)
  {
  }

  // ----- the levels of a version

  lemma EndsBeforeFile(init: seq<File>, last: File, e: Entry, x: Entry)
    requires WfFiles(init + [last]) && Disjoint(init + [last]) && e in Compaction.EntriesOf(init) && x in last.entries
    ensures Before(e.key, x.key)
  {
    hide Sorted, Compaction.EntriesOf;
    var fs := init + [last];
    Compaction.EntriesHold(init, e);
    var f :| f in init && e in f.entries;
    var k :| 0 <= k < |init| && init[k] == f;
    assert fs[k] == f && fs[|init|] == last;
    InBounds(f, e);
    InBounds(last, x);
  }

  /** The entries of a level without overlaps, file after file, are in order. */
  lemma {:induction false} LevelRunIsSorted(fs: seq<File>)
    requires WfFiles(fs) && Disjoint(fs)
    ensures Sorted(Compaction.EntriesOf(fs))
  {
    hide Compaction.EntriesOf;
    if fs == [] {
      Compaction.EntriesNext([], File(0, 0, SeekKey(0.0, 0), SeekKey(0.0, 0), []));
    } else {
      var init, last := fs[..|fs| - 1], fs[|fs| - 1];
      assert fs == init + [last] && WfFile(last);
      Compaction.EntriesNext(init, last);
      LevelRunIsSorted(init);
      forall e, x | e in Compaction.EntriesOf(init) && x in last.entries
        ensures Before(e.key, x.key)
      {
        EndsBeforeFile(init, last, e, x);
      }
    }
  }

  /** What is above a level, and the files before one of level 0, share no key with it. */
  lemma FileApart(above: set<Entry>, fs: seq<File>, i: nat)
    requires WfFiles(fs) && NumberedByAge(fs) && i < |fs| && KeysApart(above, LevelElems(fs))
    ensures KeysApart(above + LevelElems(fs[..i]), Elems(fs[i].entries))
    ensures LevelElems(fs[..i + 1]) == LevelElems(fs[..i]) + Elems(fs[i].entries)
  {
    forall x, y | x in above + LevelElems(fs[..i]) && y in Elems(fs[i].entries)
      ensures x.key != y.key
    {
      assert y in LevelElems(fs);
      if x !in above {
        var f :| f in fs[..i] && x in f.entries;
        var k :| 0 <= k < i && fs[k] == f;
        FilesOfLevelShareNoKey(fs, f, fs[i], x, y);
      }
    }
    assert forall f :: f in fs[..i + 1] <==> f in fs[..i] || f == fs[i];
  }

  lemma LevelApart(recent: set<Entry>, v: Version, l: nat)
    requires LevelsByAge(v) && l < |v| && Newer(recent, VersionElems(v))
    ensures KeysApart(recent + VersionElems(v[..l]), LevelElems(v[l]))
    ensures VersionElems(v[..l + 1]) == VersionElems(v[..l]) + LevelElems(v[l])
  {
    forall x, y | x in recent + VersionElems(v[..l]) && y in LevelElems(v[l])
      ensures x.key != y.key
    {
      assert y in VersionElems(v);
      if x !in recent {
        var m :| 0 <= m < l && x in LevelElems(v[..l][m]);
        assert Newer(LevelElems(v[m]), LevelElems(v[l]));
      }
    }
    forall e
      ensures e in VersionElems(v[..l + 1]) <==> e in VersionElems(v[..l]) || e in LevelElems(v[l])
    {
      if e in LevelElems(v[l]) {
        assert v[..l + 1][l] == v[l];
      }
      if e in VersionElems(v[..l]) {
        var m :| 0 <= m < l && e in LevelElems(v[..l][m]);
        assert v[..l + 1][m] == v[m];
      }
    }
  }

  // ----- making the iterator

  /** One cursor for each run, not yet moved. */
  ghost predicate Children(its: seq<Cursor.Iterator>, runs: seq<seq<Entry>>)
    reads its
  {
    && |its| == |runs| && NoRepeats(its)
    && forall i :: 0 <= i < |its| ==> its[i].Ok() && its[i].run == runs[i] && !its[i].Valid()
  }

  method AddIterator(its: seq<Cursor.Iterator>, run: seq<Entry>, ghost runs: seq<seq<Entry>>, ghost all: set<Entry>)
    returns (its': seq<Cursor.Iterator>)
    requires Children(its, runs) && Parts(runs, all) && Sorted(run) && KeysApart(all, Elems(run))
    ensures Children(its', runs + [run]) && Parts(runs + [run], all + Elems(run))
    ensures forall i :: 0 <= i < |its'| ==> its'[i] in its || fresh(its'[i])
  {
    hide Parts, Sorted, KeysApart;
    OneMore(runs, all, run);
    var it := new Cursor.Iterator(run);
    its' := its + [it];
  }

  /** Version::AddIterators: the files of level 0 one by one, a deeper level as a whole. */
  method AddIterators(v: Version, its: seq<Cursor.Iterator>, ghost runs: seq<seq<Entry>>, ghost recent: set<Entry>)
    returns (its': seq<Cursor.Iterator>, ghost runs': seq<seq<Entry>>)
    requires Inv(v) && Newer(recent, VersionElems(v)) && Children(its, runs) && Parts(runs, recent)
    ensures Children(its', runs') && Parts(runs', recent + VersionElems(v))
    ensures forall i :: 0 <= i < |its'| ==> its'[i] in its || fresh(its'[i])
  {
    hide Parts, Sorted, KeysApart, Newer, LevelElems, VersionElems;
    its', runs' := its, runs;
    ghost var all := recent;
    LevelApart(recent, v, 0);
    NothingHeld(v);
    for i := 0 to |v[0]|
      invariant Children(its', runs') && Parts(runs', all) && all == recent + LevelElems(v[0][..i])
      invariant forall k :: 0 <= k < |its'| ==> its'[k] in its || fresh(its'[k])
    {
      FileApart(recent, v[0], i);
      assert WfFile(v[0][i]);
      its' := AddIterator(its', v[0][i].entries, runs', all);
      runs' := runs' + [v[0][i].entries];
      all := all + Elems(v[0][i].entries);
    }
    assert v[0][..|v[0]|] == v[0];
    for l := 1 to NUM_LEVELS
      invariant Children(its', runs') && Parts(runs', all) && all == recent + VersionElems(v[..l])
      invariant forall k :: 0 <= k < |its'| ==> its'[k] in its || fresh(its'[k])
    {
      LevelApart(recent, v, l);
      Compaction.EntriesElems(v[l]);
      if v[l] != [] {
        LevelRunIsSorted(v[l]);
        its' := AddIterator(its', Compaction.EntriesOf(v[l]), runs', all);
        runs' := runs' + [Compaction.EntriesOf(v[l])];
      } else {
        NoFiles();
        assert all + {} == all;
      }
      all := all + LevelElems(v[l]);
    }
    assert v[..NUM_LEVELS] == v;
  }

  lemma NothingHeld(v: Version)
    requires |v| > 0
    ensures VersionElems(v[..0]) == {} && LevelElems(v[0][..0]) == {}
  {
  }

  lemma NoFiles()
    ensures LevelElems([]) == {}
  {
  }

  /** NewInternalIterator: the memtable, the one being flushed, then the version. */
  method NewInternalIterator(db: DBImpl) returns (it: MergingIterator, latest: nat)
    requires db.Valid()
    ensures fresh(it) && (forall i :: 0 <= i < |it.children| ==> fresh(it.children[i])) && it.Ok()
    ensures Elems(it.merged) == AllElems(db.State()) && latest == db.lastSequence
  {
    latest := db.lastSequence;
    ghost var d := db.State();
    var mem, imm, version := db.mem, db.imm, db.version;
    StateFacts(d);
    RecentIs(d);
    AllIs(d);
    assert mem == d.mem && imm == d.imm && version == d.version;
    hide *;
    var its := [];
    ghost var runs, all: set<Entry> := [], {};
    NoChildren();
    its := AddIterator(its, mem, runs, all);
    runs, all := runs + [mem], all + Elems(mem);
    if imm.Some? {
      its := AddIterator(its, imm.value, runs, all);
      runs, all := runs + [imm.value], all + Elems(imm.value);
    }
    its, runs := AddIterators(version, its, runs, all);
    ghost var merged := SortedListing(AllElems(d));
    PartsMerge(runs, AllElems(d), merged);
    ChildrenFacts(its, runs);
    it := new MergingIterator(its, runs, merged);
  }

  lemma StateFacts(d: Db)
    requires DbOk(d)
    ensures Sorted(d.mem) && Sorted(ImmOf(d)) && Inv(d.version) && Newer(Recent(d), VersionElems(d.version))
    ensures KeysApart({}, Elems(d.mem)) && KeysApart({} + Elems(d.mem), Elems(ImmOf(d))) && DistinctKeys(AllElems(d))
  {
    NewerIsApart(Elems(d.mem), Elems(ImmOf(d)));
    assert {} + Elems(d.mem) == Elems(d.mem);
    AllKeysDistinct(d);
  }

  lemma NoChildren()
    ensures Children([], []) && Parts([], {})
  {
  }

  lemma RecentIs(d: Db)
    ensures Recent(d) == {} + Elems(d.mem) + Elems(ImmOf(d)) && ImmOf(d) == (if d.imm.Some? then d.imm.value else [])
    ensures d.imm.None? ==> Recent(d) == {} + Elems(d.mem)
  {
  }

  lemma AllIs(d: Db)
    ensures AllElems(d) == Recent(d) + VersionElems(d.version)
  {
  }

  lemma ChildrenFacts(its: seq<Cursor.Iterator>, runs: seq<seq<Entry>>)
    requires Children(its, runs)
    ensures |its| == |runs| && forall i, j :: 0 <= i < j < |its| ==> its[i] != its[j]
    ensures forall i :: 0 <= i < |its| ==> its[i].Ok() && its[i].run == runs[i] && !its[i].Valid()
  {
  }

  // ----- what a scan shows

  ghost predicate Shows(live: seq<Entry>, u: UserKey, value: Bytes) {
    exists k :: 0 <= k < |live| && live[k].key.user == u && live[k].value == value
  }

  /** A read of `u` at `s` by the history of writes gives this value. */
  ghost predicate Reads(history: set<Entry>, u: UserKey, s: nat, value: Bytes) {
    exists h :: IsNewest(history, u, s, h) && Answer(h) == Some(value)
  }

  /** Every user key once, in order, with the value the history gives it. */
  ghost predicate ListsHistory(live: seq<Entry>, history: set<Entry>, s: nat) {
    && (forall i, j :: 0 <= i < j < |live| ==> live[i].key.user < live[j].key.user)
    && forall u, value :: Shows(live, u, value) <==> Reads(history, u, s, value)
  }

  /** What the store holds answers every read at `s` as the history does. */
  ghost predicate AgreesAt(all: set<Entry>, history: set<Entry>, s: nat) {
    && DistinctKeys(history)
    && forall u, r, h :: IsNewest(all, u, s, r) && IsNewest(history, u, s, h) ==> Answer(r) == Answer(h)
  }

  /** The live entries of all that the store holds are what the history holds. */
  lemma LiveIsHistory(d: Db, merged: seq<Entry>, s: nat)
    requires DbOk(d) && Live(d, s) && Sorted(merged) && Elems(merged) == AllElems(d)
    ensures ListsHistory(LiveEntries(merged, s), d.history, s)
  {
    StoreAgreesAt(d, s);
    AgreeingListsHistory(merged, d.history, s);
  }

  lemma StoreAgreesAt(d: Db, s: nat)
    requires DbInv(d) && Live(d, s)
    ensures AgreesAt(AllElems(d), d.history, s)
  {
  }

  lemma AgreeingListsHistory(merged: seq<Entry>, history: set<Entry>, s: nat)
    requires Sorted(merged) && AgreesAt(Elems(merged), history, s)
    ensures ListsHistory(LiveEntries(merged, s), history, s)
  {
    var live := LiveEntries(merged, s);
    LiveUsersIncrease(merged, s, |merged|);
    forall u, value
      ensures Shows(live, u, value) <==> Reads(history, u, s, value)
    {
      LiveReads(merged, history, s, u, value);
    }
  }

  lemma LiveReads(merged: seq<Entry>, history: set<Entry>, s: nat, u: UserKey, value: Bytes)
    requires Sorted(merged) && AgreesAt(Elems(merged), history, s)
    ensures Shows(LiveEntries(merged, s), u, value) <==> Reads(history, u, s, value)
  {
    var live := LiveEntries(merged, s);
    var r := NewestExists(Elems(merged), u, s);
    var h := NewestExists(history, u, s);
    SortedKeysDistinct(merged);
    hide Sorted;
    if Shows(live, u, value) {
      var k :| 0 <= k < |live| && live[k].key.user == u && live[k].value == value;
      LiveIsNewest(merged, s, live[k]);
      NewestIsUnique(Elems(merged), u, s, r, Some(live[k]));
    }
    if Reads(history, u, s, value) {
      var h' :| IsNewest(history, u, s, h') && Answer(h') == Some(value);
      NewestIsUnique(history, u, s, h, h');
      LiveIsNewest(merged, s, r.value);
      var k :| 0 <= k < |live| && live[k] == r.value;
    }
  }

  /** DBImpl::NewIterator, at a snapshot or at the last sequence number. */
  method NewIterator(db: DBImpl, snapshot: Option<nat>) returns (it: DBIter)
    requires db.Valid() && (snapshot.Some? ==> Lsm.Live(db.State(), snapshot.value))
    ensures fresh(it) && fresh(it.iter) && (forall i :: 0 <= i < |it.iter.children| ==> fresh(it.iter.children[i]))
    ensures it.Ok() && !it.valid && it.sequence == (if snapshot.Some? then snapshot.value else db.lastSequence)
    ensures ListsHistory(it.Live(), db.history, it.sequence)
  {
    var iter, latest := NewInternalIterator(db);
    iter.OkFacts();
    var s := if snapshot.Some? then snapshot.value else latest;
    LiveIsHistory(db.State(), iter.merged, s);
    it := new DBIter(iter, s);
  }

  /** Walks an iterator from its first user key to its last. */
  method Walk(it: DBIter, ghost live: seq<Entry>) returns (pairs: seq<(UserKey, Bytes)>)
    requires it.Ok() && it.Live() == live
    modifies it, it.iter, it.iter.children
    ensures |pairs| == |live| && forall k :: 0 <= k < |pairs| ==> pairs[k] == (live[k].key.user, live[k].value)
  {
    hide DBIter.Ok, DBIter.Live, DBIter.Index;
    pairs := [];
    it.SeekToFirst();
    while it.valid
      invariant it.Ok() && it.Live() == live
      invariant |pairs| == (if it.valid then it.Index() else |live|) <= |live|
      invariant forall k :: 0 <= k < |pairs| ==> pairs[k] == (live[k].key.user, live[k].value)
      decreases |live| - |pairs|
    {
      var key, value := it.Current();
      pairs := pairs + [(key, value)];
      it.Next();
    }
  }

  /** A scan of the store reads what the history of writes holds, user key by user key. */
  method Scan(db: DBImpl, snapshot: Option<nat>) returns (pairs: seq<(UserKey, Bytes)>)
    requires db.Valid() && (snapshot.Some? ==> Lsm.Live(db.State(), snapshot.value))
    ensures forall i, j :: 0 <= i < j < |pairs| ==> pairs[i].0 < pairs[j].0
    ensures forall u, value ::
              (u, value) in pairs <==> Reads(db.history, u, if snapshot.Some? then snapshot.value else db.lastSequence, value)
  {
    var it := NewIterator(db, snapshot);
    ghost var live := it.Live();
    hide *;
    HistoryFacts(live, db.history, it.sequence);
    pairs := Walk(it, live);
    PairsShow(pairs, live);
  }

  /** In every state of every run, a scan at `s` lists exactly the map that the operations
      numbered up to `s` make of an empty one. */
  lemma ScanIsReplayed(ds: seq<Db>, steps: seq<Action>, i: nat, s: nat, pairs: seq<(UserKey, Bytes)>)
    requires Run(ds, steps) && i < |ds|
    requires forall u, value :: (u, value) in pairs <==> Reads(ds[i].history, u, s, value)
    ensures var m := Replay.Replayed(ds, steps, i, s); forall u, value :: (u, value) in pairs <==> u in m && m[u] == value
  {
    var m := Replay.Replayed(ds, steps, i, s);
    forall u, value
      ensures (u, value) in pairs <==> u in m && m[u] == value
    {
      Replay.HistoryIsReplayed(ds, steps, i, u, s);
      ReadsAreShown(ds[i].history, u, s, value, Replay.Lookup(m, u));
    }
  }

  lemma ReadsAreShown(history: set<Entry>, u: UserKey, s: nat, value: Bytes, v: Option<Bytes>)
    requires Replay.Shows(history, u, s, v)
    ensures Reads(history, u, s, value) <==> v == Some(value)
  {
    var h := NewestExists(history, u, s);
  }

  lemma HistoryFacts(live: seq<Entry>, history: set<Entry>, s: nat)
    requires ListsHistory(live, history, s)
    ensures forall i, j :: 0 <= i < j < |live| ==> live[i].key.user < live[j].key.user
    ensures forall u, value :: Shows(live, u, value) <==> Reads(history, u, s, value)
  {
  }

  lemma PairsShow(pairs: seq<(UserKey, Bytes)>, live: seq<Entry>)
    requires |pairs| == |live| && forall k :: 0 <= k < |pairs| ==> pairs[k] == (live[k].key.user, live[k].value)
    ensures forall u, value :: (u, value) in pairs <==> Shows(live, u, value)
  {
    forall u, value
      ensures (u, value) in pairs <==> Shows(live, u, value)
    {
      if (u, value) in pairs {
        var k :| 0 <= k < |pairs| && pairs[k] == (u, value);
        assert live[k].key.user == u && live[k].value == value;
      }
      if Shows(live, u, value) {
        var k :| 0 <= k < |live| && live[k].key.user == u && live[k].value == value;
        assert pairs[k] == (u, value);
      }
    }
  }
}
