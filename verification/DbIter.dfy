/** DBIter (`db/db_iter.cc`): the internal entries, sorted by internal key, walked
    as the user keys that are live at a sequence number, in both directions. */
module DbIter {
  import opened Keys
  import opened Merger

  predicate Visible(m: seq<Entry>, s: nat, i: nat)
    requires i < |m|
  {
    m[i].key.seqno <= s
  }

  /** Entry `i` is what its user key reads as at `s`: visible, a value, and the first visible one of its key. */
  ghost predicate LiveAt(m: seq<Entry>, s: nat, i: nat)
    requires i < |m|
  {
    && Visible(m, s, i) && m[i].key.kind == Value
    && forall j :: 0 <= j < i && m[j].key.user == m[i].key.user ==> !Visible(m, s, j)
  }

  /** The live entries among the first `n`, in order. */
  ghost function LiveUpTo(m: seq<Entry>, s: nat, n: nat): seq<Entry>
    requires n <= |m|
  {
    if n == 0 then []
    else if LiveAt(m, s, n - 1) then LiveUpTo(m, s, n - 1) + [m[n - 1]]
    else LiveUpTo(m, s, n - 1)
  }

  ghost function LiveEntries(m: seq<Entry>, s: nat): seq<Entry> {
    LiveUpTo(m, s, |m|)
  }

  // ----- the live entries are the map a reader at `s` sees

  lemma {:induction false} LiveHolds(m: seq<Entry>, s: nat, n: nat, e: Entry)
    requires n <= |m|
    ensures e in LiveUpTo(m, s, n) <==> exists i :: 0 <= i < n && m[i] == e && LiveAt(m, s, i)
  {
    if n > 0 {
      LiveHolds(m, s, n - 1, e);
    }
  }

  /** An entry is live exactly when it is the newest visible one of its user key, and a value. */
  lemma LiveIsNewest(m: seq<Entry>, s: nat, e: Entry)
    requires Sorted(m)
    ensures e in LiveEntries(m, s) <==> e.key.kind == Value && IsNewest(Elems(m), e.key.user, s, Some(e))
  {
    LiveHolds(m, s, |m|, e);
    if e in LiveEntries(m, s) {
      var i :| 0 <= i < |m| && m[i] == e && LiveAt(m, s, i);
      forall x | x in Elems(m) && Sees(x, e.key.user, s)
        ensures Tag(x.key) <= Tag(e.key)
      {
        var j :| 0 <= j < |m| && m[j] == x;
        if i < j {
          assert Before(m[i].key, m[j].key);
        }
      }
    }
    if e.key.kind == Value && IsNewest(Elems(m), e.key.user, s, Some(e)) {
      var i :| 0 <= i < |m| && m[i] == e;
      forall j | 0 <= j < i && m[j].key.user == m[i].key.user
        ensures !Visible(m, s, j)
      {
        assert Before(m[j].key, m[i].key) && m[j] in Elems(m);
      }
      assert LiveAt(m, s, i);
    }
  }

  /** Live entries come in strictly increasing order of user key. */
  lemma {:induction false} LiveUsersIncrease(m: seq<Entry>, s: nat, n: nat)
    requires Sorted(m) && n <= |m|
    ensures forall a, b :: 0 <= a < b < |LiveUpTo(m, s, n)| ==> LiveUpTo(m, s, n)[a].key.user < LiveUpTo(m, s, n)[b].key.user
  {
    if n > 0 {
      LiveUsersIncrease(m, s, n - 1);
      var l := LiveUpTo(m, s, n - 1);
      if LiveAt(m, s, n - 1) {
        forall a | 0 <= a < |l|
          ensures l[a].key.user < m[n - 1].key.user
        {
          LiveHolds(m, s, n - 1, l[a]);
          var i :| 0 <= i < n - 1 && m[i] == l[a] && LiveAt(m, s, i);
          assert Before(m[i].key, m[n - 1].key);
        }
      }
    }
  }

  // ----- later inserts

  lemma LiveIsSorted(m: seq<Entry>, s: nat)
    requires Sorted(m)
    ensures Sorted(LiveEntries(m, s))
  {
    LiveUsersIncrease(m, s, |m|);
  }

  /** Entries that come later, with numbers above `s`, change nothing of what is live. */
  lemma LaterInsertsUnseen(m: seq<Entry>, m': seq<Entry>, s: nat)
    requires Sorted(m) && Sorted(m') && (forall e :: e in m ==> e in m')
    requires forall e :: e in m' && e !in m ==> e.key.seqno > s
    ensures LiveEntries(m', s) == LiveEntries(m, s)
  {
    LiveIsSorted(m, s);
    LiveIsSorted(m', s);
    forall e
      ensures e in Elems(LiveEntries(m, s)) <==> e in Elems(LiveEntries(m', s))
    {
      LiveIsNewest(m, s, e);
      LiveIsNewest(m', s, e);
      SameVisible(m, m', e.key.user, s, e);
    }
    SortedSame(LiveEntries(m, s), LiveEntries(m', s));
  }

  lemma SameVisible(m: seq<Entry>, m': seq<Entry>, u: UserKey, s: nat, e: Entry)
    requires (forall x :: x in m ==> x in m') && forall x :: x in m' && x !in m ==> x.key.seqno > s
    ensures IsNewest(Elems(m), u, s, Some(e)) <==> IsNewest(Elems(m'), u, s, Some(e))
  {
    assert forall x :: x in Elems(m') && Sees(x, u, s) ==> x in Elems(m);
  }

  // ----- positions

  /** How many live entries come before index `i`. */
  ghost function Place(m: seq<Entry>, s: nat, i: nat): nat
    requires i <= |m|
  {
    |LiveUpTo(m, s, i)|
  }

  ghost predicate NoneLive(m: seq<Entry>, s: nat, a: nat, b: nat)
    requires a <= b <= |m|
  {
    forall i :: a <= i < b ==> !LiveAt(m, s, i)
  }

  lemma {:induction false} SkipDead(m: seq<Entry>, s: nat, a: nat, b: nat)
    requires a <= b <= |m| && NoneLive(m, s, a, b)
    ensures LiveUpTo(m, s, b) == LiveUpTo(m, s, a)
  {
    if a < b {
      SkipDead(m, s, a, b - 1);
    }
  }

  lemma {:induction false} LivePrefix(m: seq<Entry>, s: nat, a: nat, b: nat)
    requires a <= b <= |m|
    ensures LiveUpTo(m, s, a) <= LiveUpTo(m, s, b)
  {
    if a < b {
      LivePrefix(m, s, a, b - 1);
    }
  }

  /** A live index stands at its place in the list, and the next place begins right after it. */
  lemma PlaceOfLive(m: seq<Entry>, s: nat, i: nat)
    requires i < |m| && LiveAt(m, s, i)
    ensures Place(m, s, i) < |LiveEntries(m, s)| && LiveEntries(m, s)[Place(m, s, i)] == m[i]
    ensures Place(m, s, i + 1) == Place(m, s, i) + 1
  {
    LivePrefix(m, s, i + 1, |m|);
  }

  /** Where a forward search for the first live index at or after `from` ends. */
  ghost predicate FirstLive(m: seq<Entry>, s: nat, from: nat, found: bool, at: nat) {
    && from <= |m|
    && if found then from <= at < |m| && LiveAt(m, s, at) && NoneLive(m, s, from, at)
       else NoneLive(m, s, from, |m|)
  }

  /** The same backwards: the last live index before `end`. */
  ghost predicate LastLive(m: seq<Entry>, s: nat, end: nat, found: bool, at: nat) {
    && end <= |m|
    && if found then at < end && LiveAt(m, s, at) && NoneLive(m, s, at + 1, end)
       else NoneLive(m, s, 0, end)
  }

  lemma FirstLivePlace(m: seq<Entry>, s: nat, from: nat, found: bool, at: nat)
    requires FirstLive(m, s, from, found, at)
    ensures found ==> Place(m, s, at) == Place(m, s, from) < |LiveEntries(m, s)|
    ensures !found ==> Place(m, s, from) == |LiveEntries(m, s)|
  {
    SkipDead(m, s, from, if found then at else |m|);
    if found {
      PlaceOfLive(m, s, at);
    }
  }

  lemma LastLivePlace(m: seq<Entry>, s: nat, end: nat, found: bool, at: nat)
    requires LastLive(m, s, end, found, at)
    ensures found ==> Place(m, s, at) + 1 == Place(m, s, end)
    ensures !found ==> Place(m, s, end) == 0
  {
    SkipDead(m, s, if found then at + 1 else 0, end);
  }

  // ----- the forward scan

  /** What FindNextUserEntry relies on at index `i` while it looks for the first
      live index at or after `from`: a key that was already decided is being
      skipped, and the skipped keys have nothing live left. */
  ghost predicate Scanning(m: seq<Entry>, s: nat, from: nat, i: nat, skipping: bool, skip: Option<UserKey>) {
    && i <= |m| && from <= |m| && (skipping ==> skip.Some?)
    && (forall j, k :: 0 <= k < i <= j < |m| && Visible(m, s, k) && m[k].key.user == m[j].key.user ==>
          skipping && m[j].key.user <= skip.value)
    && (skipping ==> forall j: nat :: i <= j < |m| && from <= j && m[j].key.user <= skip.value ==> !LiveAt(m, s, j))
    && (from <= i ==> NoneLive(m, s, from, i))
    && (i < from ==> skipping && m[from - 1].key.user == skip.value && m[from - 1].key.kind == Value
                     && forall j: nat :: i <= j < from - 1 ==> !Visible(m, s, j))
  }

  lemma ScanFromStart(m: seq<Entry>, s: nat, skip: Option<UserKey>)
    ensures Scanning(m, s, 0, 0, false, skip)
  {
  }

  lemma ScanInvisible(m: seq<Entry>, s: nat, from: nat, i: nat, skipping: bool, skip: Option<UserKey>)
    requires Scanning(m, s, from, i, skipping, skip) && i < |m| && !Visible(m, s, i)
    ensures Scanning(m, s, from, i + 1, skipping, skip)
  {
  }

  lemma ScanDeletion(m: seq<Entry>, s: nat, from: nat, i: nat, skipping: bool, skip: Option<UserKey>)
    requires Sorted(m) && Scanning(m, s, from, i, skipping, skip) && i < |m| && Visible(m, s, i) && m[i].key.kind == Deletion
    ensures Scanning(m, s, from, i + 1, true, Some(m[i].key.user))
  {
    assert from <= i;
    forall j: nat | i < j < |m|
      ensures m[i].key.user <= m[j].key.user
    {
      assert Before(m[i].key, m[j].key);
    }
    forall k | 0 <= k < i
      ensures m[k].key.user <= m[i].key.user
    {
      assert Before(m[k].key, m[i].key);
    }
  }

  lemma ScanHidden(m: seq<Entry>, s: nat, from: nat, i: nat, skip: Option<UserKey>)
    requires Scanning(m, s, from, i, true, skip) && i < |m| && Visible(m, s, i)
    requires skip.Some? && m[i].key.user <= skip.value
    ensures Scanning(m, s, from, i + 1, true, skip)
  {
  }

  lemma ScanFound(m: seq<Entry>, s: nat, from: nat, i: nat, skipping: bool, skip: Option<UserKey>)
    requires Scanning(m, s, from, i, skipping, skip) && i < |m| && Visible(m, s, i) && m[i].key.kind == Value
    requires !(skipping && skip.Some? && m[i].key.user <= skip.value)
    ensures FirstLive(m, s, from, true, i)
  {
    assert from <= i;
  }

  lemma ScanEnds(m: seq<Entry>, s: nat, from: nat, skipping: bool, skip: Option<UserKey>, at: nat)
    requires Scanning(m, s, from, |m|, skipping, skip)
    ensures FirstLive(m, s, from, false, at)
  {
  }

  /** Leaving a live entry forwards, its own user key is what must be skipped. */
  lemma ScanAfterLive(m: seq<Entry>, s: nat, at: nat)
    requires Sorted(m) && at < |m| && LiveAt(m, s, at)
    ensures Scanning(m, s, at + 1, at + 1, true, Some(m[at].key.user))
  {
    forall j, k | 0 <= k < at + 1 <= j < |m| && m[k].key.user == m[j].key.user
      ensures m[j].key.user <= m[at].key.user
    {
      if k < at {
        assert Before(m[k].key, m[at].key);
      }
    }
    forall j: nat | at + 1 <= j < |m|
      ensures m[at].key.user <= m[j].key.user
    {
      assert Before(m[at].key, m[j].key);
    }
  }

  /** An iterator that stands just before the entries of the current user key. */
  ghost predicate BeforeGroup(m: seq<Entry>, s: nat, b: nat, at: nat) {
    && b <= at < |m| && LiveAt(m, s, at)
    && (forall j: nat :: b <= j < at ==> !Visible(m, s, j))
    && (b > 0 ==> m[b - 1].key.user < m[at].key.user)
  }

  /** Turning round to go forwards, the entries from `b` on are rescanned. */
  lemma ScanAfterGroup(m: seq<Entry>, s: nat, b: nat, at: nat)
    requires Sorted(m) && BeforeGroup(m, s, b, at)
    ensures Scanning(m, s, at + 1, b, true, Some(m[at].key.user))
  {
    ScanAfterLive(m, s, at);
    forall j, k | 0 <= k < b <= j < |m| && m[k].key.user == m[j].key.user
      ensures m[j].key.user <= m[at].key.user
    {
      if k < b - 1 {
        assert Before(m[k].key, m[b - 1].key);
      }
    }
  }

  /** Seeking to a user key at `s`, everything earlier is of a smaller user key or not visible. */
  lemma SeekSplits(m: seq<Entry>, s: nat, u: UserKey)
    requires Sorted(m)
    ensures forall k: nat :: k < SeekIndex(m, SeekKey(u, s)) && Visible(m, s, k) ==> m[k].key.user < u
    ensures forall j: nat :: SeekIndex(m, SeekKey(u, s)) <= j < |m| ==> m[j].key.user >= u
  {
    var i := SeekIndex(m, SeekKey(u, s));
    forall j: nat | i <= j < |m|
      ensures m[j].key.user >= u
    {
      if i < j {
        assert Before(m[i].key, m[j].key);
      }
    }
  }

  lemma ScanAfterSeek(m: seq<Entry>, s: nat, u: UserKey)
    requires Sorted(m)
    ensures var i := SeekIndex(m, SeekKey(u, s)); Scanning(m, s, i, i, false, None)
  {
    SeekSplits(m, s, u);
    assert Scanning(m, s, SeekIndex(m, SeekKey(u, s)), SeekIndex(m, SeekKey(u, s)), false, None);
  }

  /** After a seek, exactly the live entries before the place found have a smaller user key. */
  lemma SeekPlace(m: seq<Entry>, s: nat, u: UserKey, found: bool, at: nat)
    requires Sorted(m) && FirstLive(m, s, SeekIndex(m, SeekKey(u, s)), found, at)
    ensures found ==> Place(m, s, at) <= |LiveEntries(m, s)|
    ensures forall k :: 0 <= k < (if found then Place(m, s, at) else |LiveEntries(m, s)|) ==>
              LiveEntries(m, s)[k].key.user < u
    ensures found ==> m[at].key.user >= u
  {
    var i := SeekIndex(m, SeekKey(u, s));
    SeekSplits(m, s, u);
    FirstLivePlace(m, s, i, found, at);
    LivePrefix(m, s, i, |m|);
    forall k | 0 <= k < Place(m, s, i)
      ensures LiveEntries(m, s)[k].key.user < u
    {
      LiveHolds(m, s, i, LiveUpTo(m, s, i)[k]);
    }
  }

  // ----- the backward scan

  /** What FindPrevUserEntry has established when the entries from `b` up to `end`
      are behind it: `a` is the smallest visible one of them (none: |m|), and
      nothing but `a` can be live among them. */
  ghost predicate ScanningBack(m: seq<Entry>, s: nat, end: nat, b: nat, a: nat, kind: ValueType) {
    && b <= end <= |m| && b <= a
    && (forall j: nat :: b <= j < end && j < a ==> !Visible(m, s, j))
    && (forall j: nat :: b <= j < end && LiveAt(m, s, j) ==> j == a)
    && (a < end ==> Visible(m, s, a) && kind == m[a].key.kind)
    && (a >= end ==> kind == Deletion)
  }

  lemma ScanBackStarts(m: seq<Entry>, s: nat, end: nat)
    requires end <= |m|
    ensures ScanningBack(m, s, end, end, |m|, Deletion)
  {
  }

  lemma ScanBackPasses(m: seq<Entry>, s: nat, end: nat, p: nat, a: nat, kind: ValueType)
    requires ScanningBack(m, s, end, p + 1, a, kind) && p < |m| && !Visible(m, s, p)
    ensures ScanningBack(m, s, end, p, a, kind)
  {
  }

  lemma ScanBackEnds(m: seq<Entry>, s: nat, end: nat, a: nat, at: nat)
    requires ScanningBack(m, s, end, 0, a, Deletion) && end <= |m|
    ensures LastLive(m, s, end, false, at)
  {
  }

  lemma ScanBackTakes(m: seq<Entry>, s: nat, end: nat, p: nat, a: nat, kind: ValueType)
    requires Sorted(m) && ScanningBack(m, s, end, p + 1, a, kind) && Visible(m, s, p)
    requires kind == Value ==> m[p].key.user >= m[a].key.user
    ensures ScanningBack(m, s, end, p, p, m[p].key.kind)
  {
    if kind == Value {
      assert Before(m[p].key, m[a].key);
    }
  }

  lemma ScanBackStops(m: seq<Entry>, s: nat, end: nat, b: nat, a: nat)
    requires Sorted(m) && ScanningBack(m, s, end, b, a, Value)
    requires b > 0 ==> m[b - 1].key.user < m[a].key.user
    ensures LastLive(m, s, end, true, a) && BeforeGroup(m, s, b, a) && LiveAt(m, s, a)
  {
    forall j | 0 <= j < a && Visible(m, s, j)
      ensures m[j].key.user != m[a].key.user
    {
      if j < b - 1 {
        assert Before(m[j].key, m[b - 1].key);
      }
    }
  }

  /** Stepping back from a live entry to a smaller user key passes nothing live. */
  lemma NoneLiveInGroup(m: seq<Entry>, s: nat, b: nat, at: nat)
    requires at < |m| && LiveAt(m, s, at) && b <= at
    requires forall j: nat :: b <= j < at ==> m[j].key.user == m[at].key.user
    ensures NoneLive(m, s, b, at)
  {
  }

  class DBIter {
    const iter: MergingIterator
    const sequence: nat
    var direction: Direction
    var valid: bool
    var savedKey: Option<UserKey>
    var savedValue: Bytes
    ghost var at: nat    // where the current live entry is, when valid

    /** Where the entries not yet passed by a backward walk end. */
    ghost function End(): nat
      reads iter
    {
      if iter.at < |iter.merged| then iter.at + 1 else 0
    }

    ghost predicate Ok()
      reads this, iter, iter.children
    {
      && iter.Ok()
      && (valid ==> at < |iter.merged| && LiveAt(iter.merged, sequence, at))
      && (valid && direction == Forward ==> iter.at == at)
      && (valid && direction == Reverse ==>
            && BeforeGroup(iter.merged, sequence, End(), at)
            && savedKey == Some(iter.merged[at].key.user) && savedValue == iter.merged[at].value)
    }

    /** The user keys this iterator walks, with their values. */
    ghost function Live(): seq<Entry> {
      LiveEntries(iter.merged, sequence)
    }

    /** The place of the current entry among the live ones. */
    ghost function Index(): (k: nat)
      requires Ok() && valid
      reads this, iter, iter.children
      ensures k < |Live()| && Live()[k] == iter.merged[at]
    {
      PlaceOfLive(iter.merged, sequence, at);
      Place(iter.merged, sequence, at)
    }

    constructor (iter: MergingIterator, sequence: nat)
      requires iter.Ok()
      ensures Ok() && !valid && this.iter == iter && this.sequence == sequence
    {
      hide Scanning;
      this.iter := iter;
      this.sequence := sequence;
      direction := Forward;
      valid := false;
      savedKey := None;
      savedValue := [];
      at := 0;
    }

    method Current() returns (key: UserKey, value: Bytes)
      requires Ok() && valid
      ensures key == Live()[Index()].key.user && value == Live()[Index()].value
    {
      hide Scanning;
      if direction == Forward {
        var e := iter.Current();
        key, value := e.key.user, e.value;
      } else {
        key, value := savedKey.value, savedValue;
      }
    }

    /** The entry under the iterator: either it is the one sought, or it is passed over. */
    method Examine(skipping: bool, ghost from: nat) returns (found: bool, skip: bool)
      requires iter.Ok() && iter.at < |iter.merged| && (skipping ==> savedKey.Some?)
      requires Scanning(iter.merged, sequence, from, iter.at, skipping, savedKey)
      modifies this
      ensures direction == old(direction) && (skip ==> savedKey.Some?)
      ensures found ==> valid && at == iter.at && LiveAt(iter.merged, sequence, at) && FirstLive(iter.merged, sequence, from, true, at)
      ensures !found ==> Scanning(iter.merged, sequence, from, iter.at + 1, skip, savedKey)
    {
      hide Scanning;
      var e := iter.Current();
      found, skip := false, skipping;
      if e.key.seqno > sequence {
        ScanInvisible(iter.merged, sequence, from, iter.at, skipping, savedKey);
      } else if e.key.kind == Deletion {
        ScanDeletion(iter.merged, sequence, from, iter.at, skipping, savedKey);
        savedKey := Some(e.key.user);
        skip := true;
      } else if skipping && e.key.user <= savedKey.value {
        ScanHidden(iter.merged, sequence, from, iter.at, savedKey);
      } else {
        ScanFound(iter.merged, sequence, from, iter.at, skipping, savedKey);
        valid := true;
        at := iter.at;
        savedKey := None;
        found, skip := true, false;
      }
    }

    /** Scans forwards to the first live entry at or after `from`. */
    method FindNextUserEntry(skipping: bool, ghost from: nat)
      requires iter.Ok() && iter.at < |iter.merged| && direction == Forward
      requires Scanning(iter.merged, sequence, from, iter.at, skipping, savedKey) && (skipping ==> savedKey.Some?)
      modifies this, iter, iter.children
      ensures Ok() && FirstLive(iter.merged, sequence, from, valid, at) && direction == Forward
    {
      hide Scanning, MergingIterator.Ok, MergingIterator.Shape, IsMerge;
      iter.OkFacts();
      var skip := skipping;
      while true
        invariant iter.Ok() && iter.at < |iter.merged| && direction == Forward && (skip ==> savedKey.Some?)
        invariant Scanning(iter.merged, sequence, from, iter.at, skip, savedKey)
        decreases |iter.merged| - iter.at
      {
        var found;
        found, skip := Examine(skip, from);
        if found {
          return;
        }
        iter.OkFacts();
        iter.Next();
        iter.OkFacts();
        if !iter.Valid() {
          break;
        }
      }
      ScanEnds(iter.merged, sequence, from, skip, savedKey, at);
      savedKey := None;
      valid := false;
    }

    /** Scans backwards, over the entries not yet passed, to the last live one. */
    method FindPrevUserEntry()
      requires iter.Ok() && direction == Reverse
      modifies this, iter, iter.children
      ensures Ok() && LastLive(iter.merged, sequence, old(End()), valid, at)
    {
      hide ScanningBack, LastLive, BeforeGroup, MergingIterator.Ok, MergingIterator.Shape, IsMerge;
      iter.OkFacts();
      var kind := Deletion;
      ghost var end, a: nat := End(), |iter.merged|;
      ScanBackStarts(iter.merged, sequence, end);
      while iter.Valid()
        invariant iter.Ok() && direction == Reverse
        invariant ScanningBack(iter.merged, sequence, end, End(), a, kind)
        invariant kind == Value ==> a < |iter.merged| && savedKey == Some(iter.merged[a].key.user) && savedValue == iter.merged[a].value
        decreases End()
      {
        iter.OkFacts();
        var e := iter.Current();
        if e.key.seqno <= sequence {
          if kind != Deletion && e.key.user < savedKey.value {
            break;
          }
          ScanBackTakes(iter.merged, sequence, end, iter.at, a, kind);
          a := iter.at;
          kind := e.key.kind;
          if kind == Deletion {
            savedKey, savedValue := None, [];
          } else {
            savedKey, savedValue := Some(e.key.user), e.value;
          }
        } else {
          ScanBackPasses(iter.merged, sequence, end, iter.at, a, kind);
        }
        iter.Prev();
        iter.OkFacts();
      }
      iter.OkFacts();
      if kind == Deletion {
        ScanBackEnds(iter.merged, sequence, end, a, at);
        valid := false;
        savedKey, savedValue := None, [];
        direction := Forward;
      } else {
        ScanBackStops(iter.merged, sequence, end, End(), a);
        valid := true;
        at := a;
      }
    }

    method SeekToFirst()
      requires Ok()
      modifies this, iter, iter.children
      ensures Ok() && (valid <==> |Live()| > 0) && (valid ==> Index() == 0)
    {
      hide Scanning, MergingIterator.Ok, MergingIterator.Shape, IsMerge;
      iter.OkFacts();
      direction := Forward;
      savedValue := [];
      iter.SeekToFirst();
      iter.OkFacts();
      ScanFromStart(iter.merged, sequence, savedKey);
      if iter.Valid() {
        FindNextUserEntry(false, 0);
        FirstLivePlace(iter.merged, sequence, 0, valid, at);
      } else {
        valid := false;
      }
    }

    method SeekToLast()
      requires Ok()
      modifies this, iter, iter.children
      ensures Ok() && (valid <==> |Live()| > 0) && (valid ==> Index() == |Live()| - 1)
    {
      hide Scanning, MergingIterator.Ok, MergingIterator.Shape, IsMerge;
      iter.OkFacts();
      direction := Reverse;
      savedValue := [];
      iter.SeekToLast();
      iter.OkFacts();
      assert End() == |iter.merged|;
      FindPrevUserEntry();
      LastLivePlace(iter.merged, sequence, |iter.merged|, valid, at);
    }

    /** Stops at the first live user key that is not before `target`. */
    method Seek(target: UserKey)
      requires Ok()
      modifies this, iter, iter.children
      ensures Ok()
      ensures forall k :: 0 <= k < (if valid then Index() else |Live()|) ==> Live()[k].key.user < target
      ensures valid ==> Live()[Index()].key.user >= target
    {
      hide Scanning, MergingIterator.Ok, MergingIterator.Shape, IsMerge;
      iter.OkFacts();
      direction := Forward;
      savedKey, savedValue := None, [];
      iter.Seek(SeekKey(target, sequence));
      iter.OkFacts();
      ghost var from := iter.at;
      ScanAfterSeek(iter.merged, sequence, target);
      if iter.Valid() {
        FindNextUserEntry(false, from);
      } else {
        ScanEnds(iter.merged, sequence, from, false, None, at);
        valid := false;
      }
      SeekPlace(iter.merged, sequence, target, valid, at);
    }

    method Next()
      requires Ok() && valid
      modifies this, iter, iter.children
      ensures Ok() && (valid <==> old(Index()) + 1 < |Live()|) && (valid ==> Index() == old(Index()) + 1)
    {
      hide Scanning, MergingIterator.Ok, MergingIterator.Shape, IsMerge;
      iter.OkFacts();
      ghost var was := at;
      PlaceOfLive(iter.merged, sequence, was);
      if direction == Reverse {
        direction := Forward;
        ScanAfterGroup(iter.merged, sequence, End(), was);
        if !iter.Valid() {
          iter.SeekToFirst();
          iter.OkFacts();
        } else {
          iter.Next();
          iter.OkFacts();
        }
      } else {
        var e := iter.Current();
        savedKey := Some(e.key.user);
        ScanAfterLive(iter.merged, sequence, was);
        iter.Next();
        iter.OkFacts();
      }
      if !iter.Valid() {
        ScanEnds(iter.merged, sequence, was + 1, true, savedKey, at);
        valid := false;
        savedKey := None;
      } else {
        FindNextUserEntry(true, was + 1);
      }
      FirstLivePlace(iter.merged, sequence, was + 1, valid, at);
    }

    method Prev()
      requires Ok() && valid
      modifies this, iter, iter.children
      ensures Ok() && (valid <==> old(Index()) > 0) && (valid ==> Index() == old(Index()) - 1)
    {
      hide Scanning, MergingIterator.Ok, MergingIterator.Shape, IsMerge;
      iter.OkFacts();
      ghost var was := at;
      if direction == Forward {
        var e := iter.Current();
        savedKey := Some(e.key.user);
        var leaving := StepBackToSmallerKey(savedKey.value);
        NoneLiveInGroup(iter.merged, sequence, End(), was);
        if !leaving {
          valid := false;
          savedKey, savedValue := None, [];
          LastLivePlace(iter.merged, sequence, was, false, at);
          return;
        }
        direction := Reverse;
      }
      FindPrevUserEntry();
      LastLivePlace(iter.merged, sequence, was, valid, at);
    }

    /** Moves back while the user key is not smaller than `u`; says whether one smaller was found. */
    method StepBackToSmallerKey(u: UserKey) returns (found: bool)
      requires iter.Ok() && iter.at < |iter.merged| && iter.merged[iter.at].key.user == u
      modifies iter, iter.children
      ensures iter.Ok() && found == (iter.at < |iter.merged|) && End() <= old(iter.at)
      ensures found ==> iter.merged[iter.at].key.user < u
      ensures forall j: nat :: End() <= j < old(iter.at) ==> iter.merged[j].key.user == u
    {
      hide Scanning, MergingIterator.Ok, MergingIterator.Shape, IsMerge;
      iter.OkFacts();
      while true
        invariant iter.Ok() && iter.at < |iter.merged| && iter.at <= old(iter.at)
        invariant forall j: nat :: iter.at <= j <= old(iter.at) ==> iter.merged[j].key.user == u
        decreases iter.at
      {
        ghost var p := iter.at;
        iter.OkFacts();
        iter.Prev();
        iter.OkFacts();
        if !iter.Valid() {
          return false;
        }
        assert Before(iter.merged[p - 1].key, iter.merged[p].key);
        var e := iter.Current();
        if e.key.user < u {
          return true;
        }
      }
    }
  }
}
