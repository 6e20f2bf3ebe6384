/** The filter block (`table/filter_block.cc`): one filter for each 2 KB of file
    offsets, made from the keys of the blocks that begin there. */
module FilterBlock {
  import Bits
  import opened Bloom
  import opened Coding
  import opened Comparator
  import opened Concat
  import opened Keys

  const FILTER_BASE_LG: Byte := 11
  const FILTER_BASE: nat := 2048

  // ----- strings end to end

  /** Where each of the strings begins. */
  ghost predicate Begins(ss: seq<Bytes>, at: seq<nat>) {
    |at| == |ss| && forall i: nat {:trigger at[i]} :: i < |ss| ==> at[i] == Ends(ss, i)
  }

  lemma BeginsGrows(ss: seq<Bytes>, at: seq<nat>, s: Bytes)
    requires Begins(ss, at)
    ensures Begins(ss + [s], at + [|Flat(ss)|]) && Flat(ss + [s]) == Flat(ss) + s
  {
    var r := ss + [s];
    assert r[..|ss|] == ss;
    forall i: nat | i < |r|
      ensures (at + [|Flat(ss)|])[i] == Ends(r, i)
    {
      assert r[..i] == if i < |ss| then ss[..i] else ss;
    }
  }

  // ----- what the filters are made from

  function UserKeys(keys: seq<Bytes>): (r: seq<Bytes>)
    requires forall k :: k in keys ==> |k| >= 8
    ensures |r| == |keys| && forall i :: 0 <= i < |r| ==> r[i] == ExtractUserKey(keys[i])
  {
    seq(|keys|, i requires 0 <= i < |keys| => ExtractUserKey(keys[i]))
  }

  predicate AllInternal(keys: seq<Bytes>) {
    forall k :: k in keys ==> |k| >= 8
  }

  /** The filter of a group of keys, which is of their user keys; no keys, no filter. */
  ghost predicate Filters(p: Policy, group: seq<Bytes>, f: Bytes) {
    AllInternal(group) && if group == [] then f == [] else IsFilter(p, UserKeys(group), f)
  }

  ghost predicate AllFilter(p: Policy, groups: seq<seq<Bytes>>, filters: seq<Bytes>) {
    |groups| == |filters| && forall i :: 0 <= i < |groups| ==> Filters(p, groups[i], filters[i])
  }

  lemma AllFilterGrows(p: Policy, groups: seq<seq<Bytes>>, filters: seq<Bytes>, group: seq<Bytes>, f: Bytes)
    requires AllFilter(p, groups, filters) && Filters(p, group, f)
    ensures AllFilter(p, groups + [group], filters + [f])
  {
    hide Filters;
  }

  function Offsets(at: seq<nat>): Bytes {
    if at == [] then [] else Offsets(at[..|at| - 1]) + Fixed(at[|at| - 1], 4)
  }

  /** The filters, where each begins, where those offsets begin, and the base. */
  function FilterContents(filters: seq<Bytes>, at: seq<nat>): Bytes {
    Flat(filters) + Offsets(at) + Fixed(|Flat(filters)|, 4) + [FILTER_BASE_LG]
  }

  class FilterBlockBuilder {
    const policy: Policy
    var keys: Bytes
    var start: seq<nat>
    var result: Bytes
    var filterOffsets: seq<nat>
    /** Keys that are in no filter yet, and the keys of each filter. */
    ghost var pending: seq<Bytes>
    ghost var groups: seq<seq<Bytes>>
    ghost var filters: seq<Bytes>

    ghost predicate Valid()
      reads this
    {
      && IsPolicy(policy) && AllInternal(pending) && keys == Flat(pending) && Begins(pending, start)
      && AllFilter(policy, groups, filters) && result == Flat(filters) && Begins(filters, filterOffsets)
    }

    constructor (policy: Policy)
      requires IsPolicy(policy)
      ensures Valid() && this.policy == policy && pending == [] && groups == []
    {
      this.policy := policy;
      keys, start, result, filterOffsets := [], [], [], [];
      pending, groups, filters := [], [], [];
    }

    /** AddKey. */
    method AddKey(key: Bytes)
      requires Valid() && |key| >= 8
      modifies this
      ensures Valid() && pending == old(pending) + [key] && groups == old(groups)
    {
      BeginsGrows(pending, start, key);
      start := start + [|keys|];
      keys := keys + key;
      pending := pending + [key];
    }

    /** StartBlock: filters are made until there is one for every 2 KB before the offset.
        The first takes the keys there are, the others are empty. */
    method StartBlock(blockOffset: nat)
      requires Valid() && blockOffset / FILTER_BASE >= |groups|
      modifies this
      ensures Valid() && |groups| == blockOffset / FILTER_BASE && old(groups) <= groups
      ensures if |groups| == |old(groups)| then pending == old(pending) else pending == [] && groups[|old(groups)|] == old(pending)
      ensures forall i :: |old(groups)| < i < |groups| ==> groups[i] == []
    {
      hide Flat, Filters, Begins;
      var filterIndex := blockOffset / FILTER_BASE;
      GroupsMatch();
      while filterIndex > |filterOffsets|
        invariant Valid() && |filterOffsets| == |groups| <= filterIndex && old(groups) <= groups
        invariant if |groups| == |old(groups)| then pending == old(pending) else pending == [] && groups[|old(groups)|] == old(pending)
        invariant forall i :: |old(groups)| < i < |groups| ==> groups[i] == []
      {
        GenerateFilter();
        GroupsMatch();
      }
    }

    lemma GroupsMatch()
      requires Valid()
      ensures |filterOffsets| == |groups| && |start| == |pending|
    {
    }

    /** GenerateFilter: a filter of the keys there are, which may be none. */
    method GenerateFilter()
      requires Valid()
      modifies this
      ensures Valid() && pending == [] && groups == old(groups) + [old(pending)]
    {
      hide Flat, Begins, IsFilter, Ends, AllFilter, UserKeys;
      GroupsMatch();
      Nothing();
      var numKeys := |start|;
      if numKeys == 0 {
        BeginsGrows(filters, filterOffsets, []);
        AllFilterGrows(policy, groups, filters, [], []);
        filterOffsets := filterOffsets + [|result|];
        groups, filters := groups + [[]], filters + [[]];
        assert result == result + [];
        return;
      }
      var tmpKeys := KeyList();
      filterOffsets := filterOffsets + [|result|];
      result := CreateFilter(policy, tmpKeys, result);
      ghost var f := result[|old(result)|..];
      assert result == old(result) + f;
      BeginsGrows(filters, old(filterOffsets), f);
      AllFilterGrows(policy, groups, filters, pending, f);
      groups, filters := groups + [pending], filters + [f];
      pending, keys, start := [], [], [];
    }

    /** The keys, cut out of the string they were put in, and of each its user key
        (InternalFilterPolicy::CreateFilter). */
    method KeyList() returns (tmp: seq<Bytes>)
      requires Valid()
      ensures tmp == UserKeys(pending)
    {
      hide Flat;
      GroupsMatch();
      tmp := [];
      for i := 0 to |start|
        invariant |tmp| == i && forall k :: 0 <= k < i ==> tmp[k] == ExtractUserKey(pending[k])
      {
        assert start[i] == Ends(pending, i);
        FlatAt(pending, i);
        if i + 1 == |start| {
          assert pending[..i + 1] == pending;
        } else {
          assert start[i + 1] == Ends(pending, i + 1);
        }
        var limit := if i + 1 < |start| then start[i + 1] else |keys|;
        var key := keys[start[i]..limit];
        assert key == pending[i];
        tmp := tmp + [ExtractUserKey(key)];
      }
    }

    /** Finish: the whole block. */
    method Finish() returns (r: Bytes)
      requires Valid()
      modifies this
      ensures groups == old(groups) + (if old(pending) == [] then [] else [old(pending)]) && AllFilter(policy, groups, filters)
      ensures Begins(filters, filterOffsets) && r == FilterContents(filters, filterOffsets)
    {
      hide Flat, Filters, Begins, AllInternal;
      GroupsMatch();
      if start != [] {
        GenerateFilter();
      }
      result := AppendOffsets(result, filterOffsets);
      r := result;
    }
  }

  /** The second half of Finish. */
  method AppendOffsets(filters: Bytes, at: seq<nat>) returns (r: Bytes)
    ensures r == filters + Offsets(at) + Fixed(|filters|, 4) + [FILTER_BASE_LG]
  {
    hide Fixed;
    r := filters;
    for i := 0 to |at|
      invariant r == filters + Offsets(at[..i])
    {
      OffsetsNext(filters, at, i);
      r := r + Fixed(at[i], 4);
    }
    assert at[..|at|] == at;
    r := r + Fixed(|filters|, 4);
    r := r + [FILTER_BASE_LG];
  }

  lemma Nothing()
    ensures Flat<Byte>([]) == [] && Begins([], []) && AllInternal([])
  {
  }

  lemma OffsetsNext(before: Bytes, at: seq<nat>, i: nat)
    requires i < |at|
    ensures before + Offsets(at[..i + 1]) == before + Offsets(at[..i]) + Fixed(at[i], 4)
  {
    assert at[..i + 1][..i] == at[..i];
    ConcatAssoc(before, Offsets(at[..i]), Fixed(at[i], 4));
  }

  // ----- reading

  /** FilterBlockReader: where the filters end and the offsets begin, how many there
      are, and the base. Contents that make no sense have no filters. */
  datatype Shape = Shape(offset: nat, num: nat, baseLg: Byte)

  function ReadShape(contents: Bytes): (s: Shape)
    ensures s.num > 0 ==> |contents| >= 5 && s.offset + 4 * s.num + 5 <= |contents|
  {
    var n := |contents|;
    if n < 5 then Shape(0, 0, 0)
    else
      var lastWord := DecodeFixed32(contents[n - 5..]);
      if lastWord > n - 5 then Shape(0, 0, contents[n - 1])
      else Shape(lastWord, (n - 5 - lastWord) / 4, contents[n - 1])
  }

  function Word(contents: Bytes, i: nat): nat
    requires i + 4 <= |contents|
  {
    DecodeFixed32(contents[i..])
  }

  /** KeyMayMatch: no answer but "maybe" where there is no filter. */
  method KeyMayMatch(p: Policy, contents: Bytes, blockOffset: nat, key: Bytes) returns (b: bool)
    requires |key| >= 8
    ensures b == MayMatchAt(p, contents, blockOffset, key)
  {
    hide MayMatch, BaseOf;
    var s := ReadShape(contents);
    var index := IndexOf(blockOffset, BaseOf(s));
    if index < s.num {
      var start := Word(contents, s.offset + index * 4);
      var limit := Word(contents, s.offset + index * 4 + 4);
      ghost var answer := FilterAnswers(p, contents, s.offset, index, ExtractUserKey(key));
      if start <= limit && limit <= s.offset {
        b := Bloom.KeyMayMatch(p, ExtractUserKey(key), contents[start..limit]);
        return;
      } else if start == limit {
        return false;
      }
    }
    b := true;
  }

  function BaseOf(s: Shape): (r: nat)
    ensures r > 0
  {
    Bits.PowIsPositive(s.baseLg as nat);
    Pow(2, s.baseLg as nat)
  }

  function IndexOf(blockOffset: nat, base: nat): nat
    requires base > 0
  {
    blockOffset / base
  }

  /** What KeyMayMatch answers. */
  predicate MayMatchAt(p: Policy, contents: Bytes, blockOffset: nat, key: Bytes)
    requires |key| >= 8
  {
    var s := ReadShape(contents);
    var index := IndexOf(blockOffset, BaseOf(s));
    index < s.num ==> FilterAnswers(p, contents, s.offset, index, ExtractUserKey(key))
  }

  predicate FilterAnswers(p: Policy, contents: Bytes, offset: nat, index: nat, user: Bytes)
    requires offset + 4 * index + 9 <= |contents|
  {
    var start, limit := Word(contents, offset + index * 4), Word(contents, offset + index * 4 + 4);
    if start <= limit && limit <= offset then MayMatch(p, user, contents[start..limit]) else start != limit
  }

  // ----- what is written is read back

  lemma {:induction false} OffsetsAt(at: seq<nat>, i: nat)
    requires i < |at|
    ensures |Offsets(at)| == 4 * |at| && Offsets(at)[4 * i..4 * i + 4] == Fixed(at[i], 4)
  {
    hide Fixed;
    OffsetsLength(at);
    var last := |at| - 1;
    OffsetsLength(at[..last]);
    if i < last {
      OffsetsAt(at[..last], i);
      assert Offsets(at)[4 * i..4 * i + 4] == Offsets(at[..last])[4 * i..4 * i + 4];
    }
  }

  lemma {:induction false} OffsetsLength(at: seq<nat>)
    ensures |Offsets(at)| == 4 * |at|
  {
    if at != [] {
      OffsetsLength(at[..|at| - 1]);
    }
  }

  /** A block shorter than 4 GB opens as it was written. */
  lemma OpensShape(filters: seq<Bytes>, at: seq<nat>)
    requires |FilterContents(filters, at)| < 0x1_0000_0000
    ensures ReadShape(FilterContents(filters, at)) == Shape(|Flat(filters)|, |at|, FILTER_BASE_LG)
  {
    hide Flat, Offsets, Little;
    OffsetsLength(at);
    var size := |Flat(filters)|;
    var before := Flat(filters) + Offsets(at);
    LastFive(before, Fixed(size, 4));
    FixedRoundTrip(size, 4);
  }

  lemma LastFive(before: Bytes, word: Bytes)
    requires |word| == 4
    ensures var r := before + word + [FILTER_BASE_LG];
            r[|r| - 5..][..4] == word && r[|r| - 1] == FILTER_BASE_LG && |r| - 5 == |before|
  {
    var r := before + word + [FILTER_BASE_LG];
    assert r[|r| - 5..] == word + [FILTER_BASE_LG];
  }

  /** Every filter is read back where its offset says. */
  lemma FilterAt(filters: seq<Bytes>, at: seq<nat>, i: nat)
    requires i < |filters| && Begins(filters, at) && |FilterContents(filters, at)| < 0x1_0000_0000
    ensures var contents, size := FilterContents(filters, at), |Flat(filters)|;
            && |contents| >= size + 4 * i + 8
            && Word(contents, size + i * 4) == Ends(filters, i) <= Ends(filters, i + 1) <= size
            && Word(contents, size + i * 4 + 4) == Ends(filters, i + 1)
            && contents[Ends(filters, i)..Ends(filters, i + 1)] == filters[i]
  {
    hide Flat, Offsets, Little, Fixed, FilterContents, Ends;
    FilterPrefix(filters, at);
    FlatAt(filters, i);
    EndsGrow(filters, i, i + 1);
    var flat, size := Flat(filters), |Flat(filters)|;
    var contents := FilterContents(filters, at);
    assert at[i] == Ends(filters, i);
    WordAt(filters, at, i);
    FixedRoundTrip(Ends(filters, i), 4);
    if i + 1 < |filters| {
      assert at[i + 1] == Ends(filters, i + 1);
      WordAt(filters, at, i + 1);
    } else {
      WordAt(filters, at, i + 1);
    }
    FixedRoundTrip(Ends(filters, i + 1), 4);
    assert contents[Ends(filters, i)..Ends(filters, i + 1)] == contents[..size][Ends(filters, i)..Ends(filters, i + 1)];
  }

  lemma FilterPrefix(filters: seq<Bytes>, at: seq<nat>)
    ensures var contents, size := FilterContents(filters, at), |Flat(filters)|;
            |contents| == size + 4 * |at| + 5 && contents[..size] == Flat(filters)
  {
    hide Flat, Offsets, Fixed;
    OffsetsLength(at);
  }

  /** Word `i` after the filters: where filter `i` begins, or, after the last, where the
      filters end. */
  lemma WordAt(filters: seq<Bytes>, at: seq<nat>, i: nat)
    requires i <= |at|
    ensures var contents, size := FilterContents(filters, at), |Flat(filters)|;
            && |contents| >= size + 4 * i + 4
            && contents[size + i * 4..][..4] == Fixed(if i < |at| then at[i] else size, 4)
  {
    hide Flat, Offsets, Fixed;
    OffsetsLength(at);
    var flat, size := Flat(filters), |Flat(filters)|;
    var contents := FilterContents(filters, at);
    assert contents[size + i * 4..][..4] == contents[size + i * 4..size + i * 4 + 4];
    if i < |at| {
      OffsetsAt(at, i);
      assert contents[size + i * 4..size + i * 4 + 4] == Offsets(at)[4 * i..4 * i + 4];
    } else {
      assert contents[size + i * 4..size + i * 4 + 4] == Fixed(size, 4);
    }
  }

  /** The filter block never hides a key: if the key's user key is that of a key whose
      block begins in the 2 KB of this offset, the answer is "maybe". */
  lemma NeverHides(p: Policy, groups: seq<seq<Bytes>>, filters: seq<Bytes>, at: seq<nat>, blockOffset: nat, stored: Bytes, key: Bytes)
    requires IsPolicy(p) && AllFilter(p, groups, filters) && Begins(filters, at) && |FilterContents(filters, at)| < 0x1_0000_0000
    requires blockOffset / FILTER_BASE < |groups| && stored in groups[blockOffset / FILTER_BASE]
    requires |key| >= 8 && |stored| >= 8 && ExtractUserKey(key) == ExtractUserKey(stored)
    ensures MayMatchAt(p, FilterContents(filters, at), blockOffset, key)
  {
    hide Flat, Offsets, Filters, MayMatch, FilterContents, ReadShape, Ends, Word, Begins;
    OpensShape(filters, at);
    var i := blockOffset / FILTER_BASE;
    FilterAt(filters, at, i);
    BaseIs();
    GroupNeverMisses(p, groups[i], filters[i], stored, key);
  }

  lemma GroupNeverMisses(p: Policy, group: seq<Bytes>, f: Bytes, stored: Bytes, key: Bytes)
    requires IsPolicy(p) && Filters(p, group, f) && stored in group
    requires |key| >= 8 && |stored| >= 8 && ExtractUserKey(key) == ExtractUserKey(stored)
    ensures MayMatch(p, ExtractUserKey(key), f)
  {
    hide IsFilter, MayMatch;
    var k :| 0 <= k < |group| && group[k] == stored;
    assert UserKeys(group)[k] == ExtractUserKey(stored);
    NeverMisses(p, UserKeys(group), f, ExtractUserKey(key));
  }

  lemma BaseIs()
    ensures Pow(2, FILTER_BASE_LG as nat) == FILTER_BASE
  {
    assert Pow(2, 4) == 16 && Pow(2, 7) == 128;
  }

  /** The filter block answers for a file offset what the filter of its 2 KB answers; no
      where no block begins in them; and "maybe" past the last of them. */
  lemma AnswersAreExact(p: Policy, groups: seq<seq<Bytes>>, filters: seq<Bytes>, at: seq<nat>, blockOffset: nat, key: Bytes)
    requires IsPolicy(p) && AllFilter(p, groups, filters) && Begins(filters, at) && |FilterContents(filters, at)| < 0x1_0000_0000
    requires |key| >= 8
    ensures var i := blockOffset / 2048;
            MayMatchAt(p, FilterContents(filters, at), blockOffset, key)
            <==> (i < |groups| ==> groups[i] != [] && MayMatch(p, ExtractUserKey(key), filters[i]))
  {
    hide Flat, Offsets, MayMatch, FilterContents, ReadShape, Ends, Word, IsFilter;
    OpensShape(filters, at);
    BaseIs();
    var i := blockOffset / FILTER_BASE;
    if i < |groups| {
      FilterAt(filters, at, i);
      assert Filters(p, groups[i], filters[i]);
      if groups[i] == [] {
        MatchAtTheEnds(p, ExtractUserKey(key), filters[i]);
      }
    }
  }

  /** Contents too short for a filter block, or whose offsets would begin past its end,
      never say no. */
  lemma NoFiltersHideNothing(p: Policy, contents: Bytes, blockOffset: nat, key: Bytes)
    requires |key| >= 8 && (|contents| < 5 || Little(contents[|contents| - 5..|contents| - 1]) > |contents| - 5)
    ensures MayMatchAt(p, contents, blockOffset, key)
  {
    if |contents| >= 5 {
      assert contents[|contents| - 5..][..4] == contents[|contents| - 5..|contents| - 1];
    }
  }
}
