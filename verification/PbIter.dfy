/** Going through the fields of a message type (`pb_common.c`), and keeping track of
    the required ones (`pb_decode.c`). */
module PbIter {
  import opened Bits
  import opened Coding
  import opened Pb

  /** What of a field descriptor the iterator looks at. */
  datatype Entry = Entry(tag: nat, required: bool, isExtension: bool)

  function EntriesOf(fields: seq<Field>): (r: seq<Entry>)
    ensures |r| == |fields|
    ensures forall i :: 0 <= i < |r| ==> r[i] == Entry(fields[i].tag, fields[i].rule == Required, false)
  {
    seq(|fields|, i requires 0 <= i < |fields| => Entry(fields[i].tag, fields[i].rule == Required, false))
  }

  /** The terminator behind the fields: all zero, which reads as a required field. */
  const TERMINATOR: Entry := Entry(0, true, false)

  function RequiredBefore(entries: seq<Entry>, i: nat): (r: nat)
    requires i <= |entries|
    ensures r <= i
  {
    if i == 0 then 0 else RequiredBefore(entries, i - 1) + if entries[i - 1].required then 1 else 0
  }

  lemma {:induction false} RequiredGrows(entries: seq<Entry>, i: nat, j: nat)
    requires i < j <= |entries|
    ensures RequiredBefore(entries, i) + (if entries[i].required then 1 else 0) <= RequiredBefore(entries, j)
    decreases j
  {
    if i < j - 1 {
      RequiredGrows(entries, i, j - 1);
    }
  }

  /** Every number up to their count is that of a required field. */
  lemma {:induction false} RequiredAt(entries: seq<Entry>, n: nat, j: nat) returns (i: nat)
    requires n <= |entries| && j < RequiredBefore(entries, n)
    ensures i < n && entries[i].required && RequiredBefore(entries, i) == j
    decreases n
  {
    if j < RequiredBefore(entries, n - 1) {
      i := RequiredAt(entries, n - 1, j);
    } else {
      i := n - 1;
    }
  }

  /** A field of this tag that is not an extension placeholder. */
  ghost predicate HasField(entries: seq<Entry>, tag: nat) {
    exists i :: 0 <= i < |entries| && entries[i].tag == tag && !entries[i].isExtension
  }

  class FieldIter {
    const entries: seq<Entry>
    var pos: nat
    var requiredFieldIndex: nat

    /** The iterator stands on a field; only in a message type without fields does it
        stand on the terminator. */
    ghost predicate Valid()
      reads this
    {
      && (forall i :: 0 <= i < |entries| ==> entries[i].tag != 0)
      && (if entries == [] then pos == 0 else pos < |entries|)
      && requiredFieldIndex == RequiredBefore(entries, pos)
    }

    function At(i: nat): Entry {
      if i < |entries| then entries[i] else TERMINATOR
    }

    constructor (entries: seq<Entry>)
      requires forall i :: 0 <= i < |entries| ==> entries[i].tag != 0
      ensures Valid() && this.entries == entries && pos == 0
    {
      this.entries := entries;
      pos := 0;
      requiredFieldIndex := 0;
    }

    /** pb_field_iter_begin: back to the first field; whether there is one. */
    method Begin() returns (ok: bool)
      requires forall i :: 0 <= i < |entries| ==> entries[i].tag != 0
      modifies this
      ensures Valid() && pos == 0 && (ok <==> entries != [])
    {
      pos := 0;
      requiredFieldIndex := 0;
      ok := At(pos).tag != 0;
    }

    /** pb_field_iter_next: on to the next field, or around to the first. */
    method Next() returns (ok: bool)
      requires Valid()
      modifies this
      ensures Valid() && (ok <==> old(pos) + 1 < |entries|) && pos == if ok then old(pos) + 1 else 0
    {
      var prev := At(pos);
      if prev.tag == 0 {
        return false;
      }
      pos := pos + 1;
      if At(pos).tag == 0 {
        var b := Begin();
        return false;
      }
      if prev.required {
        requiredFieldIndex := requiredFieldIndex + 1;
      }
      ok := true;
    }

    /** The entry `k` steps on from `start`, around the end. */
    function Ahead(start: nat, k: nat): nat
      requires start < |entries| && k <= |entries|
    {
      if start + k < |entries| then start + k else start + k - |entries|
    }

    /** pb_field_iter_find: from wherever the iterator stands, it comes to the field of a
        tag if there is one, and else back to where it was. The only tag found without
        a field is zero, in a message type without fields. */
    method Find(tag: nat) returns (found: bool)
      requires Valid()
      modifies this
      ensures Valid() && (found <==> HasField(entries, tag) || (entries == [] && tag == 0))
      ensures found ==> At(pos).tag == tag && !At(pos).isExtension
      ensures !found ==> pos == old(pos)
    {
      var start := pos;
      if At(pos).tag == tag && !At(pos).isExtension {
        return true;
      }
      var more := Next();
      ghost var k := 1;
      while pos != start
        invariant Valid() && entries != [] ==> start < |entries| && 1 <= k <= |entries| && pos == Ahead(start, k)
        invariant Valid() && (entries == [] ==> pos == start)
        invariant entries != [] ==> forall j :: 0 <= j < k ==> !(entries[Ahead(start, j)].tag == tag && !entries[Ahead(start, j)].isExtension)
        decreases |entries| - k
      {
        if At(pos).tag == tag && !At(pos).isExtension {
          return true;
        }
        more := Next();
        k := k + 1;
      }
      if entries != [] {
        WentAround(start, k, tag);
      }
      found := false;
    }

    lemma WentAround(start: nat, k: nat, tag: nat)
      requires start < |entries| && 1 <= k <= |entries| && Ahead(start, k) == start
      requires forall j :: 0 <= j < k ==> !(entries[Ahead(start, j)].tag == tag && !entries[Ahead(start, j)].isExtension)
      ensures !HasField(entries, tag)
    {
      forall i | 0 <= i < |entries|
        ensures !(entries[i].tag == tag && !entries[i].isExtension)
      {
        var j := if i >= start then i - start else i + |entries| - start;
        assert Ahead(start, j) == i;
      }
    }
  }

  // ----- required fields

  const MAX_REQUIRED: nat := 64

  /** `fields_seen`: two words of 32 bits, a bit for each of the first 64 required fields. */
  class FieldsSeen {
    var words: array<nat>
    /** The required fields seen, by how many are in front of them. */
    ghost var seen: set<nat>

    ghost predicate Valid()
      reads this, words
    {
      && words.Length == 2
      && (forall j: nat {:trigger j in seen} :: j in seen ==> j < MAX_REQUIRED)
      && (forall k: nat {:trigger HasBit(words[0], k)} :: HasBit(words[0], k) <==> k < 32 && k in seen)
      && (forall k: nat {:trigger HasBit(words[1], k)} :: HasBit(words[1], k) <==> k < 32 && 32 + k in seen)
    }

    constructor ()
      ensures Valid() && seen == {} && fresh(words)
    {
      words := new nat[2](_ => 0);
      seen := {};
      new;
      forall k: nat ensures !HasBit(0, k) { ZeroHasNone(k); }
    }

    method Mark(index: nat)
      requires Valid() && index < MAX_REQUIRED
      modifies this, words
      ensures Valid() && words == old(words) && seen == old(seen) + {index}
    {
      hide HasBit, WithBit;
      ghost var word := words[index / 32];
      words[index / 32] := WithBit(words[index / 32], index % 32);
      seen := seen + {index};
      forall k: nat {:trigger HasBit(words[index / 32], k)} | true
        ensures HasBit(words[index / 32], k) <==> k == index % 32 || HasBit(word, k)
      {
        WithBitHas(word, index % 32, k);
      }
    }

    /** The test at the end of pb_decode_noinit: whole words, then the bits that remain. */
    method Complete(reqFieldCount: nat) returns (ok: bool)
      requires Valid() && (reqFieldCount > 0 ==> forall j :: j in seen ==> j < reqFieldCount)
      ensures ok <==> forall j: nat {:trigger j in seen} :: j < reqFieldCount && j < MAX_REQUIRED ==> j in seen
    {
      hide HasBit;
      var count := if reqFieldCount > MAX_REQUIRED then MAX_REQUIRED else reqFieldCount;
      ok := true;
      if count > 0 {
        var i := 0;
        while i < count / 32
          invariant i <= count / 32
          invariant forall j: nat {:trigger j in seen} :: j < 32 * i ==> j in seen
        {
          IsLowBits(words[i], 32);
          if words[i] != Pow(2, 32) - 1 {
            var k: nat :| HasBit(words[i], k) != (k < 32);
            assert 32 * i + k !in seen;
            return false;
          }
          forall j: nat {:trigger j in seen} | j < 32 * (i + 1)
            ensures j in seen
          {
            assert j >= 32 * i ==> HasBit(words[i], j - 32 * i);
          }
          i := i + 1;
        }
        if count % 32 != 0 {
          IsLowBits(words[count / 32], count % 32);
          if words[count / 32] != Pow(2, count % 32) - 1 {
            var k: nat :| HasBit(words[count / 32], k) != (k < count % 32);
            assert count / 32 * 32 + k in seen <==> HasBit(words[count / 32], k);
            return false;
          }
          forall j: nat {:trigger j in seen} | j < count
            ensures j in seen
          {
            assert j >= count / 32 * 32 ==> HasBit(words[count / 32], j - count / 32 * 32);
          }
        }
      }
    }
  }
}
