/** Batches and edits that were cut off (`db/write_batch.cc`, `db/version_edit.cc`): what
    comes before is read, and then the reading fails. */
module CutOff {
  import opened Coding
  import opened Keys
  import WriteBatch
  import VersionEdit

  /** `s` is `w` without its end. */
  predicate IsCut(s: Bytes, w: Bytes) {
    |s| < |w| && s == w[..|s|]
  }

  /** A cut is in the first part, or behind it. */
  lemma CutParts(s: Bytes, a: Bytes, b: Bytes)
    requires IsCut(s, a + b)
    ensures IsCut(s, a) || (|a| <= |s| && s == a + s[|a|..] && IsCut(s[|a|..], b))
  {
    if |s| < |a| {
      assert (a + b)[..|s|] == a[..|s|];
    } else {
      assert (a + b)[..|s|] == a + b[..|s| - |a|];
    }
  }

  lemma {:induction false} VarintCut(s: Bytes, v: nat, n: nat)
    requires IsCut(s, Varint(v))
    ensures ParseVarint(s, n) == None
    decreases n
  {
    if n > 0 && s != [] {
      assert s[0] == Varint(v)[0] && v >= 128;
      assert s[1..] == Varint(v)[1..][..|s| - 1];
      VarintCut(s[1..], v / 128, n - 1);
    }
  }

  lemma PrefixedCut(s: Bytes, w: Bytes)
    requires |w| < 0x1_0000_0000 && IsCut(s, LengthPrefixed(w))
    ensures ParseLengthPrefixed(s) == None
  {
    hide Varint, ParseVarint;
    CutParts(s, Varint(|w|), w);
    if IsCut(s, Varint(|w|)) {
      VarintCut(s, |w|, 5);
    } else {
      Varint32RoundTrip(|w|, s[|Varint(|w|)|..]);
    }
  }

  // ----- batches

  /** An update of which the end is missing. */
  lemma RecordCut(s: Bytes, op: WriteBatch.Update)
    requires WriteBatch.Fits(op) && s != [] && IsCut(s, WriteBatch.Record(op))
    ensures WriteBatch.ParseRecord(s) == (if op.Put? then WriteBatch.BadPut else WriteBatch.BadDelete, None)
  {
    hide LengthPrefixed, ParseLengthPrefixed;
    match op
    case Put(key, value) =>
      assert WriteBatch.Record(op) == [1] + (LengthPrefixed(key) + LengthPrefixed(value));
      CutParts(s, [1], LengthPrefixed(key) + LengthPrefixed(value));
      CutParts(s[1..], LengthPrefixed(key), LengthPrefixed(value));
      if IsCut(s[1..], LengthPrefixed(key)) {
        PrefixedCut(s[1..], key);
      } else {
        LengthPrefixedRoundTrip(key, s[1..][|LengthPrefixed(key)|..]);
        PrefixedCut(s[1..][|LengthPrefixed(key)|..], value);
      }
    case Delete(key) =>
      CutParts(s, [0], LengthPrefixed(key));
      PrefixedCut(s[1..], key);
  }

  /** A batch that was cut off: the handler is given the updates before the cut; a put or a
      deletion that was cut is told apart. */
  lemma {:induction false} BatchCut(ops: seq<WriteBatch.Update>, op: WriteBatch.Update, s: Bytes)
    requires WriteBatch.AllFit(ops) && WriteBatch.Fits(op) && s != [] && IsCut(s, WriteBatch.Record(op))
    ensures WriteBatch.ParseRecords(WriteBatch.Records(ops) + s) == (ops, if op.Put? then WriteBatch.BadPut else WriteBatch.BadDelete)
    decreases |ops|
  {
    hide WriteBatch.ParseRecord, WriteBatch.Record;
    if ops == [] {
      assert WriteBatch.Records([]) + s == s;
      RecordCut(s, op);
    } else {
      FirstRecord(ops, s);
      BatchCut(ops[1..], op, s);
      assert ops == [ops[0]] + ops[1..];
    }
  }

  lemma FirstRecord(ops: seq<WriteBatch.Update>, s: Bytes)
    requires ops != [] && WriteBatch.Fits(ops[0])
    ensures var p := WriteBatch.ParseRecords(WriteBatch.Records(ops[1..]) + s);
            WriteBatch.ParseRecords(WriteBatch.Records(ops) + s) == ([ops[0]] + p.0, p.1)
  {
    hide WriteBatch.ParseRecord, WriteBatch.Record;
    assert ops == [ops[0]] + ops[1..];
    WriteBatch.RecordsConcat([ops[0]], ops[1..]);
    WriteBatch.RecordsOne(ops[0]);
    var rest := WriteBatch.Records(ops[1..]) + s;
    ConcatAssoc(WriteBatch.Record(ops[0]), WriteBatch.Records(ops[1..]), s);
    WriteBatch.RecordRoundTrip(ops[0], rest);
    RecordIsSome(ops[0]);
  }

  lemma RecordIsSome(op: WriteBatch.Update)
    ensures WriteBatch.Record(op) != []
  {
  }

  /** Between the updates of a batch, a byte that is neither type. */
  lemma {:induction false} BatchOfUnknown(ops: seq<WriteBatch.Update>, tag: Byte, rest: Bytes)
    requires WriteBatch.AllFit(ops) && tag >= 2
    ensures WriteBatch.ParseRecords(WriteBatch.Records(ops) + ([tag] + rest)) == (ops, WriteBatch.UnknownTag)
    decreases |ops|
  {
    hide WriteBatch.Record;
    if ops == [] {
      assert WriteBatch.Records([]) + ([tag] + rest) == [tag] + rest;
    } else {
      FirstRecord(ops, [tag] + rest);
      BatchOfUnknown(ops[1..], tag, rest);
      assert ops == [ops[0]] + ops[1..];
    }
  }

  // ----- edits

  lemma WordCut(s: Bytes, v: nat)
    requires IsCut(s, Varint(v))
    ensures VersionEdit.GetWord(s) == None && VersionEdit.GetLevel(s) == None && VersionEdit.GetLong(s) == None
  {
    hide Varint, ParseVarint;
    VarintCut(s, v, 5);
    VarintCut(s, v, 10);
  }

  lemma KeyCut(s: Bytes, k: Bytes)
    requires VersionEdit.IsKey(k) && IsCut(s, LengthPrefixed(k))
    ensures VersionEdit.GetKey(s) == None
  {
    hide LengthPrefixed, ParseLengthPrefixed;
    PrefixedCut(s, k);
  }

  lemma BoundsCut(s: Bytes, level: nat, number: nat, size: nat, a: Bytes, b: Bytes)
    requires VersionEdit.IsKey(a) && VersionEdit.IsKey(b) && IsCut(s, LengthPrefixed(a) + LengthPrefixed(b))
    ensures VersionEdit.ParseBounds(level, number, size, s) == None
  {
    hide LengthPrefixed, VersionEdit.GetKey;
    CutParts(s, LengthPrefixed(a), LengthPrefixed(b));
    if IsCut(s, LengthPrefixed(a)) {
      KeyCut(s, a);
    } else {
      var rest := s[|LengthPrefixed(a)|..];
      VersionEdit.KeyRoundTrip(a, rest);
      KeyCut(rest, b);
    }
  }

  lemma NewFileCut(s: Bytes, item: VersionEdit.Item)
    requires VersionEdit.Storable(item) && item.NewFile? && IsCut(s, VersionEdit.Body(item))
    ensures VersionEdit.ParseBody(7, s) == None
  {
    hide Varint, LengthPrefixed, VersionEdit.GetLevel, VersionEdit.GetWord, VersionEdit.GetLong, VersionEdit.GetKey, VersionEdit.ParseBounds,
         ParseLengthPrefixed;
    var keys := LengthPrefixed(item.smallest) + LengthPrefixed(item.largest);
    var sized := Varint(item.size) + keys;
    var numbered := Varint(item.number) + sized;
    CutParts(s, Varint(item.level), numbered);
    if IsCut(s, Varint(item.level)) {
      WordCut(s, item.level);
    } else {
      var a := s[|Varint(item.level)|..];
      VersionEdit.WordRoundTrip(item.level, a);
      CutParts(a, Varint(item.number), sized);
      if IsCut(a, Varint(item.number)) {
        WordCut(a, item.number);
      } else {
        var b := a[|Varint(item.number)|..];
        VersionEdit.LongRoundTrip(item.number, b);
        CutParts(b, Varint(item.size), keys);
        if IsCut(b, Varint(item.size)) {
          WordCut(b, item.size);
        } else {
          var c := b[|Varint(item.size)|..];
          VersionEdit.LongRoundTrip(item.size, c);
          BoundsCut(c, item.level, item.number, item.size, item.smallest, item.largest);
        }
      }
    }
  }

  lemma BodyCut(s: Bytes, item: VersionEdit.Item)
    requires VersionEdit.Storable(item) && IsCut(s, VersionEdit.Body(item))
    ensures VersionEdit.ParseBody(VersionEdit.TagOf(item), s) == None
  {
    hide Varint, LengthPrefixed, VersionEdit.GetLevel, VersionEdit.GetWord, VersionEdit.GetLong, VersionEdit.GetKey, VersionEdit.ParseBounds,
         ParseLengthPrefixed;
    match item
    case Comparator(name) =>
      PrefixedCut(s, name);
    case CompactPointer(level, key) =>
      CutParts(s, Varint(level), LengthPrefixed(key));
      if IsCut(s, Varint(level)) {
        WordCut(s, level);
      } else {
        VersionEdit.WordRoundTrip(level, s[|Varint(level)|..]);
        KeyCut(s[|Varint(level)|..], key);
      }
    case DeletedFile(level, number) =>
      CutParts(s, Varint(level), Varint(number));
      if IsCut(s, Varint(level)) {
        WordCut(s, level);
      } else {
        VersionEdit.WordRoundTrip(level, s[|Varint(level)|..]);
        WordCut(s[|Varint(level)|..], number);
      }
    case NewFile(_, _, _, _, _) =>
      NewFileCut(s, item);
    case _ =>
      WordCut(s, item.number);
  }

  lemma ItemCut(s: Bytes, item: VersionEdit.Item)
    requires VersionEdit.Storable(item) && IsCut(s, VersionEdit.Encode(item))
    ensures VersionEdit.ParseItem(s) == None
  {
    hide Varint, VersionEdit.Body, VersionEdit.ParseBody, VersionEdit.GetWord, VersionEdit.TagOf;
    var tag := Varint(VersionEdit.TagOf(item));
    CutParts(s, tag, VersionEdit.Body(item));
    if IsCut(s, tag) {
      WordCut(s, VersionEdit.TagOf(item));
    } else {
      VersionEdit.WordRoundTrip(VersionEdit.TagOf(item), s[|tag|..]);
      BodyCut(s[|tag|..], item);
    }
  }

  /** An edit that was cut off inside a field: the fields before it are set, and decoding fails. */
  lemma {:induction false} EditCut(items: seq<VersionEdit.Item>, item: VersionEdit.Item, s: Bytes)
    requires (forall i :: i in items ==> VersionEdit.Storable(i)) && VersionEdit.Storable(item)
    requires s != [] && IsCut(s, VersionEdit.Encode(item))
    ensures VersionEdit.ParseItems(VersionEdit.EncodeAll(items) + s) == (items, false)
    decreases |items|
  {
    hide VersionEdit.ParseItem, VersionEdit.Encode, VersionEdit.Storable;
    if items == [] {
      assert VersionEdit.EncodeAll([]) + s == s;
      ItemCut(s, item);
    } else {
      assert items[0] in items;
      FirstItem(items, s);
      EditCut(items[1..], item, s);
      assert items == [items[0]] + items[1..];
    }
  }

  lemma FirstItem(items: seq<VersionEdit.Item>, s: Bytes)
    requires items != [] && VersionEdit.Storable(items[0])
    ensures var p := VersionEdit.ParseItems(VersionEdit.EncodeAll(items[1..]) + s);
            VersionEdit.ParseItems(VersionEdit.EncodeAll(items) + s) == ([items[0]] + p.0, p.1)
  {
    hide VersionEdit.ParseItem, VersionEdit.Encode;
    assert items == [items[0]] + items[1..];
    VersionEdit.EncodeConcat([items[0]], items[1..]);
    VersionEdit.EncodeOne(items[0]);
    var rest := VersionEdit.EncodeAll(items[1..]) + s;
    ConcatAssoc(VersionEdit.Encode(items[0]), VersionEdit.EncodeAll(items[1..]), s);
    VersionEdit.ItemRoundTrip(items[0], rest);
    VersionEdit.ItemConsumes(VersionEdit.Encode(items[0]) + rest);
    assert VersionEdit.ParseItem(VersionEdit.EncodeAll(items) + s) == Some((items[0], rest));
  }
}
