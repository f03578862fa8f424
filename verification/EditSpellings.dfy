/** Exactly which bytes VersionEdit::DecodeFrom accepts (db/version_edit.cc:109-215), with the tags of the fields
    as the numbers that stand in the file. */
module EditSpellings {
  import opened Bytes
  import opened Coding
  import opened Options
  import opened Spellings
  import opened VersionEdits

  // The number in front of a field.
  function NumberOf(item: Item): nat {
    match item
    case Comparator(_) => 1
    case LogNumber(_) => 2
    case NextFileNumber(_) => 3
    case LastSequence(_) => 4
    case CompactPointer(_, _) => 5
    case DeletedFile(_, _) => 6
    case NewFile(_, _) => 7
    case PrevLogNumber(_) => 9
  }

  // What stands behind it.
  function Pieces(item: Item): seq<Token> {
    match item
    case Comparator(name) => [Text(name)]
    case LogNumber(n) => [Number64(n)]
    case PrevLogNumber(n) => [Number64(n)]
    case NextFileNumber(n) => [Number64(n)]
    case LastSequence(n) => [Number64(n)]
    case CompactPointer(level, key) => [Number32(level)] + [Text(key)]
    case DeletedFile(level, n) => [Number32(level)] + [Number64(n)]
    case NewFile(level, f) => [Number32(level)] + FilePieces(f)
  }

  function FilePieces(f: FileMetaData): seq<Token> {
    [Number64(f.number)] + ([Number64(f.size)] + ([Text(f.smallest)] + [Text(f.largest)]))
  }

  predicate LevelExists(item: Item) {
    match item
    case CompactPointer(level, _) => level < 7
    case DeletedFile(level, _) => level < 7
    case NewFile(level, _) => level < 7
    case _ => true
  }

  ghost predicate ItemStarts(s: seq<Byte>, item: Item, rest: seq<Byte>) {
    LevelExists(item) && StartsWith(s, [Number32(NumberOf(item))] + Pieces(item), rest)
  }

  // s is a sequence of fields and nothing else.
  ghost predicate IsEdit(s: seq<Byte>, items: seq<Item>)
    decreases |items|
  {
    if items == [] then s == []
    else exists rest: seq<Byte> :: ItemStarts(s, items[0], rest) && IsEdit(rest, items[1..])
  }

  // ---- One field ----

  lemma FileExactly(s: seq<Byte>, f: FileMetaData, rest: seq<Byte>)
    ensures MetaAt(s) == Parsed(f, rest) <==> StartsWith(s, FilePieces(f), rest)
  {
    hide Varint64At, PrefixedAt, Starts, StartsWith;
    if MetaAt(s) == Parsed(f, rest) {
      var s1 := Varint64At(s).rest;
      var s2 := Varint64At(s1).rest;
      var s3 := PrefixedAt(s2).rest;
      Number64Exactly(s, f.number, s1);
      Number64Exactly(s1, f.size, s2);
      TextExactly(s2, f.smallest, s3);
      TextExactly(s3, f.largest, rest);
      Last(s3, Text(f.largest), rest);
      Step(s2, Text(f.smallest), s3, [Text(f.largest)], rest);
      Step(s1, Number64(f.size), s2, [Text(f.smallest)] + [Text(f.largest)], rest);
      Step(s, Number64(f.number), s1, [Number64(f.size)] + ([Text(f.smallest)] + [Text(f.largest)]), rest);
    }
    if StartsWith(s, FilePieces(f), rest) {
      var s1 := Next(s, Number64(f.number), [Number64(f.size)] + ([Text(f.smallest)] + [Text(f.largest)]), rest);
      var s2 := Next(s1, Number64(f.size), [Text(f.smallest)] + [Text(f.largest)], rest);
      var s3 := Next(s2, Text(f.smallest), [Text(f.largest)], rest);
      Last(s3, Text(f.largest), rest);
      Number64Exactly(s, f.number, s1);
      Number64Exactly(s1, f.size, s2);
      TextExactly(s2, f.smallest, s3);
      TextExactly(s3, f.largest, rest);
    }
  }

  // A level and what follows it.
  lemma LevelExactly(s: seq<Byte>, level: nat, mid: seq<Byte>)
    ensures LevelAt(s) == Parsed(level, mid) <==> level < 7 && Starts(s, Number32(level), mid)
  {
    hide Varint32At, Starts;
    Number32Exactly(s, level, mid);
  }

  lemma BehindLevel(s: seq<Byte>, level: nat, ts: seq<Token>, rest: seq<Byte>)
    ensures level < 7 && StartsWith(s, [Number32(level)] + ts, rest)
            <==> LevelAt(s).Parsed? && LevelAt(s).value == level && StartsWith(LevelAt(s).rest, ts, rest)
  {
    hide LevelAt, Starts, StartsWith;
    if level < 7 && StartsWith(s, [Number32(level)] + ts, rest) {
      var mid := Next(s, Number32(level), ts, rest);
      LevelExactly(s, level, mid);
    }
    if LevelAt(s).Parsed? && LevelAt(s).value == level && StartsWith(LevelAt(s).rest, ts, rest) {
      LevelExactly(s, level, LevelAt(s).rest);
      Step(s, Number32(level), LevelAt(s).rest, ts, rest);
    }
  }

  lemma BodyExactly(tag: nat, s: seq<Byte>, item: Item, rest: seq<Byte>)
    ensures BodyAt(tag, s) == Parsed(item, rest) <==> tag == NumberOf(item) && LevelExists(item) && StartsWith(s, Pieces(item), rest)
  {
    hide Varint64At, PrefixedAt, LevelAt, MetaAt, Starts, StartsWith, FilePieces;
    match item {
      case Comparator(name) => TextExactly(s, name, rest); Last(s, Text(name), rest);
      case LogNumber(n) => Number64Exactly(s, n, rest); Last(s, Number64(n), rest);
      case PrevLogNumber(n) => Number64Exactly(s, n, rest); Last(s, Number64(n), rest);
      case NextFileNumber(n) => Number64Exactly(s, n, rest); Last(s, Number64(n), rest);
      case LastSequence(n) => Number64Exactly(s, n, rest); Last(s, Number64(n), rest);
      case CompactPointer(level, key) =>
        BehindLevel(s, level, [Text(key)], rest);
        if LevelAt(s).Parsed? {
          TextExactly(LevelAt(s).rest, key, rest);
          Last(LevelAt(s).rest, Text(key), rest);
        }
      case DeletedFile(level, n) =>
        BehindLevel(s, level, [Number64(n)], rest);
        if LevelAt(s).Parsed? {
          Number64Exactly(LevelAt(s).rest, n, rest);
          Last(LevelAt(s).rest, Number64(n), rest);
        }
      case NewFile(level, f) =>
        BehindLevel(s, level, FilePieces(f), rest);
        if LevelAt(s).Parsed? {
          FileExactly(LevelAt(s).rest, f, rest);
        }
    }
  }

  // The field at the front, as DecodeFrom reads it.
  lemma ItemExactly(s: seq<Byte>, item: Item, rest: seq<Byte>)
    ensures ItemStarts(s, item, rest)
            <==> Varint32At(s).Parsed? && BodyAt(Varint32At(s).value, Varint32At(s).rest) == Parsed(item, rest)
  {
    hide Varint32At, BodyAt, Starts, StartsWith, LevelExists, Pieces, NumberOf;
    var n := NumberOf(item);
    if ItemStarts(s, item, rest) {
      var mid := Next(s, Number32(n), Pieces(item), rest);
      Number32Exactly(s, n, mid);
      BodyExactly(n, mid, item, rest);
    }
    if Varint32At(s).Parsed? && BodyAt(Varint32At(s).value, Varint32At(s).rest) == Parsed(item, rest) {
      var mid := Varint32At(s).rest;
      BodyExactly(Varint32At(s).value, mid, item, rest);
      Number32Exactly(s, n, mid);
      Step(s, Number32(n), mid, Pieces(item), rest);
    }
  }

  // ---- The whole edit ----

  lemma {:induction false} EditIsDecoded(edit: Edit, s: seq<Byte>, items: seq<Item>)
    requires IsEdit(s, items)
    ensures Decode(edit, s) == (ApplyAll(edit, items), true)
    decreases |items|
  {
    hide Varint32At, BodyAt, Apply, ItemStarts;
    if items == [] {
      NothingThere();
    } else {
      var rest :| ItemStarts(s, items[0], rest) && IsEdit(rest, items[1..]);
      ItemExactly(s, items[0], rest);
      Shorter(s, Varint32At(s).value, Varint32At(s).rest);
      EditIsDecoded(Apply(edit, items[0]), rest, items[1..]);
      FirstApplied(edit, items);
    }
  }

  lemma NothingThere()
    ensures Varint32At([]).Failed?
  {
  }

  lemma {:induction false} FirstApplied(edit: Edit, items: seq<Item>)
    requires items != []
    ensures ApplyAll(Apply(edit, items[0]), items[1..]) == ApplyAll(edit, items)
    decreases |items|
  {
    hide Apply;
    if |items| > 1 {
      FirstApplied(edit, items[..|items| - 1]);
      assert items[..|items| - 1][1..] == items[1..][..|items| - 2];
    } else {
      assert items[1..] == [] && items[..0] == [];
    }
  }

  lemma {:induction false} DecodedIsEdit(edit: Edit, s: seq<Byte>) returns (items: seq<Item>)
    requires Decode(edit, s).1
    ensures IsEdit(s, items)
    decreases |s|
  {
    hide Varint32At, BodyAt, Apply, ItemStarts;
    items := [];
    match Varint32At(s)
    case Failed =>
    case Parsed(tag, rest) =>
      var p := BodyAt(tag, rest);
      Shorter(s, tag, rest);
      var tail := DecodedIsEdit(Apply(edit, p.value), p.rest);
      items := [p.value] + tail;
      ItemExactly(s, p.value, p.rest);
      assert items[1..] == tail;
  }

  // An edit is accepted exactly when the bytes are fields one behind the other, each whole and of an existing
  // level; then its fields are those, in order.
  lemma DecodedExactlyWhen(edit: Edit, s: seq<Byte>)
    ensures Decode(edit, s).1 <==> exists items :: IsEdit(s, items)
    ensures forall items :: IsEdit(s, items) ==> Decode(edit, s) == (ApplyAll(edit, items), true)
  {
    hide Decode, IsEdit, ApplyAll;
    if Decode(edit, s).1 {
      var items := DecodedIsEdit(edit, s);
    }
    forall items | IsEdit(s, items)
      ensures Decode(edit, s) == (ApplyAll(edit, items), true)
    {
      EditIsDecoded(edit, s, items);
    }
  }
}
