/** db/version_edit.cc: the bytes of a version edit, one record of the manifest. */
module VersionEdits {
  import opened Options
  import opened Bytes
  import opened Coding

  const NUM_LEVELS: nat := 7        // config::kNumLevels

  // The tags on disk.
  const COMPARATOR: nat := 1
  const LOG_NUMBER: nat := 2
  const NEXT_FILE_NUMBER: nat := 3
  const LAST_SEQUENCE: nat := 4
  const COMPACT_POINTER: nat := 5
  const DELETED_FILE: nat := 6
  const NEW_FILE: nat := 7
  const PREV_LOG_NUMBER: nat := 9

  datatype FileMetaData = FileMetaData(number: nat, size: nat, smallest: seq<Byte>, largest: seq<Byte>)

  // An ordered set of pairs is its elements in ascending order.
  datatype Edit = Edit(
    comparator: Option<seq<Byte>>,
    logNumber: Option<nat>,
    prevLogNumber: Option<nat>,
    nextFileNumber: Option<nat>,
    lastSequence: Option<nat>,
    compactPointers: seq<(nat, seq<Byte>)>,
    deletedFiles: seq<(nat, nat)>,
    newFiles: seq<(nat, FileMetaData)>)

  const EMPTY: Edit := Edit(None, None, None, None, None, [], [], [])

  // ---- One tagged field ----

  datatype Item =
    | Comparator(name: seq<Byte>)
    | LogNumber(n: nat)
    | PrevLogNumber(n: nat)
    | NextFileNumber(n: nat)
    | LastSequence(n: nat)
    | CompactPointer(level: nat, key: seq<Byte>)
    | DeletedFile(level: nat, n: nat)
    | NewFile(level: nat, f: FileMetaData)

  function EncodeItem(item: Item): seq<Byte> {
    match item
    case Comparator(name) => Varint(COMPARATOR) + Prefixed(name)
    case LogNumber(n) => Varint(LOG_NUMBER) + Varint(n)
    case PrevLogNumber(n) => Varint(PREV_LOG_NUMBER) + Varint(n)
    case NextFileNumber(n) => Varint(NEXT_FILE_NUMBER) + Varint(n)
    case LastSequence(n) => Varint(LAST_SEQUENCE) + Varint(n)
    case CompactPointer(level, key) => Varint(COMPACT_POINTER) + Varint(level) + Prefixed(key)
    case DeletedFile(level, n) => Varint(DELETED_FILE) + Varint(level) + Varint(n)
    case NewFile(level, f) =>
      Varint(NEW_FILE) + Varint(level) + Varint(f.number) + Varint(f.size) + Prefixed(f.smallest) + Prefixed(f.largest)
  }

  predicate ItemFits(item: Item) {
    match item
    case Comparator(name) => |name| < TWO_32
    case CompactPointer(level, key) => level < NUM_LEVELS && |key| < TWO_32
    case DeletedFile(level, n) => level < NUM_LEVELS && n < TWO_64
    case NewFile(level, f) =>
      level < NUM_LEVELS && f.number < TWO_64 && f.size < TWO_64 && |f.smallest| < TWO_32 && |f.largest| < TWO_32
    case _ => item.n < TWO_64
  }

  // GetLevel
  function LevelAt(s: seq<Byte>): (p: Parsed<nat>)
    ensures p.Parsed? ==> |p.rest| < |s|
  {
    match Varint32At(s)
    case Failed => Failed
    case Parsed(level, rest) => if level < NUM_LEVELS then Parsed(level, rest) else Failed
  }

  function MetaAt(s: seq<Byte>): (p: Parsed<FileMetaData>)
    ensures p.Parsed? ==> |p.rest| < |s|
  {
    match Varint64At(s)
    case Failed => Failed
    case Parsed(number, s1) =>
      match Varint64At(s1)
      case Failed => Failed
      case Parsed(size, s2) =>
        match PrefixedAt(s2)
        case Failed => Failed
        case Parsed(smallest, s3) =>
          match PrefixedAt(s3)
          case Failed => Failed
          case Parsed(largest, s4) => Parsed(FileMetaData(number, size, smallest, largest), s4)
  }

  // What stands behind a tag.
  function BodyAt(tag: nat, s: seq<Byte>): (p: Parsed<Item>)
    ensures p.Parsed? ==> |p.rest| < |s|
  {
    if tag == COMPARATOR then
      match PrefixedAt(s) case Failed => Failed case Parsed(name, rest) => Parsed(Comparator(name), rest)
    else if tag == LOG_NUMBER then
      match Varint64At(s) case Failed => Failed case Parsed(n, rest) => Parsed(LogNumber(n), rest)
    else if tag == PREV_LOG_NUMBER then
      match Varint64At(s) case Failed => Failed case Parsed(n, rest) => Parsed(PrevLogNumber(n), rest)
    else if tag == NEXT_FILE_NUMBER then
      match Varint64At(s) case Failed => Failed case Parsed(n, rest) => Parsed(NextFileNumber(n), rest)
    else if tag == LAST_SEQUENCE then
      match Varint64At(s) case Failed => Failed case Parsed(n, rest) => Parsed(LastSequence(n), rest)
    else if tag == COMPACT_POINTER then
      match LevelAt(s)
      case Failed => Failed
      case Parsed(level, rest) =>
        match PrefixedAt(rest) case Failed => Failed case Parsed(key, rest') => Parsed(CompactPointer(level, key), rest')
    else if tag == DELETED_FILE then
      match LevelAt(s)
      case Failed => Failed
      case Parsed(level, rest) =>
        match Varint64At(rest) case Failed => Failed case Parsed(n, rest') => Parsed(DeletedFile(level, n), rest')
    else if tag == NEW_FILE then
      match LevelAt(s)
      case Failed => Failed
      case Parsed(level, rest) =>
        match MetaAt(rest) case Failed => Failed case Parsed(f, rest') => Parsed(NewFile(level, f), rest')
    else Failed
  }

  lemma LevelRoundTrip(level: nat, rest: seq<Byte>)
    requires level < NUM_LEVELS
    ensures LevelAt(Varint(level) + rest) == Parsed(level, rest)
  {
    hide Varint, Varint32At;
    Varint32RoundTrip(level, rest);
  }

  lemma MetaRoundTrip(f: FileMetaData, rest: seq<Byte>)
    requires f.number < TWO_64 && f.size < TWO_64 && |f.smallest| < TWO_32 && |f.largest| < TWO_32
    ensures MetaAt(Varint(f.number) + (Varint(f.size) + (Prefixed(f.smallest) + (Prefixed(f.largest) + rest)))) == Parsed(f, rest)
  {
    hide Varint, Varint64At, Prefixed, PrefixedAt;
    Varint64RoundTrip(f.number, Varint(f.size) + (Prefixed(f.smallest) + (Prefixed(f.largest) + rest)));
    Varint64RoundTrip(f.size, Prefixed(f.smallest) + (Prefixed(f.largest) + rest));
    PrefixedRoundTrip(f.smallest, Prefixed(f.largest) + rest);
    PrefixedRoundTrip(f.largest, rest);
  }

  function TagOf(item: Item): nat {
    match item
    case Comparator(_) => COMPARATOR
    case LogNumber(_) => LOG_NUMBER
    case PrevLogNumber(_) => PREV_LOG_NUMBER
    case NextFileNumber(_) => NEXT_FILE_NUMBER
    case LastSequence(_) => LAST_SEQUENCE
    case CompactPointer(_, _) => COMPACT_POINTER
    case DeletedFile(_, _) => DELETED_FILE
    case NewFile(_, _) => NEW_FILE
  }

  // Decoding an encoded field gives it back and leaves what comes after it.
  lemma ItemRoundTrip(item: Item, rest: seq<Byte>) returns (s: seq<Byte>)
    requires ItemFits(item)
    ensures EncodeItem(item) + rest == Varint(TagOf(item)) + s
    ensures Varint32At(EncodeItem(item) + rest) == Parsed(TagOf(item), s) && BodyAt(TagOf(item), s) == Parsed(item, rest)
  {
    hide Varint, Varint32At, Varint64At, Prefixed, PrefixedAt, LevelAt, MetaAt;
    var tag := Varint(TagOf(item));
    match item {
      case Comparator(name) =>
        s := Prefixed(name) + rest;
        PrefixedRoundTrip(name, rest);
        Assoc(tag, Prefixed(name), rest);
      case LogNumber(n) => s := Number(tag, n, rest);
      case PrevLogNumber(n) => s := Number(tag, n, rest);
      case NextFileNumber(n) => s := Number(tag, n, rest);
      case LastSequence(n) => s := Number(tag, n, rest);
      case CompactPointer(level, key) =>
        s := Varint(level) + (Prefixed(key) + rest);
        LevelRoundTrip(level, Prefixed(key) + rest);
        PrefixedRoundTrip(key, rest);
        Assoc(tag + Varint(level), Prefixed(key), rest);
        Assoc(tag, Varint(level), Prefixed(key) + rest);
      case DeletedFile(level, n) =>
        s := Varint(level) + (Varint(n) + rest);
        LevelRoundTrip(level, Varint(n) + rest);
        Varint64RoundTrip(n, rest);
        Assoc(tag + Varint(level), Varint(n), rest);
        Assoc(tag, Varint(level), Varint(n) + rest);
      case NewFile(level, f) =>
        var s1 := Prefixed(f.smallest) + (Prefixed(f.largest) + rest);
        var s2 := Varint(f.number) + (Varint(f.size) + s1);
        s := Varint(level) + s2;
        LevelRoundTrip(level, s2);
        MetaRoundTrip(f, rest);
        Assoc(tag + Varint(level) + Varint(f.number) + Varint(f.size) + Prefixed(f.smallest), Prefixed(f.largest), rest);
        Assoc(tag + Varint(level) + Varint(f.number) + Varint(f.size), Prefixed(f.smallest), Prefixed(f.largest) + rest);
        Assoc(tag + Varint(level) + Varint(f.number), Varint(f.size), s1);
        Assoc(tag + Varint(level), Varint(f.number), Varint(f.size) + s1);
        Assoc(tag, Varint(level), s2);
    }
    Varint32RoundTrip(TagOf(item), s);
  }

  lemma Number(tag: seq<Byte>, n: nat, rest: seq<Byte>) returns (s: seq<Byte>)
    requires n < TWO_64
    ensures s == Varint(n) + rest && tag + Varint(n) + rest == tag + s && Varint64At(s) == Parsed(n, rest)
  {
    hide Varint, Varint64At;
    s := Varint(n) + rest;
    Varint64RoundTrip(n, rest);
    Assoc(tag, Varint(n), rest);
  }

  // ---- The whole edit ----

  predicate PairLess(a: (nat, nat), b: (nat, nat)) {
    a.0 < b.0 || (a.0 == b.0 && a.1 < b.1)
  }

  ghost predicate Ascending(pairs: seq<(nat, nat)>) {
    forall i, j :: 0 <= i < j < |pairs| ==> PairLess(pairs[i], pairs[j])
  }

  // std::set::insert
  function Insert(pairs: seq<(nat, nat)>, p: (nat, nat)): seq<(nat, nat)> {
    if pairs == [] || PairLess(pairs[|pairs| - 1], p) then pairs + [p]
    else if pairs[|pairs| - 1] == p then pairs
    else Insert(pairs[..|pairs| - 1], p) + [pairs[|pairs| - 1]]
  }

  function Apply(edit: Edit, item: Item): Edit {
    match item
    case Comparator(name) => edit.(comparator := Some(name))
    case LogNumber(n) => edit.(logNumber := Some(n))
    case PrevLogNumber(n) => edit.(prevLogNumber := Some(n))
    case NextFileNumber(n) => edit.(nextFileNumber := Some(n))
    case LastSequence(n) => edit.(lastSequence := Some(n))
    case CompactPointer(level, key) => edit.(compactPointers := edit.compactPointers + [(level, key)])
    case DeletedFile(level, n) => edit.(deletedFiles := Insert(edit.deletedFiles, (level, n)))
    case NewFile(level, f) => edit.(newFiles := edit.newFiles + [(level, f)])
  }

  function ApplyAll(edit: Edit, items: seq<Item>): Edit {
    if items == [] then edit else Apply(ApplyAll(edit, items[..|items| - 1]), items[|items| - 1])
  }

  // The loop of DecodeFrom: fields until there is no tag; bytes may not be left over.
  function Decode(edit: Edit, s: seq<Byte>): (r: (Edit, bool))
    decreases |s|
  {
    match Varint32At(s)
    case Failed => (edit, s == [])
    case Parsed(tag, rest) =>
      match BodyAt(tag, rest)
      case Failed => (edit, false)
      case Parsed(item, rest') => Shorter(s, tag, rest); Decode(Apply(edit, item), rest')
  }

  lemma Shorter(s: seq<Byte>, tag: nat, rest: seq<Byte>)
    requires Varint32At(s) == Parsed(tag, rest)
    ensures |rest| < |s|
  {
  }

  function EncodeItems(items: seq<Item>): seq<Byte> {
    if items == [] then [] else EncodeItems(items[..|items| - 1]) + EncodeItem(items[|items| - 1])
  }

  lemma {:induction false} DecodeItems(edit: Edit, items: seq<Item>, rest: seq<Byte>)
    requires forall i :: 0 <= i < |items| ==> ItemFits(items[i])
    ensures Decode(edit, EncodeItems(items) + rest) == Decode(ApplyAll(edit, items), rest)
  {
    hide EncodeItem, Apply, ItemFits, Varint, Varint32At, BodyAt;
    if items == [] {
      assert [] + rest == rest;
    } else {
      var n := |items| - 1;
      Assoc(EncodeItems(items[..n]), EncodeItem(items[n]), rest);
      DecodeItems(edit, items[..n], EncodeItem(items[n]) + rest);
      var s := ItemRoundTrip(items[n], rest);
    }
  }

  // ---- The fields of an edit, in the order of EncodeTo ----

  function Named(name: Option<seq<Byte>>): seq<Item> {
    match name case None => [] case Some(s) => [Comparator(s)]
  }

  function Numbered(tag: nat, number: Option<nat>): seq<Item> {
    match number
    case None => []
    case Some(n) =>
      [if tag == LOG_NUMBER then LogNumber(n)
       else if tag == PREV_LOG_NUMBER then PrevLogNumber(n)
       else if tag == NEXT_FILE_NUMBER then NextFileNumber(n)
       else LastSequence(n)]
  }

  function PointerItems(pointers: seq<(nat, seq<Byte>)>): (items: seq<Item>)
    ensures |items| == |pointers| && forall i :: 0 <= i < |items| ==> items[i] == CompactPointer(pointers[i].0, pointers[i].1)
  {
    seq(|pointers|, i requires 0 <= i < |pointers| => CompactPointer(pointers[i].0, pointers[i].1))
  }

  function DeletedItems(deleted: seq<(nat, nat)>): (items: seq<Item>)
    ensures |items| == |deleted| && forall i :: 0 <= i < |items| ==> items[i] == DeletedFile(deleted[i].0, deleted[i].1)
  {
    seq(|deleted|, i requires 0 <= i < |deleted| => DeletedFile(deleted[i].0, deleted[i].1))
  }

  function NewFileItems(files: seq<(nat, FileMetaData)>): (items: seq<Item>)
    ensures |items| == |files| && forall i :: 0 <= i < |items| ==> items[i] == NewFile(files[i].0, files[i].1)
  {
    seq(|files|, i requires 0 <= i < |files| => NewFile(files[i].0, files[i].1))
  }

  function Items(edit: Edit): seq<Item> {
    Named(edit.comparator) + Numbered(LOG_NUMBER, edit.logNumber) + Numbered(PREV_LOG_NUMBER, edit.prevLogNumber)
    + Numbered(NEXT_FILE_NUMBER, edit.nextFileNumber) + Numbered(LAST_SEQUENCE, edit.lastSequence)
    + PointerItems(edit.compactPointers) + DeletedItems(edit.deletedFiles) + NewFileItems(edit.newFiles)
  }

  ghost predicate EditFits(edit: Edit) {
    Ascending(edit.deletedFiles) && forall i :: 0 <= i < |Items(edit)| ==> ItemFits(Items(edit)[i])
  }

  lemma {:induction false} ApplyConcat(edit: Edit, a: seq<Item>, b: seq<Item>)
    ensures ApplyAll(edit, a + b) == ApplyAll(ApplyAll(edit, a), b)
  {
    hide Apply;
    if b == [] {
      assert a + b == a;
    } else {
      var n := |b| - 1;
      assert (a + b)[..|a + b| - 1] == a + b[..n];
      ApplyConcat(edit, a, b[..n]);
    }
  }

  lemma ApplyOne(edit: Edit, item: Item)
    ensures ApplyAll(edit, [item]) == Apply(edit, item)
  {
    hide Apply;
    assert [item][..0] == [];
    assert ApplyAll(edit, []) == edit;
  }

  lemma {:induction false} ApplyPointers(edit: Edit, pointers: seq<(nat, seq<Byte>)>)
    ensures ApplyAll(edit, PointerItems(pointers)) == edit.(compactPointers := edit.compactPointers + pointers)
  {
    if pointers == [] {
      assert edit.compactPointers + pointers == edit.compactPointers;
    } else {
      var n := |pointers| - 1;
      ApplyPointers(edit, pointers[..n]);
      assert PointerItems(pointers)[..n] == PointerItems(pointers[..n]);
      assert edit.compactPointers + pointers == edit.compactPointers + pointers[..n] + [pointers[n]];
    }
  }

  lemma {:induction false} ApplyDeleted(edit: Edit, deleted: seq<(nat, nat)>)
    requires Ascending(deleted) && edit.deletedFiles == []
    ensures ApplyAll(edit, DeletedItems(deleted)) == edit.(deletedFiles := deleted)
  {
    if deleted != [] {
      var n := |deleted| - 1;
      ApplyDeleted(edit, deleted[..n]);
      assert DeletedItems(deleted)[..n] == DeletedItems(deleted[..n]);
      assert deleted == deleted[..n] + [deleted[n]];
    }
  }

  lemma {:induction false} ApplyNewFiles(edit: Edit, files: seq<(nat, FileMetaData)>)
    ensures ApplyAll(edit, NewFileItems(files)) == edit.(newFiles := edit.newFiles + files)
  {
    if files == [] {
      assert edit.newFiles + files == edit.newFiles;
    } else {
      var n := |files| - 1;
      ApplyNewFiles(edit, files[..n]);
      assert NewFileItems(files)[..n] == NewFileItems(files[..n]);
      assert edit.newFiles + files == edit.newFiles + files[..n] + [files[n]];
    }
  }

  lemma ApplyNamed(edit: Edit, name: Option<seq<Byte>>)
    requires edit.comparator == None
    ensures ApplyAll(edit, Named(name)) == edit.(comparator := name)
  {
    match name
    case None =>
    case Some(s) => ApplyOne(edit, Comparator(s));
  }

  lemma ApplyNumbered(edit: Edit, tag: nat, number: Option<nat>)
    requires tag == LOG_NUMBER || tag == PREV_LOG_NUMBER || tag == NEXT_FILE_NUMBER || tag == LAST_SEQUENCE
    ensures ApplyAll(edit, Numbered(tag, number)) ==
            if number == None then edit
            else if tag == LOG_NUMBER then edit.(logNumber := number)
            else if tag == PREV_LOG_NUMBER then edit.(prevLogNumber := number)
            else if tag == NEXT_FILE_NUMBER then edit.(nextFileNumber := number)
            else edit.(lastSequence := number)
  {
    if number.Some? {
      ApplyOne(edit, Numbered(tag, number)[0]);
    }
  }

  // The state of an edit after Clear: everything but the compaction pointers is gone.
  function Cleared(edit: Edit): Edit {
    EMPTY.(compactPointers := edit.compactPointers)
  }

  lemma ApplyItems(into: Edit, edit: Edit)
    requires EditFits(edit)
    ensures ApplyAll(Cleared(into), Items(edit)) == edit.(compactPointers := into.compactPointers + edit.compactPointers)
  {
    hide ApplyAll, Named, Numbered, Apply, PointerItems, DeletedItems, NewFileItems;
    var e0 := Cleared(into);
    var a, b, c, d, e := Named(edit.comparator), Numbered(LOG_NUMBER, edit.logNumber), Numbered(PREV_LOG_NUMBER, edit.prevLogNumber),
                         Numbered(NEXT_FILE_NUMBER, edit.nextFileNumber), Numbered(LAST_SEQUENCE, edit.lastSequence);
    var f, g, h := PointerItems(edit.compactPointers), DeletedItems(edit.deletedFiles), NewFileItems(edit.newFiles);
    ApplyConcat(e0, a, b);
    ApplyConcat(e0, a + b, c);
    ApplyConcat(e0, a + b + c, d);
    ApplyConcat(e0, a + b + c + d, e);
    ApplyConcat(e0, a + b + c + d + e, f);
    ApplyConcat(e0, a + b + c + d + e + f, g);
    ApplyConcat(e0, a + b + c + d + e + f + g, h);
    ApplyNamed(e0, edit.comparator);
    var e1 := e0.(comparator := edit.comparator);
    ApplyNumbered(e1, LOG_NUMBER, edit.logNumber);
    var e2 := e1.(logNumber := edit.logNumber);
    ApplyNumbered(e2, PREV_LOG_NUMBER, edit.prevLogNumber);
    var e3 := e2.(prevLogNumber := edit.prevLogNumber);
    ApplyNumbered(e3, NEXT_FILE_NUMBER, edit.nextFileNumber);
    var e4 := e3.(nextFileNumber := edit.nextFileNumber);
    ApplyNumbered(e4, LAST_SEQUENCE, edit.lastSequence);
    var e5 := e4.(lastSequence := edit.lastSequence);
    ApplyPointers(e5, edit.compactPointers);
    var e6 := e5.(compactPointers := e5.compactPointers + edit.compactPointers);
    ApplyDeleted(e6, edit.deletedFiles);
    var e7 := e6.(deletedFiles := edit.deletedFiles);
    ApplyNewFiles(e7, edit.newFiles);
    assert [] + edit.newFiles == edit.newFiles;
  }

  // Decoding the encoding of an edit restores every field and uses up every byte; compaction pointers
  // that were there before stay in front, so the edit comes back exactly when there were none.
  lemma EditRoundTrip(into: Edit, edit: Edit)
    requires EditFits(edit)
    ensures Decode(Cleared(into), EncodeItems(Items(edit)))
            == (edit.(compactPointers := into.compactPointers + edit.compactPointers), true)
    ensures Decode(Cleared(into), EncodeItems(Items(edit))) == (edit, true) <==> into.compactPointers == []
  {
    hide Items, Cleared, ApplyAll, EncodeItems, Decode;
    var s := EncodeItems(Items(edit));
    DecodeItems(Cleared(into), Items(edit), []);
    assert s + [] == s;
    ApplyItems(into, edit);
    DecodeNothing(ApplyAll(Cleared(into), Items(edit)));
    PrefixEmpty(into.compactPointers, edit.compactPointers);
  }

  lemma DecodeNothing(edit: Edit)
    ensures Decode(edit, []) == (edit, true)
  {
  }

  lemma PrefixEmpty(a: seq<(nat, seq<Byte>)>, b: seq<(nat, seq<Byte>)>)
    ensures a + b == b <==> a == []
  {
    if a != [] {
      assert |a + b| > |b|;
    }
  }

  // ---- The object ----

  class VersionEdit {
    var fields: Edit

    constructor ()
      ensures fields == EMPTY
    {
      fields := EMPTY;
    }

    method Clear()
      modifies this
      ensures fields == Cleared(old(fields))
    {
      fields := Edit(None, None, None, None, None, fields.compactPointers, [], []);
    }

    method EncodeTo(dst: seq<Byte>) returns (dst': seq<Byte>)
      requires EditFits(fields)
      ensures dst' == dst + EncodeItems(Items(fields))
    {
      hide EncodeItem, Varint, Prefixed, ItemFits;
      ghost var done: seq<Item> := [];
      dst' := dst;
      assert dst + [] == dst;
      var i := 0;
      var items := Items(fields);
      while i < |items|
        invariant i <= |items| && dst' == dst + EncodeItems(items[..i])
      {
        assert items[..i + 1][..i] == items[..i];
        Assoc(dst, EncodeItems(items[..i]), EncodeItem(items[i]));
        dst' := PutItem(dst', items[i]);
        i := i + 1;
      }
      assert items[..|items|] == items;
    }

    // One field: its tag and what stands behind it.
    static method PutItem(dst: seq<Byte>, item: Item) returns (dst': seq<Byte>)
      requires ItemFits(item)
      ensures dst' == dst + EncodeItem(item)
    {
      hide Varint, Prefixed;
      dst' := PutVarint32(dst, TagOf(item));
      match item {
        case Comparator(name) => dst' := PutLengthPrefixedSlice(dst', name);
        case LogNumber(n) => dst' := PutVarint64(dst', n);
        case PrevLogNumber(n) => dst' := PutVarint64(dst', n);
        case NextFileNumber(n) => dst' := PutVarint64(dst', n);
        case LastSequence(n) => dst' := PutVarint64(dst', n);
        case CompactPointer(level, key) =>
          dst' := PutVarint32(dst', level);
          dst' := PutLengthPrefixedSlice(dst', key);
        case DeletedFile(level, n) =>
          dst' := PutVarint32(dst', level);
          dst' := PutVarint64(dst', n);
        case NewFile(level, f) =>
          dst' := PutVarint32(dst', level);
          dst' := PutVarint64(dst', f.number);
          dst' := PutVarint64(dst', f.size);
          dst' := PutLengthPrefixedSlice(dst', f.smallest);
          dst' := PutLengthPrefixedSlice(dst', f.largest);
      }
    }

    method DecodeFrom(src: seq<Byte>) returns (ok: bool)
      modifies this
      ensures (fields, ok) == Decode(Cleared(old(fields)), src)
    {
      hide Varint32At, BodyAt, Apply;
      Clear();
      var input := src;
      while true
        invariant Decode(Cleared(old(fields)), src) == Decode(fields, input)
        decreases |input|
      {
        var tag := GetVarint32(input);
        if tag == Failed {
          ok := input == [];
          return;
        }
        Shorter(input, tag.value, tag.rest);
        var item := GetBody(tag.value, tag.rest);
        if item == Failed {
          return false;
        }
        fields := Apply(fields, item.value);
        input := item.rest;
      }
    }

    // The switch on the tag.
    static method GetBody(tag: nat, input: seq<Byte>) returns (p: Parsed<Item>)
      ensures p == BodyAt(tag, input)
    {
      hide Varint32At, Varint64At, PrefixedAt;
      if tag == COMPARATOR {
        var name := GetLengthPrefixedSlice(input);
        p := if name.Failed? then Failed else Parsed(Comparator(name.value), name.rest);
      } else if tag == LOG_NUMBER {
        var n := GetVarint64(input);
        p := if n.Failed? then Failed else Parsed(LogNumber(n.value), n.rest);
      } else if tag == PREV_LOG_NUMBER {
        var n := GetVarint64(input);
        p := if n.Failed? then Failed else Parsed(PrevLogNumber(n.value), n.rest);
      } else if tag == NEXT_FILE_NUMBER {
        var n := GetVarint64(input);
        p := if n.Failed? then Failed else Parsed(NextFileNumber(n.value), n.rest);
      } else if tag == LAST_SEQUENCE {
        var n := GetVarint64(input);
        p := if n.Failed? then Failed else Parsed(LastSequence(n.value), n.rest);
      } else if tag == COMPACT_POINTER || tag == DELETED_FILE || tag == NEW_FILE {
        var level := GetVarint32(input);
        if level.Failed? || level.value >= NUM_LEVELS {
          return Failed;
        }
        if tag == COMPACT_POINTER {
          var key := GetLengthPrefixedSlice(level.rest);
          p := if key.Failed? then Failed else Parsed(CompactPointer(level.value, key.value), key.rest);
        } else if tag == DELETED_FILE {
          var n := GetVarint64(level.rest);
          p := if n.Failed? then Failed else Parsed(DeletedFile(level.value, n.value), n.rest);
        } else {
          var f := GetMeta(level.rest);
          p := if f.Failed? then Failed else Parsed(NewFile(level.value, f.value), f.rest);
        }
      } else {
        p := Failed;
      }
    }

    static method GetMeta(input: seq<Byte>) returns (p: Parsed<FileMetaData>)
      ensures p == MetaAt(input)
    {
      hide Varint64At, PrefixedAt;
      p := Failed;
      var number := GetVarint64(input);
      if number.Parsed? {
        var size := GetVarint64(number.rest);
        if size.Parsed? {
          var smallest := GetLengthPrefixedSlice(size.rest);
          if smallest.Parsed? {
            var largest := GetLengthPrefixedSlice(smallest.rest);
            if largest.Parsed? {
              p := Parsed(FileMetaData(number.value, size.value, smallest.value, largest.value), largest.rest);
            }
          }
        }
      }
    }
  }
}
