/** nanopb: how many entries an array takes. A repeated field takes up to the size of its array, an array of
    fixed length takes all of its entries or none, and one entry more is refused, packed or not. */
module ProtobufArrays {
  import opened Bytes
  import opened Coding
  import opened Options
  import opened ProtobufFields
  import opened ProtobufInput
  import opened ProtobufEncoders
  import opened ProtobufDecoders
  import opened ProtobufRoundTrips
  import opened ProtobufSkips
  import opened ProtobufSpellings

  // The records of some entries: one for all of them, or one for each.
  ghost function EntriesBytes(f: Field, items: seq<Value>, packed: bool): Option<String>
    requires forall k :: 0 <= k < |items| ==> ShapedValue(f, items[k])
  {
    if packed then Packed(f, items) else EntriesFrom(f, items, 0, true)
  }

  predicate Takes(f: Field, n: nat) {
    if f.rule.FixedCount? then n == 0 || n == f.arraySize else n <= f.arraySize
  }

  // Nothing of field i was read yet.
  ghost predicate Fresh(d: Descriptor, i: nat, st: State): (ok: bool)
    ensures ok ==> i < |d.fields|
  {
    && i < |d.fields| && d.fields[i].Array() && Shaped(d, st.cells) && CellOf(d, i) < |st.cells|
    && WellFormedField(d.fields[i]) && Target(d, st, i).size == 0 && FixedDone(d, st)
    && (d.fields[i].rule.FixedCount? ==> st.fixed != Some(i))
  }

  lemma FreshStarts(d: Descriptor, i: nat, st: State, items: seq<Value>)
    requires Fresh(d, i, st)
    ensures Reading(d, i, st, items, 0, st)
  {
    hide Shaped, CellOf, SameValue, WellFormedField;
  }

  // ---- As many as fit ----

  // The state after some entries were read.
  ghost predicate Took(d: Descriptor, i: nat, st: State, n: nat, after: State) {
    && Shaped(d, after.cells) && after.seen == st.seen && i < |d.fields| && CellOf(d, i) < |after.cells|
    && Target(d, after, i).size == n
    && (if d.fields[i].rule.FixedCount? then after.fixed == Some(i) && after.fixedSize == n
        else after.fixed == st.fixed && after.fixedSize == st.fixedSize)
  }

  lemma TookIs(d: Descriptor, i: nat, st: State, items: seq<Value>, after: State)
    requires Fresh(d, i, st) && items != [] && Reading(d, i, st, items, |items|, after)
    ensures Took(d, i, st, |items|, after)
  {
    hide Shaped, CellOf, SameValue, WellFormedField, FixedDone;
  }

  lemma TakesUnpacked(d: Descriptor, i: nat, st: State, items: seq<Value>, rest: String) returns (after: State)
    requires WellFormed(d) && Fresh(d, i, st) && 0 < |items| <= d.fields[i].arraySize
    requires forall j :: 0 <= j < |items| ==> ShapedValue(d.fields[i], items[j])
    requires EntriesFrom(d.fields[i], items, 0, true).Some? && |EntriesFrom(d.fields[i], items, 0, true).value| < TWO_32
    ensures var e := EntriesFrom(d.fields[i], items, 0, true).value;
            if TerminatedItems(d.fields[i], items, 0, |items|)
            then Took(d, i, st, |items|, after) && Run(d, st, e + rest) == Run(d, after, rest)
            else Run(d, st, e + rest) == Failed
  {
    hide Run, WellFormed, Shaped, CellOf, ShapedValue, EntriesFrom, Reading, TerminatedItems, Fresh, Took;
    FreshStarts(d, i, st, items);
    IsArray(d, i, st);
    after := RecordsRead(d, i, st, items, 0, st, rest);
    if TerminatedItems(d.fields[i], items, 0, |items|) {
      TookIs(d, i, st, items, after);
    }
  }

  lemma IsArray(d: Descriptor, i: nat, st: State)
    requires Fresh(d, i, st)
    ensures d.fields[i].Array() && WellFormedField(d.fields[i]) && Shaped(d, st.cells) && CellOf(d, i) < |st.cells|
    ensures Target(d, st, i).size == 0 && FixedDone(d, st)
  {
    hide Shaped, CellOf, WellFormedField, FixedDone;
  }

  lemma TakesPacked(d: Descriptor, i: nat, st: State, items: seq<Value>, rest: String) returns (after: State)
    requires WellFormed(d) && Fresh(d, i, st) && d.fields[i].Packable() && 0 < |items| <= d.fields[i].arraySize
    requires forall j :: 0 <= j < |items| ==> ShapedValue(d.fields[i], items[j])
    requires Packed(d.fields[i], items).Some? && |Packed(d.fields[i], items).value| < TWO_32
    ensures Took(d, i, st, |items|, after) && Run(d, st, Packed(d.fields[i], items).value + rest) == Run(d, after, rest)
  {
    hide Run, Step, WellFormed, Shaped, WellFormedField, CellOf, SameValue, ShapedValue, Key, Stored, Target, FixedDone,
         Delimited, EntriesFrom, ShapedCell, PackedAt, Fresh;
    var f := d.fields[i];
    PackedRecord(d, i, st, items, rest);
    var c := Target(d, st, i);
    PackedReads(f, items, 0, c.items);
    var r := PackedAt(f, c.items, 0, EntriesFrom(f, items, 0, false).value).value;
    after := Stored(d, st, i, r);
    TargetStored(d, st, i, r);
    SeenOnce(d, i, st);
  }

  lemma SeenOnce(d: Descriptor, i: nat, st: State)
    requires Fresh(d, i, st)
    ensures SeenWith(d, st.seen, i) == st.seen
  {
    hide Shaped, CellOf, WellFormedField, FixedDone;
  }

  // A packed record comes down to its contents.
  lemma PackedRecord(d: Descriptor, i: nat, st: State, items: seq<Value>, rest: String)
    requires WellFormed(d) && Fresh(d, i, st) && d.fields[i].Packable()
    requires forall j :: 0 <= j < |items| ==> ShapedValue(d.fields[i], items[j])
    requires Packed(d.fields[i], items).Some? && |Packed(d.fields[i], items).value| < TWO_32
    ensures CellOf(d, i) < |st.cells| && Target(d, st, i).size == 0 && WellFormedField(d.fields[i])
    ensures EntriesFrom(d.fields[i], items, 0, false).Some?
    ensures var f, c := d.fields[i], Target(d, st, i);
            && |c.items| == f.arraySize && (forall k :: 0 <= k < |c.items| ==> ShapedValue(f, c.items[k]))
            && var p := PackedAt(f, c.items, 0, EntriesFrom(f, items, 0, false).value);
               (p.Parsed? ==> Shaped(d, Stored(d, st, i, p.value).cells))
               && Run(d, st, Packed(f, items).value + rest) == if p.Failed? then Failed else Run(d, Stored(d, st, i, p.value), rest)
  {
    hide Run, Step, WellFormed, Shaped, WellFormedField, CellOf, SameValue, ShapedValue, Key, Stored, Target, FixedDone,
         Delimited, EntriesFrom, ShapedCell, PackedAt, Fresh;
    var f := d.fields[i];
    var key, contents := Key(WT_STRING, f.tag), EntriesFrom(f, items, 0, false).value;
    IsArray(d, i, st);
    DelimitedIsLonger(contents);
    Assoc(key, Delimited(contents), rest);
    KeyReads(d, st, i, WT_STRING, Delimited(contents) + rest);
    PackedStep(d, st, i, contents, rest);
    StepShaped(d, st, i, WT_STRING, Delimited(contents) + rest);
  }

  // ---- Too many ----

  lemma {:induction false} PackedOverflows(f: Field, items: seq<Value>, k: nat, dest: seq<Value>)
    requires WellFormedField(f) && f.Packable() && k <= f.arraySize == |dest| && f.arraySize < |items|
    requires forall j :: 0 <= j < |items| ==> ShapedValue(f, items[j])
    requires forall j :: 0 <= j < |dest| ==> ShapedValue(f, dest[j])
    requires EntriesFrom(f, items, k, false).Some?
    ensures PackedAt(f, dest, k, EntriesFrom(f, items, k, false).value).Failed?
    decreases |items| - k
  {
    hide Item, ItemAt, WellFormedField, ShapedValue, SameValue;
    if k < f.arraySize {
      var rest := EntriesFrom(f, items, k + 1, false).value;
      NotSubmessage(f);
      ScalarReads(f, items[k], dest[k], rest);
      AlwaysTerminated(f, items[k]);
      var v := ItemAt(f, dest[k], Item(f, items[k]).value + rest).value;
      PackedOverflows(f, items, k + 1, dest[k := v]);
    }
  }

  lemma {:induction false} EntriesSplit(f: Field, items: seq<Value>, k: nat, n: nat)
    requires k <= n < |items| && forall j :: 0 <= j < |items| ==> ShapedValue(f, items[j])
    requires EntriesFrom(f, items, k, true).Some?
    ensures EntriesFrom(f, items[..n], k, true).Some? && EntriesFrom(f, items, n, true).Some?
    ensures EntriesFrom(f, items, k, true).value == EntriesFrom(f, items[..n], k, true).value + EntriesFrom(f, items, n, true).value
    decreases n - k
  {
    hide Entry, ShapedValue;
    if k < n {
      EntriesSplit(f, items, k + 1, n);
      Assoc(Entry(f, items[k], true).value, EntriesFrom(f, items[..n], k + 1, true).value, EntriesFrom(f, items, n, true).value);
    }
  }

  // A full array takes no further record.
  lemma FullRefuses(d: Descriptor, i: nat, st: State, v: Value, rest: String)
    requires WellFormed(d) && Shaped(d, st.cells) && i < |d.fields| && d.fields[i].Array() && CellOf(d, i) < |st.cells|
    requires Target(d, st, i).size >= d.fields[i].arraySize && ShapedValue(d.fields[i], v) && Entry(d.fields[i], v, true).Some?
    ensures Run(d, st, Entry(d.fields[i], v, true).value + rest) == Failed
  {
    hide Run, Step, WellFormed, Shaped, WellFormedField, CellOf, ShapedValue, Key, Target, Item;
    var f := d.fields[i];
    var key, item := Key(WireType(f.kind), f.tag), Item(f, v).value;
    Assoc(key, item, rest);
    KeyReads(d, st, i, WireType(f.kind), item + rest);
    FullFails(d, i, st, item + rest);
  }

  lemma FullFails(d: Descriptor, i: nat, st: State, s: String)
    requires WellFormed(d) && Shaped(d, st.cells) && i < |d.fields| && d.fields[i].Array() && CellOf(d, i) < |st.cells|
    requires Target(d, st, i).size >= d.fields[i].arraySize
    ensures Step(d, st, i, WireType(d.fields[i].kind), s) == Failed
  {
    hide WellFormed, Shaped, WellFormedField, CellOf, ShapedValue, Target, ItemAt, PackedAt, FixedDone;
    TargetShaped(d, st, i);
  }

  lemma OverflowRefused(d: Descriptor, i: nat, st: State, items: seq<Value>, packed: bool)
    requires WellFormed(d) && Fresh(d, i, st) && (packed ==> d.fields[i].Packable()) && |items| > d.fields[i].arraySize
    requires forall j :: 0 <= j < |items| ==> ShapedValue(d.fields[i], items[j])
    requires var e := EntriesBytes(d.fields[i], items, packed); e.Some? && |e.value| < TWO_32
    ensures Run(d, st, EntriesBytes(d.fields[i], items, packed).value).Failed?
  {
    hide Run, WellFormed, Shaped, WellFormedField, CellOf, ShapedValue, Target, EntriesFrom, PackedAt, TerminatedItems, Fresh, Entry;
    var f := d.fields[i];
    var n, e := f.arraySize, EntriesBytes(f, items, packed).value;
    IsArray(d, i, st);
    assert e + [] == e;
    if packed {
      PackedRecord(d, i, st, items, []);
      PackedOverflows(f, items, 0, Target(d, st, i).items);
    } else {
      EntriesSplit(f, items, 0, n);
      var rest := EntriesFrom(f, items, n, true).value;
      NextEntry(f, items, n);
      var more := EntriesFrom(f, items, n + 1, true).value;
      if n == 0 {
        NoEntriesAt(f, items[..0]);
        assert e == rest;
        FullRefuses(d, i, st, items[0], more);
      } else {
        var after := TakesUnpacked(d, i, st, items[..n], rest);
        if TerminatedItems(f, items[..n], 0, n) {
          FullRefuses(d, i, after, items[n], more);
        }
      }
    }
  }

  lemma NextEntry(f: Field, items: seq<Value>, n: nat)
    requires n < |items| && (forall j :: 0 <= j < |items| ==> ShapedValue(f, items[j])) && EntriesFrom(f, items, n, true).Some?
    ensures Entry(f, items[n], true).Some? && EntriesFrom(f, items, n + 1, true).Some?
    ensures EntriesFrom(f, items, n, true).value == Entry(f, items[n], true).value + EntriesFrom(f, items, n + 1, true).value
  {
    hide Entry, ShapedValue;
  }

  lemma NoEntriesAt(f: Field, items: seq<Value>)
    requires items == []
    ensures EntriesFrom(f, items, 0, true) == Some([])
  {
  }

  // ---- The end of the message ----

  // With these entries as the last of a message, it is accepted exactly when the array takes that many.
  lemma EndsExactlyWhen(d: Descriptor, i: nat, st: State, after: State, n: nat)
    requires WellFormed(d) && Fresh(d, i, st) && Took(d, i, st, n, after) && 0 < n <= d.fields[i].arraySize
    ensures Shaped(d, after.cells) && (Run(d, after, []).Parsed? <==> Takes(d.fields[i], n) && AllSeen(d, st.seen))
  {
    hide WellFormed, Shaped, WellFormedField, CellOf, Target, AllSeen, Run;
    RunEnds(d, after);
  }

  lemma EntriesExactlyWhen(d: Descriptor, i: nat, st: State, items: seq<Value>, packed: bool)
    requires WellFormed(d) && Fresh(d, i, st) && (packed ==> d.fields[i].Packable() && items != [])
    requires forall j :: 0 <= j < |items| ==> ShapedValue(d.fields[i], items[j])
    requires var e := EntriesBytes(d.fields[i], items, packed); e.Some? && |e.value| < TWO_32
    ensures Shaped(d, st.cells)
    ensures Run(d, st, EntriesBytes(d.fields[i], items, packed).value).Parsed?
            <==> TerminatedItems(d.fields[i], items, 0, |items|) && Takes(d.fields[i], |items|) && AllSeen(d, st.seen)
  {
    hide Run, WellFormed, Shaped, WellFormedField, CellOf, ShapedValue, Target, EntriesFrom, TerminatedItems, AllSeen, Took, Packed;
    var f, e := d.fields[i], EntriesBytes(d.fields[i], items, packed).value;
    assert e + [] == e;
    if items == [] {
      NoEntriesAt(f, items);
      NoneAreTerminated(f, items);
      RunEnds(d, st);
    } else if |items| > f.arraySize {
      OverflowRefused(d, i, st, items, packed);
    } else if packed {
      var after := TakesPacked(d, i, st, items, []);
      PackedTerminated(f, items);
      EndsExactlyWhen(d, i, st, after, |items|);
    } else {
      var after := TakesUnpacked(d, i, st, items, []);
      if TerminatedItems(f, items, 0, |items|) {
        EndsExactlyWhen(d, i, st, after, |items|);
      }
    }
  }

  lemma NoneAreTerminated(f: Field, items: seq<Value>)
    requires items == []
    ensures TerminatedItems(f, items, 0, 0)
  {
  }

  lemma PackedTerminated(f: Field, items: seq<Value>)
    requires f.Packable()
    ensures TerminatedItems(f, items, 0, |items|)
  {
    hide TerminatedValue;
    NotSubmessage(f);
    forall k | 0 <= k < |items|
      ensures TerminatedValue(f, items[k])
    {
      AlwaysTerminated(f, items[k]);
    }
  }

  // Behind any spelling of a message that has nothing of the array yet, any number of entries of it, packed or
  // not, is accepted exactly when the array takes that many.
  lemma ArrayTakesExactly(d: Descriptor, m: seq<Cell>, dest: seq<Cell>, missing: set<nat>, gaps: seq<seq<String>>, forms: seq<String>,
                          i: nat, items: seq<Value>, packed: bool)
    requires WellFormed(d) && Shaped(d, m) && Shaped(d, dest) && IsSpelling(d, m, missing, gaps, forms)
    requires MissingStay(d, m, missing, Defaults(d, dest)) && i < |d.fields| && d.fields[i].Array()
    requires if d.fields[i].rule.FixedCount? then i in missing else CellOf(d, i) < |m| && m[CellOf(d, i)].size == 0
    requires forall j :: 0 <= j < |items| ==> ShapedValue(d.fields[i], items[j])
    requires packed ==> d.fields[i].Packable() && items != []
    requires var e := EntriesBytes(d.fields[i], items, packed); e.Some? && |e.value| < TWO_32
    ensures Decoding(d, dest, Woven(gaps, forms, 0, EntriesBytes(d.fields[i], items, packed).value)).Parsed?
            <==> && OthersTerminated(d, m, missing, 0) && EnoughSeen(d, missing)
                 && TerminatedItems(d.fields[i], items, 0, |items|) && Takes(d.fields[i], |items|)
  {
    hide Run, WellFormed, Shaped, Underway, Ready, Defaults, OthersTerminated, EnoughSeen, MissingStay, IsSpelling, EntriesBytes,
         TerminatedItems, CellOf, ShapedValue, Fresh, AllSeen;
    var start, e := Defaults(d, dest), EntriesBytes(d.fields[i], items, packed).value;
    BeginsUnderway(d, m, missing, start);
    var end := SpellingReads(d, m, missing, gaps, forms, 0, start, Start(start), e);
    if OthersTerminated(d, m, missing, 0) {
      EndIsFresh(d, m, missing, start, end, i);
      EntriesExactlyWhen(d, i, end, items, packed);
      EnoughIsSeen(d, m, missing, start, end);
    }
  }

  lemma EndIsFresh(d: Descriptor, m: seq<Cell>, missing: set<nat>, start: seq<Cell>, end: State, i: nat)
    requires WellFormed(d) && Underway(d, m, missing, |d.fields|, start, end) && i < |d.fields| && d.fields[i].Array()
    requires if d.fields[i].rule.FixedCount? then i in missing else CellOf(d, i) < |m| && m[CellOf(d, i)].size == 0
    ensures Shaped(d, end.cells)
    ensures Fresh(d, i, end)
  {
    hide WellFormed, Shaped, CellOf, Untouched, SeenAre, MissingStay, WellFormedField, FixedDone, SameItems, ReadyCell;
    UnderwayParts(d, m, missing, |d.fields|, start, end);
    ShapedCells(d, m);
    ShapedCells(d, end.cells);
    FieldIsFine(d, i);
  }

  lemma EnoughIsSeen(d: Descriptor, m: seq<Cell>, missing: set<nat>, start: seq<Cell>, end: State)
    requires WellFormed(d) && Underway(d, m, missing, |d.fields|, start, end)
    ensures AllSeen(d, end.seen) <==> EnoughSeen(d, missing)
  {
    hide WellFormed, Shaped, CellOf, Untouched, SeenAre, Progress, AllSeen, RequiredBefore;
    AllSeenExactlyWhen(d, missing, end.seen);
  }
}
