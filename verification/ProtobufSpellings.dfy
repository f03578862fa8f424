/** nanopb: messages as other senders spell them. Records that nobody knows stand anywhere between the fields,
    arrays of numbers come packed or entry by entry, and fields are left out. */
module ProtobufSpellings {
  import opened Bytes
  import opened Coding
  import opened Options
  import opened ProtobufFields
  import opened ProtobufInput
  import opened ProtobufEncoders
  import opened ProtobufDecoders
  import opened ProtobufRoundTrips
  import opened ProtobufSkips

  // ---- The spellings of a message ----

  ghost function Entries(f: Field, c: Cell): seq<Value>
    requires f.Array() && ShapedCell(f, c) && (f.rule.Repeated? ==> c.size <= f.arraySize)
  {
    c.items[..if f.rule.FixedCount? then f.arraySize else c.size]
  }

  lemma EntriesShaped(f: Field, c: Cell)
    requires f.Array() && ShapedCell(f, c) && (f.rule.Repeated? ==> c.size <= f.arraySize)
    ensures forall k :: 0 <= k < |Entries(f, c)| ==> ShapedValue(f, Entries(f, c)[k])
  {
    hide ShapedValue;
  }

  // The bytes of a field: those of pb_encode, or every entry of an array as a record of its own.
  ghost predicate IsForm(f: Field, c: Cell, e: String) {
    && ShapedCell(f, c) && FieldBytes(f, c).Some? && |FieldBytes(f, c).value| < TWO_32 && |e| < TWO_32
    && (e == FieldBytes(f, c).value || IsUnpacked(f, c, e))
  }

  ghost predicate IsUnpacked(f: Field, c: Cell, e: String)
    requires ShapedCell(f, c)
  {
    && f.Array() && (f.rule.Repeated? ==> c.size <= f.arraySize)
    && (forall k :: 0 <= k < |Entries(f, c)| ==> ShapedValue(f, Entries(f, c)[k]))
    && EntriesFrom(f, Entries(f, c), 0, true) == Some(e)
  }

  // One spelling of m: a form for each field except for the missing ones, and any records of other tags in front
  // of each field and at the end. Missing may be required fields and arrays of fixed length; others say that
  // they are absent.
  ghost predicate IsSpelling(d: Descriptor, m: seq<Cell>, missing: set<nat>, gaps: seq<seq<String>>, forms: seq<String>) {
    && |forms| == |d.fields| && |gaps| == |forms| + 1
    && (forall i :: 0 <= i < |forms| && i in missing ==> MayMiss(d.fields[i]) && forms[i] == [])
    && (forall i :: 0 <= i < |forms| && i !in missing ==> CellOf(d, i) < |m| && IsForm(d.fields[i], m[CellOf(d, i)], forms[i]))
    && forall i, k :: 0 <= i < |gaps| && 0 <= k < |gaps[i]| ==> Unknown(d, gaps[i][k])
  }

  predicate MayMiss(f: Field) {
    f.rule.Required? || f.rule.FixedCount?
  }

  // All of it from field i on, and then something else.
  function Woven(gaps: seq<seq<String>>, forms: seq<String>, i: nat, tail: String): String
    requires i <= |forms| && |gaps| == |forms| + 1
    decreases |forms| - i
  {
    AllOf(gaps[i]) + if i == |forms| then tail else forms[i] + Woven(gaps, forms, i + 1, tail)
  }

  // ---- One field ----

  lemma UnpackedReads(d: Descriptor, m: seq<Cell>, i: nat, st: State, e: String, rest: String) returns (after: State)
    requires WellFormed(d) && i < |d.fields| && Progress(d, m, i, st) && CellOf(d, i) < |m|
    requires IsForm(d.fields[i], m[CellOf(d, i)], e) && IsUnpacked(d.fields[i], m[CellOf(d, i)], e)
    ensures Goes(d, m, i, st, e, rest, after)
  {
    hide Run, WellFormed, Shaped, WellFormedField, CellOf, ShapedValue, Progress, EntriesFrom, Reading, Decoded,
         TerminatedValue, TerminatedItems, ShapedCell, FieldBytes;
    var f, src := d.fields[i], m[CellOf(d, i)];
    var items := Entries(f, src);
    ArrayParts(f, src, |items|);
    BeforeField(d, m, i, st);
    ReadingStarts(d, m, i, st, items);
    after := RecordsRead(d, i, st, items, 0, st, rest);
    if TerminatedItems(f, items, 0, |items|) {
      ReadingDone(d, m, i, st, after, |items|);
    }
  }

  lemma FormReads(d: Descriptor, m: seq<Cell>, i: nat, st: State, e: String, rest: String) returns (after: State)
    requires WellFormed(d) && i < |d.fields| && Progress(d, m, i, st) && CellOf(d, i) < |m| && IsForm(d.fields[i], m[CellOf(d, i)], e)
    ensures Goes(d, m, i, st, e, rest, after)
    ensures IsAbsent(d.fields[i], m[CellOf(d, i)]) ==> after == st
  {
    hide Run, WellFormed, Shaped, WellFormedField, CellOf, ShapedCell, Progress, Goes, FieldBytes, IsUnpacked;
    var f, src := d.fields[i], m[CellOf(d, i)];
    if IsAbsent(f, src) {
      AbsentForm(f, src, e);
      BeforeField(d, m, i, st);
      after := st;
      NothingToRead(d, m, i, st, rest);
    } else if e == FieldBytes(f, src).value {
      after := FieldReads(d, m, i, st, rest);
    } else {
      after := UnpackedReads(d, m, i, st, e, rest);
    }
  }

  predicate IsAbsent(f: Field, c: Cell) {
    f.rule.Optional? && c.size == 0
  }

  lemma AbsentForm(f: Field, c: Cell, e: String)
    requires IsForm(f, c, e) && IsAbsent(f, c)
    ensures e == []
  {
    hide ShapedValue, Entry;
  }

  // ---- What was not read ----

  // Fields that no record was read for have what they had at the start.
  ghost predicate Untouched(d: Descriptor, m: seq<Cell>, missing: set<nat>, i: nat, start: seq<Cell>, st: State) {
    forall j :: 0 <= j < |d.fields| && IsOpen(d, m, missing, i, j) ==>
                  && CellOf(d, j) < |start| && CellOf(d, j) < |st.cells|
                  && st.cells[CellOf(d, j)] == start[CellOf(d, j)]
  }

  ghost predicate IsOpen(d: Descriptor, m: seq<Cell>, missing: set<nat>, i: nat, j: nat)
    requires j < |d.fields|
  {
    && !d.fields[j].rule.OneOf?
    && (j >= i || j in missing || (CellOf(d, j) < |m| && IsAbsent(d.fields[j], m[CellOf(d, j)])))
  }

  lemma OpenBefore(d: Descriptor, m: seq<Cell>, missing: set<nat>, i: nat, j: nat)
    requires i < |d.fields| && j < |d.fields| && i !in missing && CellOf(d, i) < |m| && IsOpen(d, m, missing, i + 1, j)
    ensures IsOpen(d, m, missing, i, j) && (j == i ==> IsAbsent(d.fields[i], m[CellOf(d, i)]))
  {
    hide CellOf, IsAbsent;
  }

  lemma OwnCell(d: Descriptor, i: nat, j: nat)
    requires i < |d.fields| && j < |d.fields| && i != j && !d.fields[j].rule.OneOf?
    ensures CellOf(d, i) != CellOf(d, j)
  {
    hide CellOf;
    if CellOf(d, i) == CellOf(d, j) {
      SharedCell(d, if i < j then i else j, if i < j then j else i);
    }
  }

  lemma UntouchedStep(d: Descriptor, m: seq<Cell>, missing: set<nat>, i: nat, start: seq<Cell>, st: State, after: State)
    requires i < |d.fields| && Untouched(d, m, missing, i, start, st) && Shaped(d, m) && Shaped(d, st.cells)
    requires i !in missing && Decoded(d, m, i, st, after) && CellOf(d, i) < |m|
    requires IsAbsent(d.fields[i], m[CellOf(d, i)]) ==> after == st
    ensures Untouched(d, m, missing, i + 1, start, after)
  {
    hide CellOf, Shaped, Decoded, IsAbsent, IsOpen;
    OneCellChanges(d, m, i, st, after);
    forall j | 0 <= j < |d.fields| && IsOpen(d, m, missing, i + 1, j)
      ensures CellOf(d, j) < |start| && CellOf(d, j) < |after.cells| && after.cells[CellOf(d, j)] == start[CellOf(d, j)]
    {
      OpenBefore(d, m, missing, i, j);
      OpenRule(d, m, missing, i, j);
      if j != i {
        OwnCell(d, i, j);
      }
    }
  }

  lemma OneCellChanges(d: Descriptor, m: seq<Cell>, i: nat, st: State, after: State)
    requires i < |d.fields| && Shaped(d, m) && Shaped(d, st.cells) && Decoded(d, m, i, st, after)
    ensures |after.cells| == |st.cells|
    ensures forall c :: 0 <= c < |st.cells| && c != CellOf(d, i) ==> after.cells[c] == st.cells[c]
  {
    hide CellOf, Shaped, SameCell, FixedDone, SeenWith;
    SameLength(d, st.cells, after.cells);
  }

  lemma SameLength(d: Descriptor, a: seq<Cell>, b: seq<Cell>)
    requires Shaped(d, a) && Shaped(d, b)
    ensures |a| == |b|
  {
    hide CellOf, ShapedCell;
  }

  lemma OpenRule(d: Descriptor, m: seq<Cell>, missing: set<nat>, i: nat, j: nat)
    requires j < |d.fields| && IsOpen(d, m, missing, i, j)
    ensures !d.fields[j].rule.OneOf?
  {
    hide CellOf, IsAbsent;
  }

  // The tracked required fields before i that were not missing, and no others, were seen.
  ghost predicate SeenAre(d: Descriptor, missing: set<nat>, i: nat, seen: set<nat>)
    requires i <= |d.fields|
  {
    forall k: nat :: k in seen <==> exists j :: 0 <= j < i && Counts(d, missing, j, k)
  }

  ghost predicate Counts(d: Descriptor, missing: set<nat>, j: nat, k: nat)
    requires j < |d.fields|
  {
    j !in missing && d.fields[j].rule.Required? && RequiredBefore(d, j) == k < MAX_REQUIRED_FIELDS
  }

  lemma SeenStep(d: Descriptor, missing: set<nat>, i: nat, seen: set<nat>)
    requires i < |d.fields| && SeenAre(d, missing, i, seen)
    ensures SeenAre(d, missing, i + 1, if i in missing then seen else SeenWith(d, seen, i))
  {
    hide RequiredBefore;
    var after := if i in missing then seen else SeenWith(d, seen, i);
    forall k: nat
      ensures k in after <==> exists j :: 0 <= j < i + 1 && Counts(d, missing, j, k)
    {
      assert k in after <==> k in seen || Counts(d, missing, i, k);
    }
  }

  // All are seen exactly when every missing one is behind the first 64.
  lemma AllSeenExactlyWhen(d: Descriptor, missing: set<nat>, seen: set<nat>)
    requires SeenAre(d, missing, |d.fields|, seen)
    requires forall i :: i in missing ==> i < |d.fields|
    ensures AllSeen(d, seen) <==> forall i :: i in missing && d.fields[i].rule.Required? ==> RequiredBefore(d, i) >= 64
  {
    hide RequiredBefore;
    forall i | i in missing && d.fields[i].rule.Required? && RequiredBefore(d, i) < 64
      ensures RequiredBefore(d, i) < Tracked(d) && RequiredBefore(d, i) !in seen
    {
      RequiredAscend(d, i, |d.fields|);
      forall j | 0 <= j < |d.fields| && Counts(d, missing, j, RequiredBefore(d, i))
        ensures false
      {
        if i < j {
          RequiredAscend(d, i, j);
        } else if j < i {
          RequiredAscend(d, j, i);
        }
      }
    }
    if forall i :: i in missing && d.fields[i].rule.Required? ==> RequiredBefore(d, i) >= 64 {
      forall k: nat | k < Tracked(d)
        ensures k in seen
      {
        var i := RequiredAt(d, k, |d.fields|);
        assert Counts(d, missing, i, k);
      }
    }
  }

  // ---- The whole message ----

  ghost predicate OthersTerminated(d: Descriptor, m: seq<Cell>, missing: set<nat>, i: nat) {
    forall j :: i <= j < |d.fields| && j !in missing && CellOf(d, j) < |m| ==> TerminatedCell(d.fields[j], m[CellOf(d, j)])
  }

  lemma TerminatedNext(d: Descriptor, m: seq<Cell>, missing: set<nat>, i: nat)
    requires i < |d.fields| && CellOf(d, i) < |m|
    ensures OthersTerminated(d, m, missing, i)
            <==> (i in missing || TerminatedCell(d.fields[i], m[CellOf(d, i)])) && OthersTerminated(d, m, missing, i + 1)
  {
    hide CellOf, TerminatedCell;
  }

  // Absent optional fields have what they had at the start.
  ghost predicate AbsentShow(d: Descriptor, m: seq<Cell>, start: seq<Cell>, r: seq<Cell>) {
    forall j :: 0 <= j < |d.fields| && CellOf(d, j) < |m| && IsAbsent(d.fields[j], m[CellOf(d, j)]) ==>
                  CellOf(d, j) < |start| && CellOf(d, j) < |r| && r[CellOf(d, j)] == start[CellOf(d, j)]
  }

  // The fields before i were read, or are missing and as they were at the start.
  ghost predicate Underway(d: Descriptor, m: seq<Cell>, missing: set<nat>, i: nat, start: seq<Cell>, st: State) {
    && i <= |d.fields| && Progress(d, m, i, st) && Untouched(d, m, missing, i, start, st) && SeenAre(d, missing, i, st.seen)
    && Shaped(d, start) && MissingStay(d, m, missing, start) && (st.fixed.Some? ==> st.fixed.value !in missing)
  }

  ghost predicate MissingStay(d: Descriptor, m: seq<Cell>, missing: set<nat>, start: seq<Cell>) {
    forall j :: j in missing ==>
                  && j < |d.fields| && MayMiss(d.fields[j])
                  && CellOf(d, j) < |m| && CellOf(d, j) < |start| && m[CellOf(d, j)] == start[CellOf(d, j)]
  }

  // Field i is read, or skipped because it is missing, or refused for a string without a terminator.
  lemma NextField(d: Descriptor, m: seq<Cell>, missing: set<nat>, gaps: seq<seq<String>>, forms: seq<String>,
                  i: nat, start: seq<Cell>, st: State, tail: String) returns (next: State)
    requires WellFormed(d) && IsSpelling(d, m, missing, gaps, forms) && i < |d.fields| && Underway(d, m, missing, i, start, st)
    ensures Shaped(d, st.cells) && CellOf(d, i) < |m|
    ensures i in missing || TerminatedCell(d.fields[i], m[CellOf(d, i)]) ==>
              Underway(d, m, missing, i + 1, start, next) && Shaped(d, next.cells)
    ensures Run(d, st, Woven(gaps, forms, i, tail))
            == if i in missing || TerminatedCell(d.fields[i], m[CellOf(d, i)]) then Run(d, next, Woven(gaps, forms, i + 1, tail)) else Failed
  {
    hide Run, WellFormed, Shaped, CellOf, IsForm, Progress, Untouched, SeenAre, Decoded, Unknown, Goes, TerminatedCell, RequiredBefore,
         MissingStay, Woven;
    UnderwayParts(d, m, missing, i, start, st);
    GapSkipped(d, m, missing, gaps, forms, i, st, tail);
    var rest := Woven(gaps, forms, i + 1, tail);
    next := st;
    if i in missing {
      assert forms[i] + rest == rest;
      MissingStep(d, m, missing, i, start, st);
    } else {
      var after := FormReads(d, m, i, st, forms[i], rest);
      GoesOrFails(d, m, i, st, forms[i], rest, after);
      if TerminatedCell(d.fields[i], m[CellOf(d, i)]) {
        FormStep(d, m, missing, i, start, st, after);
        next := after;
      }
    }
  }

  lemma {:induction false} SpellingReads(d: Descriptor, m: seq<Cell>, missing: set<nat>, gaps: seq<seq<String>>, forms: seq<String>,
                                         i: nat, start: seq<Cell>, st: State, tail: String) returns (end: State)
    requires WellFormed(d) && IsSpelling(d, m, missing, gaps, forms) && i <= |d.fields| && Underway(d, m, missing, i, start, st)
    ensures Shaped(d, st.cells) && |forms| == |d.fields| && |gaps| == |forms| + 1
    ensures OthersTerminated(d, m, missing, i) ==> Underway(d, m, missing, |d.fields|, start, end) && Shaped(d, end.cells)
    ensures Run(d, st, Woven(gaps, forms, i, tail)) == if OthersTerminated(d, m, missing, i) then Run(d, end, tail) else Failed
    decreases |d.fields| - i
  {
    hide *;
    SpellingParts(d, m, missing, gaps, forms);
    UnderwayParts(d, m, missing, i, start, st);
    end := st;
    if i < |d.fields| {
      var next := NextField(d, m, missing, gaps, forms, i, start, st, tail);
      TerminatedNext(d, m, missing, i);
      if i in missing || TerminatedCell(d.fields[i], m[CellOf(d, i)]) {
        end := SpellingReads(d, m, missing, gaps, forms, i + 1, start, next, tail);
      }
    } else {
      GapSkipped(d, m, missing, gaps, forms, i, st, tail);
      NothingLeftToEnd(d, m, missing);
    }
  }

  lemma SpellingParts(d: Descriptor, m: seq<Cell>, missing: set<nat>, gaps: seq<seq<String>>, forms: seq<String>)
    requires IsSpelling(d, m, missing, gaps, forms)
    ensures |forms| == |d.fields| && |gaps| == |forms| + 1
  {
    hide CellOf, IsForm, Unknown;
  }

  lemma NothingLeftToEnd(d: Descriptor, m: seq<Cell>, missing: set<nat>)
    ensures OthersTerminated(d, m, missing, |d.fields|)
  {
  }

  lemma UnderwayParts(d: Descriptor, m: seq<Cell>, missing: set<nat>, i: nat, start: seq<Cell>, st: State)
    requires Underway(d, m, missing, i, start, st)
    ensures Shaped(d, m) && Shaped(d, st.cells) && i <= |d.fields|
    ensures i < |d.fields| ==> CellOf(d, i) < |m|
  {
    hide Shaped, Untouched, SeenAre, CellOf;
    ProgressShaped(d, m, i, st);
    ShapedCells(d, m);
  }

  lemma GapSkipped(d: Descriptor, m: seq<Cell>, missing: set<nat>, gaps: seq<seq<String>>, forms: seq<String>, i: nat, st: State,
                   tail: String)
    requires WellFormed(d) && Shaped(d, st.cells) && IsSpelling(d, m, missing, gaps, forms) && i <= |d.fields|
    ensures Run(d, st, Woven(gaps, forms, i, tail))
            == Run(d, st, if i == |d.fields| then tail else forms[i] + Woven(gaps, forms, i + 1, tail))
  {
    hide Run, WellFormed, Shaped, CellOf, IsForm, Unknown;
    assert forall k :: 0 <= k < |gaps[i]| ==> Unknown(d, gaps[i][k]);
    RunSkips(d, st, gaps[i], if i == |d.fields| then tail else forms[i] + Woven(gaps, forms, i + 1, tail));
  }

  // Behind all fields, the decoder accepts unless a tracked required field is missing.
  lemma SpellingEnds(d: Descriptor, m: seq<Cell>, missing: set<nat>, start: seq<Cell>, st: State)
    requires WellFormed(d) && Underway(d, m, missing, |d.fields|, start, st)
    ensures Shaped(d, st.cells)
    ensures Run(d, st, []) == if EnoughSeen(d, missing) then Parsed(st.cells, []) else Failed
    ensures Same(d, m, st.cells) && AbsentShow(d, m, start, st.cells)
  {
    hide Run, WellFormed, Shaped, CellOf, SameCell, RequiredBefore, SeenAre, ReadyCell, AllSeen, TerminatedCell;
    UnderwayParts(d, m, missing, |d.fields|, start, st);
    ShapedCells(d, m);
    ShapedCells(d, st.cells);
    RunEnds(d, st);
    AllSeenExactlyWhen(d, missing, st.seen);
    AbsentAreOpen(d, m, missing, start, st);
  }

  // Only the first 64 required fields have to be there.
  ghost predicate EnoughSeen(d: Descriptor, missing: set<nat>) {
    forall i :: i in missing && i < |d.fields| && d.fields[i].rule.Required? ==> RequiredBefore(d, i) >= 64
  }

  lemma AbsentAreOpen(d: Descriptor, m: seq<Cell>, missing: set<nat>, start: seq<Cell>, st: State)
    requires Untouched(d, m, missing, |d.fields|, start, st)
    ensures AbsentShow(d, m, start, st.cells)
  {
    hide CellOf;
    forall j | 0 <= j < |d.fields| && CellOf(d, j) < |m| && IsAbsent(d.fields[j], m[CellOf(d, j)])
      ensures CellOf(d, j) < |start| && CellOf(d, j) < |st.cells| && st.cells[CellOf(d, j)] == start[CellOf(d, j)]
    {
      assert IsOpen(d, m, missing, |d.fields|, j);
    }
  }

  lemma GoesOrFails(d: Descriptor, m: seq<Cell>, i: nat, st: State, e: String, rest: String, after: State)
    requires WellFormed(d) && i < |d.fields| && Shaped(d, m) && Shaped(d, st.cells) && CellOf(d, i) < |m| && Goes(d, m, i, st, e, rest, after)
    ensures if TerminatedCell(d.fields[i], m[CellOf(d, i)])
            then Decoded(d, m, i, st, after) && Shaped(d, after.cells) && Run(d, st, e + rest) == Run(d, after, rest)
            else Run(d, st, e + rest) == Failed
  {
    hide Run, WellFormed, Shaped, CellOf, TerminatedCell, SameCell, FixedDone, SeenWith;
  }

  lemma FormStep(d: Descriptor, m: seq<Cell>, missing: set<nat>, i: nat, start: seq<Cell>, st: State, after: State)
    requires WellFormed(d) && i < |d.fields| && i !in missing && Underway(d, m, missing, i, start, st)
    requires Shaped(d, m) && Shaped(d, st.cells) && Decoded(d, m, i, st, after) && CellOf(d, i) < |m|
    requires IsAbsent(d.fields[i], m[CellOf(d, i)]) ==> after == st
    ensures Underway(d, m, missing, i + 1, start, after)
  {
    hide WellFormed, Shaped, CellOf, Progress, Untouched, SeenAre, Decoded, SeenWith, MissingStay;
    Advance(d, m, i, st, after);
    UntouchedStep(d, m, missing, i, start, st, after);
    SeenStep(d, missing, i, st.seen);
    SeenAfter(d, m, i, st, after);
  }

  lemma SeenAfter(d: Descriptor, m: seq<Cell>, i: nat, st: State, after: State)
    requires i < |d.fields| && Shaped(d, m) && Shaped(d, st.cells) && Decoded(d, m, i, st, after)
    ensures after.seen == SeenWith(d, st.seen, i) && (after.fixed == st.fixed || after.fixed == Some(i))
  {
    hide Shaped, CellOf, SameCell, FixedDone, SeenWith;
  }

  lemma MissingStep(d: Descriptor, m: seq<Cell>, missing: set<nat>, i: nat, start: seq<Cell>, st: State)
    requires WellFormed(d) && i < |d.fields| && i in missing && Underway(d, m, missing, i, start, st)
    ensures Underway(d, m, missing, i + 1, start, st)
  {
    hide WellFormed, Shaped, CellOf, SeenAre, SameCell, ReadyCell, FixedDone, IsAbsent;
    UnderwayParts(d, m, missing, i, start, st);
    ShapedCells(d, m);
    assert IsOpen(d, m, missing, i, i);
    FieldIsShaped(d, m, i);
    SameAsItself(d.fields[i], m[CellOf(d, i)]);
    SeenStep(d, missing, i, st.seen);
    forall j | 0 <= j < |d.fields| && IsOpen(d, m, missing, i + 1, j)
      ensures IsOpen(d, m, missing, i, j)
    {
    }
  }

  lemma FieldIsShaped(d: Descriptor, cells: seq<Cell>, i: nat)
    requires WellFormed(d) && Shaped(d, cells) && i < |d.fields|
    ensures CellOf(d, i) < |cells| && ShapedCell(d.fields[i], cells[CellOf(d, i)])
  {
    hide CellOf, ShapedCell, WellFormedField;
  }

  // Any spelling of a message is read as the message: with records of unknown fields anywhere, with arrays of
  // numbers packed or not, and with required fields and fixed arrays missing, which show their defaults in m. It
  // is refused exactly when one of the first 64 required fields is missing or a string that is there is not
  // terminated.
  lemma SpellingIsRead(d: Descriptor, m: seq<Cell>, dest: seq<Cell>, missing: set<nat>, gaps: seq<seq<String>>, forms: seq<String>)
    requires WellFormed(d) && Shaped(d, m) && Shaped(d, dest) && IsSpelling(d, m, missing, gaps, forms)
    requires MissingStay(d, m, missing, Defaults(d, dest))
    ensures Decoding(d, dest, Woven(gaps, forms, 0, [])).Parsed? <==> OthersTerminated(d, m, missing, 0) && EnoughSeen(d, missing)
    ensures var p := Decoding(d, dest, Woven(gaps, forms, 0, []));
            p.Parsed? ==> p.rest == [] && Same(d, m, p.value) && AbsentShow(d, m, Defaults(d, dest), p.value)
  {
    hide Run, WellFormed, Shaped, Underway, Ready, Defaults, OthersTerminated, EnoughSeen, Same, AbsentShow, MissingStay, IsSpelling;
    var start := Defaults(d, dest);
    BeginsUnderway(d, m, missing, start);
    var end := SpellingReads(d, m, missing, gaps, forms, 0, start, Start(start), []);
    if OthersTerminated(d, m, missing, 0) {
      SpellingEnds(d, m, missing, start, end);
    }
  }

  lemma BeginsUnderway(d: Descriptor, m: seq<Cell>, missing: set<nat>, start: seq<Cell>)
    requires WellFormed(d) && Shaped(d, m) && Shaped(d, start) && Ready(d, start) && MissingStay(d, m, missing, start)
    ensures Underway(d, m, missing, 0, start, Start(start))
  {
    hide WellFormed, Shaped, Ready, Progress, Untouched, SeenAre, MissingStay;
    Begins(d, m, start);
    NothingRead(d, m, missing, start);
  }

  lemma NothingRead(d: Descriptor, m: seq<Cell>, missing: set<nat>, start: seq<Cell>)
    requires Shaped(d, start)
    ensures Untouched(d, m, missing, 0, start, Start(start)) && SeenAre(d, missing, 0, {})
  {
    hide ShapedCell, CellOf, RequiredBefore, IsOpen;
    ShapedCells(d, start);
  }

  // What pb_encode writes for a field of another descriptor is one or more unknown records, or nothing.
  lemma FieldIsUnknown(d: Descriptor, f: Field, c: Cell) returns (records: seq<String>)
    requires WellFormedField(f) && NotIn(d, f.tag)
    requires ShapedCell(f, c) && FieldBytes(f, c).Some? && |FieldBytes(f, c).value| < TWO_32
    ensures AllOf(records) == FieldBytes(f, c).value && forall k :: 0 <= k < |records| ==> Unknown(d, records[k])
  {
    hide Entry, ShapedValue, WellFormedField, EntriesFrom, Packed, Unknown, ShapedCell;
    records := [];
    if f.Array() {
      var count := if f.rule.FixedCount? then f.arraySize else c.size;
      ArrayParts(f, c, count);
      if count > 0 && f.Packable() {
        records := [Packed(f, c.items[..count]).value];
        PackedIsRecord(f, c.items[..count]);
        RecordIsUnknown(d, records[0], f, 2);
        OneOfAll(records[0]);
      } else if count > 0 {
        records := EntriesAreUnknown(d, f, c.items[..count], 0);
      }
    } else {
      SingleShaped(f, c);
      if f.rule.Required? || (f.rule.Optional? && c.size != 0) || (f.rule.OneOf? && c.size == f.tag) {
        records := [Entry(f, c.items[0], true).value];
        EntryIsUnknown(d, f, c.items[0]);
        OneOfAll(records[0]);
      }
    }
  }

  lemma SingleShaped(f: Field, c: Cell)
    requires ShapedCell(f, c) && !f.Array()
    ensures |c.items| == 1 && (!f.rule.OneOf? || c.size == f.tag ==> ShapedValue(f, c.items[0]))
  {
    hide ShapedValue;
  }

  lemma OneOfAll(e: String)
    ensures AllOf([e]) == e
  {
    assert [e][1..] == [];
    assert e + [] == e;
  }

  lemma {:induction false} EntriesAreUnknown(d: Descriptor, f: Field, items: seq<Value>, k: nat) returns (records: seq<String>)
    requires WellFormedField(f) && NotIn(d, f.tag) && k <= |items| && forall j :: 0 <= j < |items| ==> ShapedValue(f, items[j])
    requires EntriesFrom(f, items, k, true).Some? && |EntriesFrom(f, items, k, true).value| < TWO_32
    ensures AllOf(records) == EntriesFrom(f, items, k, true).value && forall j :: 0 <= j < |records| ==> Unknown(d, records[j])
    decreases |items| - k
  {
    hide Entry, ShapedValue, WellFormedField, Unknown;
    if k == |items| {
      records := [];
    } else {
      EntryIsUnknown(d, f, items[k]);
      var more := EntriesAreUnknown(d, f, items, k + 1);
      records := [Entry(f, items[k], true).value] + more;
      assert records[1..] == more;
    }
  }

  lemma EntryIsUnknown(d: Descriptor, f: Field, v: Value)
    requires WellFormedField(f) && NotIn(d, f.tag)
    requires ShapedValue(f, v) && Entry(f, v, true).Some? && |Entry(f, v, true).value| < TWO_32
    ensures Unknown(d, Entry(f, v, true).value)
  {
    hide IsRecord, Entry, ShapedValue, WellFormedField, Unknown;
    EntryIsRecord(f, v);
    var w := if f.kind.LFixed64? then 1 else if f.kind.LFixed32? then 5
             else if f.kind.LBytes? || f.kind.LString? || f.kind.LFixedLengthBytes? || f.kind.LSubmessage? then 2 else 0;
    RecordIsUnknown(d, Entry(f, v, true).value, f, w);
  }

  lemma RecordIsUnknown(d: Descriptor, e: String, f: Field, wireType: nat)
    requires WellFormedField(f) && NotIn(d, f.tag) && IsRecord(e, f.tag, wireType)
    ensures Unknown(d, e)
  {
    hide ReadTag, AfterField, Varint, WellFormedField;
    TagIsPositive(f);
    var item := e[|Varint(8 * f.tag + wireType)|..];
    assert e + [] == e && item + [] == item;
  }

  // ---- Defaults ----

  // The memory of a value that is all zeros.
  predicate IsZero(f: Field, v: Value) {
    match f.kind
    case LBytes => v == Raw([])
    case LString => v.Raw? && |v.bytes| == f.dataSize && forall k :: 0 <= k < |v.bytes| ==> v.bytes[k] == 0
    case LFixedLengthBytes => v.Raw? && |v.bytes| == f.dataSize && forall k :: 0 <= k < |v.bytes| ==> v.bytes[k] == 0
    case LSubmessage => v.Struct?
    case _ => v == Number(0)
  }

  lemma DefaultIs(f: Field, v: Value)
    requires WellFormedField(f) && ShapedValue(f, v) && !f.kind.LSubmessage?
    ensures f.initial.Some? ==> DefaultValue(f, v) == f.initial.value
    ensures f.initial.None? ==> IsZero(f, DefaultValue(f, v))
  {
    hide WellFormed, Shaped, ZeroCells, Defaults;
  }

  // Before anything is read, an optional field is absent and shows its initial value, or zeros; a required one
  // shows it too, and an array has no entries.
  lemma DefaultsShow(d: Descriptor, cells: seq<Cell>, i: nat)
    requires WellFormed(d) && Shaped(d, cells) && i < |d.fields| && !d.fields[i].rule.OneOf?
    ensures CellOf(d, i) < |Defaults(d, cells)|
    ensures var f, c := d.fields[i], Defaults(d, cells)[CellOf(d, i)];
            && (f.rule.Optional? || f.rule.Repeated? ==> c.size == 0)
            && ((f.rule.Optional? || f.rule.Required?) && !f.kind.LSubmessage? ==>
                  |c.items| == 1 && if f.initial.Some? then c.items[0] == f.initial.value else IsZero(f, c.items[0]))
  {
    hide WellFormed, Shaped, CellOf, IsZero, DefaultsUpTo;
    DefaultsAt(d, cells, |d.fields|, i);
    DefaultsAre(d, cells);
  }

  lemma DefaultsAre(d: Descriptor, cells: seq<Cell>)
    requires WellFormed(d) && Shaped(d, cells)
    ensures Defaults(d, cells) == DefaultsUpTo(d, cells, |d.fields|)
  {
    hide WellFormed, Shaped, DefaultsUpTo;
  }

  ghost predicate ShowsDefault(f: Field, c: Cell) {
    && (f.rule.Optional? || f.rule.Repeated? ==> c.size == 0)
    && ((f.rule.Optional? || f.rule.Required?) && !f.kind.LSubmessage? ==>
          |c.items| == 1 && if f.initial.Some? then c.items[0] == f.initial.value else IsZero(f, c.items[0]))
  }

  lemma CellShowsDefault(f: Field, c: Cell)
    requires WellFormedField(f) && ShapedCell(f, c) && !f.rule.OneOf?
    ensures ShowsDefault(f, DefaultCell(f, c))
  {
    hide WellFormedField, DefaultValue, IsZero, ShapedValue;
    if (f.rule.Optional? || f.rule.Required?) && !f.kind.LSubmessage? {
      DefaultIs(f, c.items[0]);
    }
  }

  lemma {:induction false} DefaultsAt(d: Descriptor, cells: seq<Cell>, n: nat, i: nat)
    requires WellFormed(d) && Shaped(d, cells) && i < n <= |d.fields| && !d.fields[i].rule.OneOf?
    ensures CellOf(d, i) < |DefaultsUpTo(d, cells, n)| && ShowsDefault(d.fields[i], DefaultsUpTo(d, cells, n)[CellOf(d, i)])
    decreases n
  {
    hide WellFormed, Shaped, CellOf, ShowsDefault, DefaultCell, ReadyCell, WellFormedField, ShapedCell;
    var before := DefaultsUpTo(d, cells, n - 1);
    FieldIsShaped(d, before, n - 1);
    FieldIsShaped(d, before, i);
    FieldIsFine(d, n - 1);
    if i == n - 1 {
      CellShowsDefault(d.fields[i], before[CellOf(d, i)]);
    } else {
      DefaultsAt(d, cells, n - 1, i);
      AloneInCell(d, i, n - 1);
    }
  }

  lemma AloneInCell(d: Descriptor, i: nat, j: nat)
    requires i < j < |d.fields| && !d.fields[i].rule.OneOf?
    ensures CellOf(d, i) != CellOf(d, j)
  {
    hide CellOf;
    if CellOf(d, i) == CellOf(d, j) {
      SharedCell(d, i, j);
    }
  }

  // ---- Nothing can be told apart from itself ----

  lemma SameAsItself(f: Field, c: Cell)
    requires ShapedCell(f, c)
    ensures SameCell(f, c, c)
    decreases f, 1
  {
    hide ShapedValue, SameValue;
    forall k | 0 <= k < |c.items| && ShapedValue(f, c.items[k])
      ensures SameValue(f, c.items[k], c.items[k])
    {
      SameValueAsItself(f, c.items[k]);
    }
  }

  lemma SameValueAsItself(f: Field, v: Value)
    requires ShapedValue(f, v)
    ensures SameValue(f, v, v)
    decreases f, 0
  {
    hide ShapedCell, SameCell, CellOf;
    if f.kind.LSubmessage? {
      forall i | 0 <= i < |f.sub.fields|
        ensures CellOf(f.sub, i) < |v.cells| && SameCell(f.sub.fields[i], v.cells[CellOf(f.sub, i)], v.cells[CellOf(f.sub, i)])
      {
        SameAsItself(f.sub.fields[i], v.cells[CellOf(f.sub, i)]);
      }
    }
  }
}
