/** Reading the records `7z l -slt` prints, and printing them: what was printed is what is read. */
module ArchiveRecords {
  import opened Common
  import opened Text

  type Record = map<string, string>

  // ----- The separator line, found as the multi-line pattern finds it

  predicate EndsLine(c: char) { c == '\n' || c == '\r' || c == '\U{2028}' || c == '\U{2029}' }

  const DASHES := "----------"

  predicate LineStart(s: string, i: nat)
    requires i <= |s|
  {
    i == 0 || EndsLine(s[i - 1])
  }

  predicate LineEnd(s: string, i: nat)
    requires i <= |s|
  {
    i == |s| || EndsLine(s[i])
  }

  /** How long a separator at `i` is: ten dashes alone on their line, and a carriage return if one ends it. Zero for none. */
  function SeparatorAt(s: string, i: nat): (n: nat)
    requires i <= |s|
    ensures i + n <= |s|
  {
    if LineStart(s, i) && i + 10 <= |s| && s[i..i + 10] == DASHES then
      if i + 10 < |s| && s[i + 10] == '\r' && LineEnd(s, i + 11) then 11
      else if LineEnd(s, i + 10) then 10
      else 0
    else 0
  }

  /** The text cut at every separator, from `i` on; `start` is where the piece being read began. */
  function Pieces(s: string, start: nat, i: nat): (pieces: seq<string>)
    requires start <= i <= |s|
    ensures |pieces| >= 1
    decreases |s| - i
  {
    if i == |s| then [s[start..]]
    else
      var n := SeparatorAt(s, i);
      if n > 0 then [s[start..i]] + Pieces(s, i + n, i + n) else Pieces(s, start, i + 1)
  }

  // ----- Lines into records

  predicate IsSpace(c: char) {
    '\U{9}' <= c <= '\U{d}' || c == ' ' || c == '\U{a0}' || c == '\U{1680}' || '\U{2000}' <= c <= '\U{200a}'
    || EndsLine(c) || c == '\U{202f}' || c == '\U{205f}' || c == '\U{3000}' || c == '\U{feff}'
  }

  predicate Blank(line: string) { forall i :: 0 <= i < |line| ==> IsSpace(line[i]) }

  /** The first place of " = ". */
  function FindEquals(line: string): (at: Option<nat>)
    ensures at.Some? ==> at.value + 3 <= |line| && line[at.value..at.value + 3] == " = "
  {
    if |line| < 3 then None
    else if line[..3] == " = " then Some(0)
    else
      match FindEquals(line[1..])
      case None => None
      case Some(n) => Some(n + 1)
  }

  function StripReturn(line: string): string {
    if line != "" && line[|line| - 1] == '\r' then line[..|line| - 1] else line
  }

  /** What the loop holds between two lines: the record being read, and the key whose value goes on. */
  datatype Reading = Reading(current: Option<Record>, lastKey: string)

  const Idle := Reading(None, "")

  function TakeLine(st: Reading, rawLine: string): (Reading, seq<Record>) {
    var line := StripReturn(rawLine);
    if Blank(line) then (Idle, Flush(st))
    else
      match FindEquals(line)
      case None =>
        if st.current.Some? && st.lastKey != "" && st.lastKey in st.current.value
        then (st.(current := Some(st.current.value[st.lastKey := st.current.value[st.lastKey] + "\n" + line])), [])
        else (st, [])
      case Some(at) =>
        var current := if st.current.Some? then st.current.value else map[];
        (Reading(Some(current[line[..at] := line[at + 3..]]), line[..at]), [])
  }

  function Flush(st: Reading): seq<Record> { if st.current.Some? then [st.current.value] else [] }

  function ParseLines(st: Reading, lines: seq<string>): seq<Record>
    decreases |lines|
  {
    if lines == [] then Flush(st)
    else
      var (next, out) := TakeLine(st, lines[0]);
      out + ParseLines(next, lines[1..])
  }

  function ParseRecords(stdout: string): seq<Record> {
    var separated := Pieces(stdout, 0, 0);
    if |separated| < 2 then [] else ParseLines(Idle, Split(Join(separated[1..], '\n'), '\n'))
  }

  /** One turn of the loop over the lines: the record being read changes, and may be pushed. */
  method ReadLine(current0: Option<Record>, lastKey0: string, rawLine: string)
    returns (current: Option<Record>, lastKey: string, pushed: seq<Record>)
    ensures (Reading(current, lastKey), pushed) == TakeLine(Reading(current0, lastKey0), rawLine)
  {
    current, lastKey, pushed := current0, lastKey0, [];
    var line := StripReturn(rawLine);
    if Blank(line) {
      if current.Some? { pushed := [current.value]; }
      current, lastKey := None, "";
      return;
    }
    var at := FindEquals(line);
    if at.None? {
      if current.Some? && lastKey != "" && lastKey in current.value {
        current := Some(current.value[lastKey := current.value[lastKey] + "\n" + line]);
      }
      return;
    }
    if current.None? { current := Some(map[]); }
    lastKey := line[..at.value];
    current := Some(current.value[lastKey := line[at.value + 3..]]);
  }

  /** What is left to read after the line at `i`, with the records read so far before it. */
  lemma LinesFrom(st: Reading, lines: seq<string>, i: nat, records: seq<Record>)
    requires i < |lines|
    ensures var (next, out) := TakeLine(st, lines[i]);
            records + ParseLines(st, lines[i..]) == (records + out) + ParseLines(next, lines[i + 1..])
  {
    hide TakeLine, Flush;
    assert lines[i..][0] == lines[i] && lines[i..][1..] == lines[i + 1..];
    var (next, out) := TakeLine(st, lines[i]);
    assert records + (out + ParseLines(next, lines[i + 1..])) == (records + out) + ParseLines(next, lines[i + 1..]);
  }

  method ReadRecords(stdout: string) returns (records: seq<Record>)
    ensures records == ParseRecords(stdout)
  {
    var separated := Pieces(stdout, 0, 0);
    if |separated| < 2 { return []; }
    var lines := Split(Join(separated[1..], '\n'), '\n');
    hide Pieces, Split, Join, TakeLine;
    records := [];
    var current: Option<Record>, lastKey := None, "";
    assert lines[0..] == lines;
    for i := 0 to |lines|
      invariant records + ParseLines(Reading(current, lastKey), lines[i..]) == ParseLines(Idle, lines)
    {
      LinesFrom(Reading(current, lastKey), lines, i, records);
      hide ParseLines;
      var pushed;
      current, lastKey, pushed := ReadLine(current, lastKey, lines[i]);
      records := records + pushed;
    }
    assert lines[|lines|..] == [];
    if current.Some? { records := records + [current.value]; }
  }

  // ----- Printing

  datatype Field = Field(key: string, value: string)

  function FieldLines(f: Field): seq<string> {
    var lines := Split(f.value, '\n');
    [f.key + " = " + lines[0]] + lines[1..]
  }

  /** A record's fields, one after the other, and the blank line that ends it. */
  function RecordLines(fields: seq<Field>): seq<string> {
    if fields == [] then [""] else FieldLines(fields[0]) + RecordLines(fields[1..])
  }

  function AllLines(records: seq<seq<Field>>): seq<string> {
    if records == [] then [""] else RecordLines(records[0]) + AllLines(records[1..])
  }

  function FieldsMap(fields: seq<Field>, onto: Record): Record {
    if fields == [] then onto else FieldsMap(fields[1..], onto[fields[0].key := fields[0].value])
  }

  function RecordMaps(records: seq<seq<Field>>): seq<Record> {
    if records == [] then [] else [FieldsMap(records[0], map[])] + RecordMaps(records[1..])
  }

  /** A line that goes on the value above it as it stands. */
  ghost predicate Continues(line: string) { StripReturn(line) == line && !Blank(line) && FindEquals(line).None? }

  /** A key of its own: not empty, and without "=" or a line break. */
  ghost predicate IsKey(key: string) { key != "" && '=' !in key && '\n' !in key }

  /** A value with no line that ends in a carriage return, each line after the first saying something but not " = ". */
  ghost predicate ReadsBack(f: Field) {
    && StripReturn(FieldLines(f)[0]) == FieldLines(f)[0]
    && forall i :: 1 <= i < |FieldLines(f)| ==> Continues(FieldLines(f)[i])
  }

  /** A line that stays itself: no carriage return to strip, and no separator hidden in it. */
  ghost predicate CleanLine(line: string) {
    StripReturn(line) == line && forall i :: 0 <= i <= |line| ==> SeparatorAt(line, i) == 0
  }

  /** A field that can be printed anywhere in the output: it reads back, and none of its lines is taken for the separator. */
  ghost predicate Printable(f: Field) {
    IsKey(f.key) && ReadsBack(f) && forall i :: 0 <= i < |FieldLines(f)| ==> CleanLine(FieldLines(f)[i])
  }

  ghost predicate PrintableRecord(fields: seq<Field>) {
    fields != [] && forall i :: 0 <= i < |fields| ==> Printable(fields[i])
  }

  lemma {:induction false} FindEqualsAfterKey(key: string, value: string)
    requires '=' !in key
    ensures FindEquals(key + " = " + value) == Some(|key|)
  {
    var line := key + " = " + value;
    if key == "" {
      assert line[..3] == " = ";
    } else {
      assert line[0] == key[0] && line[1] == (if |key| > 1 then key[1] else ' ');
      assert line[1] != '=';
      assert line[..3][1] != " = "[1];
      assert line[1..] == key[1..] + " = " + value;
      FindEqualsAfterKey(key[1..], value);
    }
  }

  /** Lines that go on a value are put back onto it. */
  lemma {:induction false} ContinuationsAreJoined(record: Record, key: string, more: seq<string>, rest: seq<string>)
    requires key != "" && key in record
    requires forall i :: 0 <= i < |more| ==> Continues(more[i])
    ensures ParseLines(Reading(Some(record), key), more + rest) ==
            ParseLines(Reading(Some(record[key := Join([record[key]] + more, '\n')]), key), rest)
  {
    if more == [] {
      assert more + rest == rest;
      assert record[key := record[key]] == record;
    } else {
      var longer := record[key := record[key] + "\n" + more[0]];
      assert (more + rest)[0] == more[0] && (more + rest)[1..] == more[1..] + rest;
      ContinuationsAreJoined(longer, key, more[1..], rest);
      JoinTwo(record[key], more);
      assert longer[key := Join([longer[key]] + more[1..], '\n')] == record[key := Join([record[key]] + more, '\n')];
    }
  }

  lemma JoinTwo(first: string, more: seq<string>)
    requires more != []
    ensures Join([first + "\n" + more[0]] + more[1..], '\n') == Join([first] + more, '\n')
  {
    JoinPrepend(first + "\n", more, '\n');
    assert ([first] + more)[1..] == more;
    assert first + ['\n'] + Join(more, '\n') == first + "\n" + Join(more, '\n');
  }

  lemma ContainsEqualsNotBlank(key: string, value: string)
    ensures !Blank(key + " = " + value)
  {
    var line := key + " = " + value;
    assert line[|key| + 1] == '=' && !IsSpace('=');
  }

  lemma FirstLineIsRead(st: Reading, f: Field)
    requires IsKey(f.key) && ReadsBack(f)
    ensures var record := if st.current.Some? then st.current.value else map[];
            TakeLine(st, FieldLines(f)[0]) == (Reading(Some(record[f.key := Split(f.value, '\n')[0]]), f.key), [])
  {
    var line, value := FieldLines(f)[0], Split(f.value, '\n')[0];
    FindEqualsAfterKey(f.key, value);
    ContainsEqualsNotBlank(f.key, value);
    assert line[..|f.key|] == f.key && line[|f.key| + 3..] == value;
  }

  lemma FieldIsRead(st: Reading, f: Field, rest: seq<string>)
    requires IsKey(f.key) && ReadsBack(f)
    ensures var record := if st.current.Some? then st.current.value else map[];
            ParseLines(st, FieldLines(f) + rest) == ParseLines(Reading(Some(record[f.key := f.value]), f.key), rest)
  {
    var record := if st.current.Some? then st.current.value else map[];
    FirstLineIsRead(st, f);
    ContinuationsAreRead(record, f, rest);
    hide TakeLine, Flush, ReadsBack, ParseLines, Split;
    var value := Split(f.value, '\n');
    Associative([FieldLines(f)[0]], value[1..], rest);
    OneLine(st, FieldLines(f)[0], value[1..] + rest);
  }

  lemma OneLine(st: Reading, line: string, rest: seq<string>)
    ensures ParseLines(st, [line] + rest) == TakeLine(st, line).1 + ParseLines(TakeLine(st, line).0, rest)
  {
    hide TakeLine, Flush;
    assert ([line] + rest)[0] == line && ([line] + rest)[1..] == rest;
  }

  lemma ValueContinues(f: Field)
    requires ReadsBack(f)
    ensures var value := Split(f.value, '\n'); forall i :: 0 <= i < |value[1..]| ==> Continues(value[1..][i])
  {
    hide Continues, StripReturn;
    var value := Split(f.value, '\n');
    assert forall i :: 0 <= i < |value[1..]| ==> value[1..][i] == FieldLines(f)[i + 1];
  }

  lemma ContinuationsAreRead(record: Record, f: Field, rest: seq<string>)
    requires IsKey(f.key) && ReadsBack(f)
    ensures var value := Split(f.value, '\n');
            ParseLines(Reading(Some(record[f.key := value[0]]), f.key), value[1..] + rest) ==
            ParseLines(Reading(Some(record[f.key := f.value]), f.key), rest)
  {
    hide Split, Join, Continues, ReadsBack, FieldLines, ParseLines;
    var value := Split(f.value, '\n');
    ValueContinues(f);
    JoinSplit(f.value, '\n');
    var started := record[f.key := value[0]];
    ContinuationsAreJoined(started, f.key, value[1..], rest);
    assert [started[f.key]] + value[1..] == value;
    assert started[f.key := f.value] == record[f.key := f.value];
  }

  lemma {:induction false} RecordIsRead(st: Reading, fields: seq<Field>, rest: seq<string>)
    requires forall i :: 0 <= i < |fields| ==> Printable(fields[i])
    requires st.current.Some? || fields != []
    ensures var record := if st.current.Some? then st.current.value else map[];
            ParseLines(st, RecordLines(fields) + rest) == [FieldsMap(fields, record)] + ParseLines(Idle, rest)
    decreases |fields|
  {
    if fields == [] {
      OneLine(st, "", rest);
    } else {
      var record := if st.current.Some? then st.current.value else map[];
      var f, more := fields[0], RecordLines(fields[1..]) + rest;
      FieldIsRead(st, f, more);
      RecordIsRead(Reading(Some(record[f.key := f.value]), f.key), fields[1..], rest);
      hide FieldLines, Printable, ParseLines, TakeLine, Flush;
      Associative(FieldLines(f), RecordLines(fields[1..]), rest);
    }
  }

  lemma {:induction false} RecordsAreRead(records: seq<seq<Field>>)
    requires forall i :: 0 <= i < |records| ==> PrintableRecord(records[i])
    ensures ParseLines(Idle, AllLines(records)) == RecordMaps(records)
  {
    if records == [] {
      assert [""][1..] == [];
    } else {
      RecordIsRead(Idle, records[0], AllLines(records[1..]));
      RecordsAreRead(records[1..]);
    }
  }

  // ----- The whole output

  function Print(header: string, records: seq<seq<Field>>): string {
    header + "\n" + (DASHES + "\n" + Join(AllLines(records), '\n'))
  }

  ghost predicate NoSeparator(s: string) { forall i :: 0 <= i <= |s| ==> SeparatorAt(s, i) == 0 }

  /** Around a line break, separators on the left are those of the left part alone, and on the right those of the right. */
  lemma SeparatorIsLocal(a: string, b: string, i: nat)
    requires i <= |a + "\n" + b|
    ensures i <= |a| ==> SeparatorAt(a + "\n" + b, i) == SeparatorAt(a, i)
    ensures i > |a| ==> SeparatorAt(a + "\n" + b, i) == SeparatorAt(b, i - |a| - 1)
  {
    var s := a + "\n" + b;
    if i <= |a| {
      if i + 10 <= |a| {
        assert s[i..i + 10] == a[i..i + 10];
      } else if i + 10 <= |s| {
        assert s[i..i + 10][|a| - i] == '\n' && DASHES[|a| - i] == '-';
      }
    } else {
      var j := i - |a| - 1;
      if j + 10 <= |b| { assert s[i..i + 10] == b[j..j + 10]; }
    }
  }

  lemma {:induction false} FirstPiece(s: string, start: nat, i: nat, k: nat)
    requires start <= i <= k < |s| && SeparatorAt(s, k) > 0
    requires forall j :: i <= j < k ==> SeparatorAt(s, j) == 0
    ensures Pieces(s, start, i) == [s[start..k]] + Pieces(s, k + SeparatorAt(s, k), k + SeparatorAt(s, k))
    decreases k - i
  {
    if i < k { FirstPiece(s, start, i + 1, k); }
  }

  lemma {:induction false} AllLinesClean(records: seq<seq<Field>>)
    requires forall i :: 0 <= i < |records| ==> PrintableRecord(records[i])
    ensures |AllLines(records)| >= 1
    ensures forall i :: 0 <= i < |AllLines(records)| ==> CleanLine(AllLines(records)[i]) && '\n' !in AllLines(records)[i]
  {
    if records != [] {
      RecordLinesClean(records[0]);
      AllLinesClean(records[1..]);
    }
  }

  lemma {:induction false} RecordLinesClean(fields: seq<Field>)
    requires forall i :: 0 <= i < |fields| ==> Printable(fields[i])
    ensures |RecordLines(fields)| >= 1
    ensures forall i :: 0 <= i < |RecordLines(fields)| ==> CleanLine(RecordLines(fields)[i]) && '\n' !in RecordLines(fields)[i]
  {
    if fields != [] {
      PartsAreWithout(fields[0].value, '\n');
      assert forall i :: 0 <= i < |FieldLines(fields[0])| ==> '\n' !in FieldLines(fields[0])[i];
      RecordLinesClean(fields[1..]);
    }
  }

  /** The map a record is read as holds each field under its key, when no key comes twice. */
  lemma {:induction false} FieldsMapHolds(fields: seq<Field>, onto: Record)
    requires forall i, j :: 0 <= i < j < |fields| ==> fields[i].key != fields[j].key
    ensures forall i :: 0 <= i < |fields| ==> fields[i].key in FieldsMap(fields, onto) && FieldsMap(fields, onto)[fields[i].key] == fields[i].value
    ensures forall k :: (forall i :: 0 <= i < |fields| ==> fields[i].key != k) ==>
              (k in FieldsMap(fields, onto) <==> k in onto) && (k in onto ==> FieldsMap(fields, onto)[k] == onto[k])
  {
    if fields != [] {
      var onto' := onto[fields[0].key := fields[0].value];
      FieldsMapHolds(fields[1..], onto');
      assert forall i :: 1 <= i < |fields| ==> fields[i] == fields[1..][i - 1];
    }
  }

  /** A line with no line terminator in it is clean unless it is the separator itself. */
  lemma PlainLineIsClean(line: string)
    requires forall i :: 0 <= i < |line| ==> !EndsLine(line[i])
    ensures CleanLine(line) <==> line != DASHES
  {
    if line == DASHES { assert line[0..10] == DASHES && SeparatorAt(line, 0) == 10; }
    forall i | 0 <= i <= |line| && SeparatorAt(line, i) > 0 ensures line == DASHES {
      assert line[0..10] == line;
    }
  }
}
