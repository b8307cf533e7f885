/**
 Exactly which records are read back from the output they were printed in. The argument counts characters: a
 line adds at most itself to the records, and less if it is stripped, blank, or holds what reads as a key or
 as the separator; so nothing is left over for what is not read back.
 */
module ArchiveReadBack {
  import opened Text
  import opened Common
  import opened ArchiveRecords

  // ----- How much records hold

  /** What a record holds: its keys, its values, and the three characters between a key and its value. */
  ghost function Size(record: Record): nat
    decreases |record|
  {
    if record == map[] then 0
    else
      var k :| k in record;
      assert (record - {k}).Keys == record.Keys - {k};
      |k| + 3 + |record[k]| + Size(record - {k})
  }

  ghost function SizeAll(records: seq<Record>): nat {
    if records == [] then 0 else Size(records[0]) + SizeAll(records[1..])
  }

  lemma {:induction false} SizeWithout(record: Record, k: string)
    requires k in record
    ensures Size(record) == |k| + 3 + |record[k]| + Size(record - {k})
    decreases |record|
  {
    var j :| j in record && Size(record) == |j| + 3 + |record[j]| + Size(record - {j});
    if j != k {
      assert (record - {j}).Keys == record.Keys - {j} && (record - {k}).Keys == record.Keys - {k};
      SizeWithout(record - {j}, k);
      SizeWithout(record - {k}, j);
      assert record - {j} - {k} == record - {k} - {j};
    }
  }

  lemma SizeWith(record: Record, k: string, v: string)
    ensures Size(record[k := v]) == if k in record then Size(record) - |record[k]| + |v| else Size(record) + |k| + 3 + |v|
  {
    SizeWithout(record[k := v], k);
    if k in record {
      SizeWithout(record, k);
      assert record[k := v] - {k} == record - {k};
    } else {
      assert record[k := v] - {k} == record;
    }
  }

  ghost function Held(st: Reading): nat { if st.current.Some? then Size(st.current.value) else 0 }

  /** The most a line can add to the records. */
  function Gain(rawLine: string): nat {
    var line := StripReturn(rawLine);
    if Blank(line) then 0 else if FindEquals(line).None? then |line| + 1 else |line|
  }

  function GainAll(lines: seq<string>): nat { if lines == [] then 0 else Gain(lines[0]) + GainAll(lines[1..]) }

  lemma LineGains(st: Reading, rawLine: string)
    ensures var (next, out) := TakeLine(st, rawLine); SizeAll(out) + Held(next) <= Held(st) + Gain(rawLine)
  {
    var line := StripReturn(rawLine);
    assert Size(map[]) == 0;
    hide Size, Blank, FindEquals, StripReturn;
    if st.current.Some? && st.lastKey in st.current.value {
      SizeWith(st.current.value, st.lastKey, st.current.value[st.lastKey] + "\n" + line);
    }
    match FindEquals(line)
    case None =>
    case Some(at) =>
      var current := if st.current.Some? then st.current.value else map[];
      SizeWith(current, line[..at], line[at + 3..]);
  }

  lemma {:induction false} SizeOfBoth(a: seq<Record>, b: seq<Record>)
    ensures SizeAll(a + b) == SizeAll(a) + SizeAll(b)
  {
    if a == [] {
      assert a + b == b;
    } else {
      assert (a + b)[1..] == a[1..] + b;
      SizeOfBoth(a[1..], b);
    }
  }

  lemma {:induction false} GainOfBoth(a: seq<string>, b: seq<string>)
    ensures GainAll(a + b) == GainAll(a) + GainAll(b)
  {
    if a == [] {
      assert a + b == b;
    } else {
      assert (a + b)[1..] == a[1..] + b;
      GainOfBoth(a[1..], b);
    }
  }

  /** The records read hold no more than their lines can add. */
  lemma {:induction false} LinesGain(st: Reading, lines: seq<string>)
    ensures SizeAll(ParseLines(st, lines)) <= Held(st) + GainAll(lines)
    decreases |lines|
  {
    hide TakeLine, Size, Gain;
    if lines != [] {
      var (next, out) := TakeLine(st, lines[0]);
      LineGains(st, lines[0]);
      LinesGain(next, lines[1..]);
      SizeOfBoth(out, ParseLines(next, lines[1..]));
    }
  }

  // ----- What was printed

  function Printed(f: Field): nat { |f.key| + 3 + |f.value| }

  function PrintedAll(fields: seq<Field>): nat { if fields == [] then 0 else Printed(fields[0]) + PrintedAll(fields[1..]) }

  function PrintedRecords(records: seq<seq<Field>>): nat {
    if records == [] then 0 else PrintedAll(records[0]) + PrintedRecords(records[1..])
  }

  ghost predicate DistinctKeys(fields: seq<Field>) {
    && (forall i :: 0 <= i < |fields| ==> IsKey(fields[i].key))
    && (forall i, j :: 0 <= i < j < |fields| ==> fields[i].key != fields[j].key)
  }

  lemma {:induction false} SizeOfFields(fields: seq<Field>, onto: Record)
    requires DistinctKeys(fields) && forall i :: 0 <= i < |fields| ==> fields[i].key !in onto
    ensures Size(FieldsMap(fields, onto)) == Size(onto) + PrintedAll(fields)
  {
    if fields != [] {
      var f := fields[0];
      SizeWith(onto, f.key, f.value);
      hide Size, IsKey;
      assert forall i :: 0 <= i < |fields[1..]| ==> fields[1..][i] == fields[i + 1];
      SizeOfFields(fields[1..], onto[f.key := f.value]);
    }
  }

  lemma {:induction false} SizeOfRecords(records: seq<seq<Field>>)
    requires forall i :: 0 <= i < |records| ==> DistinctKeys(records[i])
    ensures SizeAll(RecordMaps(records)) == PrintedRecords(records)
  {
    if records != [] {
      SizeOfFields(records[0], map[]);
      SizeOfRecords(records[1..]);
    }
  }

  // ----- What separators take away

  /** The text with a line break in the place of each separator, as the pieces are joined. */
  function Cleared(s: string, i: nat): string
    requires i <= |s|
    decreases |s| - i
  {
    if i == |s| then ""
    else
      var n := SeparatorAt(s, i);
      if n > 0 then "\n" + Cleared(s, i + n) else [s[i]] + Cleared(s, i + 1)
  }

  lemma JoinMore(first: string, more: seq<string>)
    requires more != []
    ensures Join([first] + more, '\n') == first + ['\n'] + Join(more, '\n') && Join([first], '\n') == first
  {
    assert ([first] + more)[1..] == more;
  }

  lemma {:induction false} PiecesJoined(s: string, start: nat, i: nat)
    requires start <= i <= |s|
    ensures Join(Pieces(s, start, i), '\n') == s[start..i] + Cleared(s, i)
    decreases |s| - i
  {
    hide SeparatorAt, Join;
    if i == |s| {
      JoinMore(s[start..], [""]);
    } else {
      var n := SeparatorAt(s, i);
      ClearedStep(s, i);
      if n > 0 {
        assert Pieces(s, start, i) == [s[start..i]] + Pieces(s, i + n, i + n);
        JoinMore(s[start..i], Pieces(s, i + n, i + n));
        PiecesJoined(s, i + n, i + n);
        hide Pieces, Cleared;
        Regroup(s[start..i], "\n", Cleared(s, i + n));
        assert s[i + n..i + n] + Cleared(s, i + n) == Cleared(s, i + n);
      } else {
        assert Pieces(s, start, i) == Pieces(s, start, i + 1);
        PiecesJoined(s, start, i + 1);
        hide Pieces, Cleared;
        assert s[start..i + 1] == s[start..i] + [s[i]];
        Regroup(s[start..i], [s[i]], Cleared(s, i + 1));
      }
    }
  }

  lemma SeparatorIsLong(s: string, i: nat)
    requires i <= |s|
    ensures SeparatorAt(s, i) == 0 || (SeparatorAt(s, i) >= 10 && i < |s|)
  {
  }

  lemma ClearedStep(s: string, i: nat)
    requires i <= |s|
    ensures Cleared(s, i) ==
            if i == |s| then "" else if SeparatorAt(s, i) > 0 then "\n" + Cleared(s, i + SeparatorAt(s, i)) else [s[i]] + Cleared(s, i + 1)
  {
    hide SeparatorAt;
  }

  lemma {:induction false} NothingToClear(s: string, i: nat)
    requires i <= |s| && forall j :: i <= j <= |s| ==> SeparatorAt(s, j) == 0
    ensures Cleared(s, i) == s[i..]
    decreases |s| - i
  {
    ClearedStep(s, i);
    hide SeparatorAt, Cleared;
    if i < |s| {
      NothingToClear(s, i + 1);
      assert [s[i]] + s[i + 1..] == s[i..];
    }
  }

  /** Each separator takes nine characters away at least. */
  lemma {:induction false} ClearedIsShorter(s: string, i: nat, j: nat)
    requires i <= |s| && i <= j <= |s|
    ensures |Cleared(s, i)| <= |s| - i - (if SeparatorAt(s, j) > 0 then 9 else 0)
    decreases |s| - i
  {
    SeparatorIsLong(s, i);
    SeparatorIsLong(s, j);
    ClearedStep(s, i);
    hide SeparatorAt, Cleared;
    if i < |s| {
      var next := i + if SeparatorAt(s, i) > 0 then SeparatorAt(s, i) else 1;
      ClearedIsShorter(s, next, if next <= j then j else |s|);
    }
  }

  /** Clearing goes on in `s` from `from` as it does in `b`, which is what is left there. */
  lemma {:induction false} ClearedBehind(s: string, from: nat, b: string, i: nat)
    requires from + |b| == |s| && i <= |b|
    requires forall j :: 0 <= j <= |b| ==> SeparatorAt(s, from + j) == SeparatorAt(b, j)
    requires forall j :: 0 <= j < |b| ==> s[from + j] == b[j]
    ensures Cleared(s, from + i) == Cleared(b, i)
    decreases |b| - i
  {
    hide SeparatorAt, Cleared;
    if i == |b| {
      ClearedStep(s, from + i);
      ClearedStep(b, i);
    } else {
      var n := SeparatorAt(b, i);
      var head, next := if n > 0 then "\n" else [b[i]], i + if n > 0 then n else 1;
      assert Cleared(s, from + i) == head + Cleared(s, from + next) by { ClearedStep(s, from + i); }
      assert Cleared(b, i) == head + Cleared(b, next) by { ClearedStep(b, i); }
      ClearedBehind(s, from, b, next);
    }
  }

  /** And in front as it does in `a`, with which `s` begins. */
  lemma {:induction false} ClearedBefore(s: string, a: string, i: nat)
    requires i <= |a| <= |s|
    requires forall j :: 0 <= j <= |a| ==> SeparatorAt(s, j) == SeparatorAt(a, j)
    requires forall j :: 0 <= j < |a| ==> s[j] == a[j]
    ensures Cleared(s, i) == Cleared(a, i) + Cleared(s, |a|)
    decreases |a| - i
  {
    hide SeparatorAt, Cleared;
    if i == |a| {
      assert Cleared(a, i) == "" by { ClearedStep(a, i); }
      assert "" + Cleared(s, |a|) == Cleared(s, |a|);
    } else {
      var n := SeparatorAt(a, i);
      var head, next := if n > 0 then "\n" else [a[i]], i + if n > 0 then n else 1;
      assert Cleared(s, i) == head + Cleared(s, next) by { ClearedStep(s, i); }
      assert Cleared(a, i) == head + Cleared(a, next) by { ClearedStep(a, i); }
      ClearedBefore(s, a, next);
      Regroup(head, Cleared(a, next), Cleared(s, |a|));
    }
  }

  lemma Regroup(a: string, b: string, c: string)
    ensures a + (b + c) == (a + b) + c
  {
  }

  lemma SeparatorsApart(a: string, b: string)
    ensures var s := a + "\n" + b;
            && |s| == |a| + 1 + |b| && s[|a|] == '\n' && SeparatorAt(a, |a|) == 0
            && (forall j :: 0 <= j < |a| ==> s[j] == a[j]) && (forall j :: 0 <= j < |b| ==> s[|a| + 1 + j] == b[j])
            && (forall j :: 0 <= j <= |a| ==> SeparatorAt(s, j) == SeparatorAt(a, j))
            && (forall j :: 0 <= j <= |b| ==> SeparatorAt(s, |a| + 1 + j) == SeparatorAt(b, j))
  {
    var s := a + "\n" + b;
    SeparatorIsLong(a, |a|);
    hide SeparatorAt;
    forall j | 0 <= j <= |a| ensures SeparatorAt(s, j) == SeparatorAt(a, j) { SeparatorIsLocal(a, b, j); }
    forall j | 0 <= j <= |b| ensures SeparatorAt(s, |a| + 1 + j) == SeparatorAt(b, j) { SeparatorIsLocal(a, b, |a| + 1 + j); }
  }

  /** Around a line break both sides are cleared alone. */
  lemma ClearedApart(a: string, b: string, i: nat)
    requires i <= |b|
    ensures Cleared(a + "\n" + b, 0) == Cleared(a, 0) + ("\n" + Cleared(b, 0))
    ensures Cleared(a + "\n" + b, |a|) == "\n" + Cleared(b, 0)
    ensures Cleared(a + "\n" + b, |a| + 1 + i) == Cleared(b, i)
  {
    SeparatorsApart(a, b);
    ClearedApartIn(a + "\n" + b, a, b, i);
  }

  lemma ClearedApartIn(s: string, a: string, b: string, i: nat)
    requires i <= |b| && |s| == |a| + 1 + |b| && s[|a|] == '\n' && SeparatorAt(a, |a|) == 0
    requires (forall j :: 0 <= j < |a| ==> s[j] == a[j]) && (forall j :: 0 <= j < |b| ==> s[|a| + 1 + j] == b[j])
    requires forall j :: 0 <= j <= |a| ==> SeparatorAt(s, j) == SeparatorAt(a, j)
    requires forall j :: 0 <= j <= |b| ==> SeparatorAt(s, |a| + 1 + j) == SeparatorAt(b, j)
    ensures Cleared(s, 0) == Cleared(a, 0) + ("\n" + Cleared(b, 0)) && Cleared(s, |a|) == "\n" + Cleared(b, 0)
    ensures Cleared(s, |a| + 1 + i) == Cleared(b, i)
  {
    hide SeparatorAt, Cleared;
    ClearedBehind(s, |a| + 1, b, i);
    ClearedBehind(s, |a| + 1, b, 0);
    ClearedStep(s, |a|);
    ClearedBefore(s, a, 0);
  }

  function CutLine(line: string): seq<string> { Split(Cleared(line, 0), '\n') }

  /** The lines that are read in the place of those printed. */
  function CutAll(lines: seq<string>): seq<string> { if lines == [] then [] else CutLine(lines[0]) + CutAll(lines[1..]) }

  lemma {:induction false} CutsOfJoined(lines: seq<string>)
    requires |lines| >= 1
    ensures Split(Cleared(Join(lines, '\n'), 0), '\n') == CutAll(lines)
    decreases |lines|
  {
    if |lines| == 1 {
      assert CutAll(lines[1..]) == [] && CutLine(lines[0]) + [] == CutLine(lines[0]);
    } else {
      var rest := Join(lines[1..], '\n');
      CutsOfJoined(lines[1..]);
      ClearedApart(lines[0], rest, 0);
      hide Cleared, Split;
      assert lines[0] + ['\n'] + rest == lines[0] + "\n" + rest;
      assert Cleared(lines[0], 0) + ['\n'] + Cleared(rest, 0) == Cleared(lines[0], 0) + ("\n" + Cleared(rest, 0));
      SplitBoth(Cleared(lines[0], 0), Cleared(rest, 0), '\n');
    }
  }

  lemma {:induction false} CutOfBoth(a: seq<string>, b: seq<string>)
    ensures CutAll(a + b) == CutAll(a) + CutAll(b)
  {
    hide CutLine;
    if a == [] {
      assert a + b == b;
    } else {
      assert (a + b)[1..] == a[1..] + b;
      CutOfBoth(a[1..], b);
      Associative(CutLine(a[0]), CutAll(a[1..]), CutAll(b));
    }
  }

  lemma FirstSeparator(header: string, body: string)
    requires NoSeparator(header)
    ensures var s, k := header + "\n" + (DASHES + "\n" + body), |header| + 1;
            && SeparatorAt(s, k) == 10
            && (forall j :: 0 <= j < k ==> SeparatorAt(s, j) == 0)
            && Cleared(s, k + 10) == "\n" + Cleared(body, 0)
  {
    var tail := DASHES + "\n" + body;
    var s := header + "\n" + tail;
    assert tail[0..10] == DASHES && tail[10] == '\n';
    SeparatorIsLocal(header, tail, |header| + 1);
    forall j | 0 <= j <= |header| ensures SeparatorAt(s, j) == 0 { SeparatorIsLocal(header, tail, j); }
    ClearedApart(header, tail, 10);
    ClearedApart(DASHES, body, 0);
  }

  /** The lines the reader gets to see, whatever was printed. */
  lemma LinesSeen(header: string, records: seq<seq<Field>>)
    requires NoSeparator(header) && |AllLines(records)| >= 1
    ensures ParseRecords(Print(header, records)) == ParseLines(Idle, [""] + CutAll(AllLines(records)))
  {
    var body := Join(AllLines(records), '\n');
    var s, k := header + "\n" + (DASHES + "\n" + body), |header| + 1;
    FirstSeparator(header, body);
    CutsOfJoined(AllLines(records));
    hide SeparatorAt, Cleared, Split, Join, AllLines, ParseLines, NoSeparator, CutAll, Pieces;
    BehindFirstSeparator(s, k);
    SplitAt("", Cleared(body, 0), '\n');
    assert "" + ['\n'] + Cleared(body, 0) == "\n" + Cleared(body, 0);
  }

  lemma BehindFirstSeparator(s: string, k: nat)
    requires k + 10 <= |s| && SeparatorAt(s, k) == 10 && forall j :: 0 <= j < k ==> SeparatorAt(s, j) == 0
    ensures |Pieces(s, 0, 0)| >= 2 && Join(Pieces(s, 0, 0)[1..], '\n') == Cleared(s, k + 10)
  {
    hide SeparatorAt, Cleared, Join, Pieces;
    FirstPiece(s, 0, 0, k);
    PiecesJoined(s, k + 10, k + 10);
    assert Pieces(s, 0, 0)[1..] == Pieces(s, k + 10, k + 10);
    assert s[k + 10..k + 10] + Cleared(s, k + 10) == Cleared(s, k + 10);
  }

  // ----- What the lines of a field can add

  function Length(lines: seq<string>): nat { if lines == [] then 0 else 1 + |lines[0]| + Length(lines[1..]) }

  lemma {:induction false} GainsAtMost(lines: seq<string>)
    requires |lines| >= 1
    ensures GainAll(lines) <= |Join(lines, '\n')| + 1
    decreases |lines|
  {
    assert Gain(lines[0]) <= |lines[0]| + 1;
    hide Gain;
    if |lines| > 1 { GainsAtMost(lines[1..]); }
  }

  /** A line that hides a separator adds less than it is long; any other is read as it is. */
  lemma CutGains(line: string)
    requires '\n' !in line
    ensures if NoSeparator(line) then CutLine(line) == [line] else GainAll(CutLine(line)) < |line|
  {
    var cleared := Cleared(line, 0);
    hide SeparatorAt, Cleared, GainAll;
    if NoSeparator(line) {
      NothingToClear(line, 0);
      assert line[0..] == line;
      SplitWithout(line, '\n');
    } else {
      var j :| 0 <= j <= |line| && SeparatorAt(line, j) != 0;
      ClearedIsShorter(line, 0, j);
      GainsAtMost(Split(cleared, '\n'));
      JoinSplit(cleared, '\n');
    }
  }

  lemma {:induction false} ContinuationsGain(more: seq<string>, cut: bool)
    requires forall i :: 0 <= i < |more| ==> '\n' !in more[i]
    ensures GainAll(if cut then CutAll(more) else more) <= Length(more)
    ensures GainAll(if cut then CutAll(more) else more) == Length(more) ==>
              forall i :: 0 <= i < |more| ==> Continues(more[i]) && (cut ==> NoSeparator(more[i]))
    decreases |more|
  {
    if more != [] {
      var line := more[0];
      assert Gain(line) <= |line| + 1 && (Gain(line) == |line| + 1 ==> Continues(line));
      CutGains(line);
      GainOfBoth(CutLine(line), CutAll(more[1..]));
      GainOfOne(line);
      hide Gain, CutLine, Continues, NoSeparator;
      ContinuationsGain(more[1..], cut);
    }
  }

  lemma GainOfOne(line: string)
    ensures GainAll([line]) == Gain(line)
  {
    hide Gain;
    assert [line][1..] == [];
  }

  /** The lines of a field are those of its value, the first behind its key. */
  lemma LinesOf(f: Field)
    requires IsKey(f.key)
    ensures FieldLines(f) == [FieldLines(f)[0]] + FieldLines(f)[1..]
    ensures Printed(f) == |FieldLines(f)[0]| + Length(FieldLines(f)[1..])
    ensures forall i :: 0 <= i < |FieldLines(f)| ==> '\n' !in FieldLines(f)[i]
  {
    var value := Split(f.value, '\n');
    JoinSplit(f.value, '\n');
    PartsAreWithout(f.value, '\n');
    JoinLength(value);
    assert FieldLines(f)[1..] == value[1..];
  }

  lemma {:induction false} JoinLength(lines: seq<string>)
    requires |lines| >= 1
    ensures |Join(lines, '\n')| == |lines[0]| + Length(lines[1..])
    decreases |lines|
  {
    if |lines| > 1 { JoinLength(lines[1..]); }
  }

  lemma FirstLineGains(f: Field)
    requires IsKey(f.key)
    ensures var line := FieldLines(f)[0]; Gain(line) <= |line| && (Gain(line) == |line| ==> StripReturn(line) == line)
  {
    var first := Split(f.value, '\n')[0];
    var line, kept := FieldLines(f)[0], StripReturn(first);
    assert StripReturn(line) == f.key + " = " + kept;
    FindEqualsAfterKey(f.key, kept);
  }

  /** A field adds what was printed of it at most, and less unless it reads back. */
  lemma FieldGains(f: Field, cut: bool)
    requires IsKey(f.key)
    ensures GainAll(if cut then CutAll(FieldLines(f)) else FieldLines(f)) <= Printed(f)
    ensures GainAll(if cut then CutAll(FieldLines(f)) else FieldLines(f)) == Printed(f) ==>
              ReadsBack(f) && (cut ==> Printable(f))
  {
    var first, more := FieldLines(f)[0], FieldLines(f)[1..];
    LinesOf(f);
    FirstLineGains(f);
    CutGains(first);
    ContinuationsGain(more, cut);
    GainOfOne(first);
    GainOfBoth([first], more);
    CutOfBoth([first], more);
    GainOfBoth(CutLine(first), CutAll(more));
    assert CutAll([first]) == CutLine(first) + [] == CutLine(first);
    hide Gain, GainAll, CutLine, CutAll, FieldLines, StripReturn, NoSeparator, Blank, FindEquals, Printed, Length;
    assert forall i :: 1 <= i < |FieldLines(f)| ==> FieldLines(f)[i] == more[i - 1];
  }

  lemma {:induction false} FieldsGain(fields: seq<Field>)
    requires forall i :: 0 <= i < |fields| ==> IsKey(fields[i].key)
    ensures GainAll(CutAll(RecordLines(fields))) <= PrintedAll(fields)
    ensures GainAll(CutAll(RecordLines(fields))) == PrintedAll(fields) ==> forall i :: 0 <= i < |fields| ==> Printable(fields[i])
  {
    if fields == [] {
      BlankGainsNothing();
    } else {
      var lines, rest := FieldLines(fields[0]), RecordLines(fields[1..]);
      FieldGains(fields[0], true);
      CutOfBoth(lines, rest);
      GainOfBoth(CutAll(lines), CutAll(rest));
      hide GainAll, CutAll, Printable, FieldLines, IsKey, Printed;
      FieldsGain(fields[1..]);
    }
  }

  lemma BlankGainsNothing()
    ensures CutAll([""]) == [""] && GainAll([""]) == 0
  {
    assert [""][1..] == [] && CutLine("") == [""] && CutLine("") + [] == [""];
  }

  lemma {:induction false} RecordsGain(records: seq<seq<Field>>)
    requires forall i :: 0 <= i < |records| ==> DistinctKeys(records[i])
    ensures GainAll(CutAll(AllLines(records))) <= PrintedRecords(records)
    ensures GainAll(CutAll(AllLines(records))) == PrintedRecords(records) ==>
              forall i, j :: 0 <= i < |records| && 0 <= j < |records[i]| ==> Printable(records[i][j])
    ensures |AllLines(records)| >= 1
  {
    if records == [] {
      BlankGainsNothing();
    } else {
      var lines, rest := RecordLines(records[0]), AllLines(records[1..]);
      FieldsGain(records[0]);
      CutOfBoth(lines, rest);
      GainOfBoth(CutAll(lines), CutAll(rest));
      hide GainAll, CutAll, Printable, RecordLines, DistinctKeys, PrintedAll;
      RecordsGain(records[1..]);
    }
  }

  lemma {:induction false} NothingIsCut(lines: seq<string>)
    requires forall i :: 0 <= i < |lines| ==> CleanLine(lines[i]) && '\n' !in lines[i]
    ensures CutAll(lines) == lines
  {
    if lines != [] {
      assert NoSeparator(lines[0]);
      CutGains(lines[0]);
      hide CutLine, CleanLine;
      NothingIsCut(lines[1..]);
      assert [lines[0]] + lines[1..] == lines;
    }
  }

  /** Printing records and reading the output gives the same records back. */
  lemma {:induction false} PrintedRecordsAreRead(header: string, records: seq<seq<Field>>)
    requires NoSeparator(header)
    requires forall i :: 0 <= i < |records| ==> PrintableRecord(records[i])
    ensures ParseRecords(Print(header, records)) == RecordMaps(records)
  {
    hide *;
    AllLinesClean(records);
    NothingIsCut(AllLines(records));
    LinesSeen(header, records);
    BlankAtFirst(AllLines(records));
    RecordsAreRead(records);
  }

  lemma BlankAtFirst(lines: seq<string>)
    ensures ParseLines(Idle, [""] + lines) == ParseLines(Idle, lines)
  {
    OneLine(Idle, "", lines);
    assert TakeLine(Idle, "") == (Idle, []);
    hide ParseLines;
    assert [] + ParseLines(Idle, lines) == ParseLines(Idle, lines);
  }

  /**
   Records of distinct keys, printed behind a header that hides no separator, are read back from the whole
   output as they were if and only if every field of theirs can be printed: no line of its value is taken for
   the separator or hides one, none ends in a carriage return, and each after the first says something but not " = ".
   */
  lemma {:induction false} PrintedExactly(header: string, records: seq<seq<Field>>)
    requires NoSeparator(header)
    requires forall i :: 0 <= i < |records| ==> records[i] != [] && DistinctKeys(records[i])
    ensures ParseRecords(Print(header, records)) == RecordMaps(records) <==>
            forall i, j :: 0 <= i < |records| && 0 <= j < |records[i]| ==> Printable(records[i][j])
  {
    RecordsGain(records);
    LinesSeen(header, records);
    SizeOfRecords(records);
    LinesGain(Idle, [""] + CutAll(AllLines(records)));
    GainOfBoth([""], CutAll(AllLines(records)));
    BlankGainsNothing();
    hide GainAll, CutAll, Printable, DistinctKeys, AllLines, ParseRecords, ParseLines, NoSeparator, SizeAll, PrintedRecords, RecordMaps, Print;
    if forall i, j :: 0 <= i < |records| && 0 <= j < |records[i]| ==> Printable(records[i][j]) {
      PrintedRecordsAreRead(header, records);
    }
  }

  /** The lines of one field are read back as that field if and only if they all stay on it as they stand. */
  lemma ReadBackExactly(f: Field)
    requires IsKey(f.key)
    ensures ParseLines(Idle, RecordLines([f])) == [map[f.key := f.value]] <==> ReadsBack(f)
  {
    assert [f][1..] == [] && RecordLines([f]) == FieldLines(f) + [""];
    if ReadsBack(f) { FieldIsRead(Idle, f, [""]); }
    OneLine(Reading(Some(map[f.key := f.value]), f.key), "", []);
    FieldGains(f, false);
    GainOfBoth(FieldLines(f), [""]);
    BlankGainsNothing();
    SizeOfOne(f);
    LinesGain(Idle, RecordLines([f]));
    hide GainAll, ReadsBack, FieldLines, Printable, Printed, IsKey, Size, Gain;
    assert [""] == [""] + [];
  }

  lemma SizeOfOne(f: Field)
    ensures SizeAll([map[f.key := f.value]]) == Printed(f)
  {
    assert Size(map[]) == 0;
    SizeWith(map[], f.key, f.value);
    assert map[][f.key := f.value] == map[f.key := f.value];
    hide Size;
    assert [map[f.key := f.value]][1..] == [];
  }

  /** A carriage return at the end of a value is lost, so such a value is not read back. */
  lemma TrailingReturnIsLost()
    ensures ParseLines(Idle, RecordLines([Field("k", "a\r")])) != [map["k" := "a\r"]]
  {
    var f := Field("k", "a\r");
    SplitWithout(f.value, '\n');
    assert FieldLines(f)[0] == f.key + " = " + f.value;
    assert FieldLines(f)[0][|FieldLines(f)[0]| - 1] == '\r';
    assert !ReadsBack(f);
    hide ReadsBack, ParseLines, RecordLines;
    ReadBackExactly(f);
  }
}
