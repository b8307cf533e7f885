/** From the records of a listing to its entries: each has a place inside the archive, or is counted as outside. */
module ArchiveListing {
  import opened Common
  import opened ArchivePaths
  import opened ArchiveRecords
  import opened ArchiveLevels

  function Value(record: Record, key: string): string { if key in record then record[key] else "" }

  predicate IsDirectoryRecord(record: Record) {
    Value(record, "Folder") == "+" || (Value(record, "Attributes") != "" && Value(record, "Attributes")[0] == 'D')
  }

  /** How a record's size and date read, which nothing here depends on. */
  datatype Reader = Reader(size: Record -> Option<nat>, modified: Record -> Option<string>)

  function EntryOf(record: Record, path: string, r: Reader): ArchiveLevels.Entry {
    Entry(path, IsDirectoryRecord(record), r.size(record), r.modified(record), Value(record, "Encrypted") == "+")
  }

  function Entries(records: seq<Record>, r: Reader): seq<ArchiveLevels.Entry> {
    if records == [] then []
    else
      (if "Path" in records[0] && EntryPathOf(records[0]["Path"]).Some?
       then [EntryOf(records[0], EntryPathOf(records[0]["Path"]).value, r)] else [])
      + Entries(records[1..], r)
  }

  function Outside(records: seq<Record>): nat {
    if records == [] then 0
    else (if "Path" in records[0] && EntryPathOf(records[0]["Path"]).None? then 1 else 0) + Outside(records[1..])
  }

  function Named(records: seq<Record>): nat {
    if records == [] then 0 else (if "Path" in records[0] then 1 else 0) + Named(records[1..])
  }

  /** Every record that names a path is either an entry, at a canonical place, or counted as outside. */
  lemma {:induction false} EveryRecordAccounted(records: seq<Record>, r: Reader)
    ensures |Entries(records, r)| + Outside(records) == Named(records)
    ensures forall i :: 0 <= i < |Entries(records, r)| ==> Canonical(Entries(records, r)[i].path) && Entries(records, r)[i].path != ""
  {
    if records != [] {
      EveryRecordAccounted(records[1..], r);
      if "Path" in records[0] {
        EntryPathIsCanonical(records[0]["Path"]);
        hide EntryPathOf;
        if EntryPathOf(records[0]["Path"]).Some? { CanonicalIsSomewhere(EntryPathOf(records[0]["Path"]).value); }
      }
    }
  }

  lemma CanonicalIsSomewhere(path: string)
    requires Canonical(path)
    ensures path != ""
  {
  }

  /** What an entry says of its record: a folder by either of two marks, and encrypted by one. */
  ghost predicate Describes(e: ArchiveLevels.Entry, record: Record, r: Reader) {
    && "Path" in record && EntryPathOf(record["Path"]) == Some(e.path)
    && (e.isDirectory <==> || ("Folder" in record && record["Folder"] == "+")
                           || ("Attributes" in record && |record["Attributes"]| > 0 && record["Attributes"][0] == 'D'))
    && (e.encrypted <==> "Encrypted" in record && record["Encrypted"] == "+")
    && e.size == r.size(record) && e.modified == r.modified(record)
  }

  ghost predicate NamesPlace(record: Record) { "Path" in record && EntryPathOf(record["Path"]).Some? }

  lemma OneMoreRecord(records: seq<Record>, r: Reader)
    requires records != []
    ensures NamesPlace(records[0]) ==>
              Entries(records, r) == [EntryOf(records[0], EntryPathOf(records[0]["Path"]).value, r)] + Entries(records[1..], r)
    ensures NamesPlace(records[0]) ==> Describes(EntryOf(records[0], EntryPathOf(records[0]["Path"]).value, r), records[0], r)
    ensures !NamesPlace(records[0]) ==> Entries(records, r) == Entries(records[1..], r)
  {
    hide EntryPathOf;
    assert [] + Entries(records[1..], r) == Entries(records[1..], r);
  }

  /** Where the entries' records stand, in the same order. */
  ghost predicate From(records: seq<Record>, r: Reader, entries: seq<ArchiveLevels.Entry>, at: seq<nat>) {
    && |at| == |entries|
    && (forall k :: 0 <= k < |at| ==> at[k] < |records| && Describes(entries[k], records[at[k]], r))
    && (forall j, k :: 0 <= j < k < |at| ==> at[j] < at[k])
    && (forall i :: 0 <= i < |records| ==> (i in at <==> NamesPlace(records[i])))
  }

  /** The same places counted from one record earlier. */
  lemma Shifted(records: seq<Record>, r: Reader, entries: seq<ArchiveLevels.Entry>, at: seq<nat>, behind: seq<nat>)
    requires records != [] && From(records[1..], r, entries, at)
    requires |behind| == |at| && forall k :: 0 <= k < |at| ==> behind[k] == at[k] + 1
    ensures |entries| == |behind|
    ensures forall k :: 0 <= k < |behind| ==> 0 < behind[k] < |records| && Describes(entries[k], records[behind[k]], r)
    ensures forall j, k :: 0 <= j < k < |behind| ==> behind[j] < behind[k]
    ensures forall i :: 0 < i < |records| ==> (i in behind <==> NamesPlace(records[i]))
  {
    hide Describes, NamesPlace;
    forall i | 0 < i < |records| ensures i in behind <==> NamesPlace(records[i]) {
      assert records[i] == records[1..][i - 1];
      if i - 1 in at {
        var k :| 0 <= k < |at| && at[k] == i - 1;
        assert behind[k] == i;
      }
    }
  }

  /** The entries are the records that name a place inside, all of them and in their order, each described. */
  lemma {:induction false} EntriesInOrder(records: seq<Record>, r: Reader) returns (at: seq<nat>)
    ensures From(records, r, Entries(records, r), at)
  {
    hide Describes, NamesPlace, Entries, From;
    if records == [] {
      at := [];
      NoRecords(r);
    } else {
      var later := EntriesInOrder(records[1..], r);
      OneMoreRecord(records, r);
      var behind := PlacesBehind(records, r, later);
      Shifted(records, r, Entries(records[1..], r), later, behind);
      at := if NamesPlace(records[0]) then [0] + behind else behind;
      assert NamesPlace(records[0]) ==> Entries(records, r)[1..] == Entries(records[1..], r);
      Gathered(records, r, Entries(records, r), at, Entries(records[1..], r), behind);
    }
  }

  lemma NoRecords(r: Reader)
    ensures From([], r, Entries([], r), [])
  {
  }

  ghost function PlacesBehind(records: seq<Record>, r: Reader, at: seq<nat>): (behind: seq<nat>)
    requires records != [] && From(records[1..], r, Entries(records[1..], r), at)
    ensures |behind| == |at| && forall k :: 0 <= k < |at| ==> behind[k] == at[k] + 1
  {
    seq(|at|, k requires 0 <= k < |at| => at[k] + 1)
  }

  lemma Gathered(records: seq<Record>, r: Reader, entries: seq<ArchiveLevels.Entry>, at: seq<nat>,
                 later: seq<ArchiveLevels.Entry>, behind: seq<nat>)
    requires records != [] && |later| == |behind|
    requires forall k :: 0 <= k < |behind| ==> 0 < behind[k] < |records| && Describes(later[k], records[behind[k]], r)
    requires forall j, k :: 0 <= j < k < |behind| ==> behind[j] < behind[k]
    requires forall i :: 0 < i < |records| ==> (i in behind <==> NamesPlace(records[i]))
    requires if NamesPlace(records[0]) then at == [0] + behind && |entries| == |later| + 1 && entries[1..] == later && Describes(entries[0], records[0], r)
             else at == behind && entries == later
    ensures From(records, r, entries, at)
  {
    hide Describes, NamesPlace;
    if NamesPlace(records[0]) { assert forall k :: 1 <= k < |entries| ==> entries[k] == later[k - 1]; }
  }

  lemma OneMoreOutside(records: seq<Record>)
    requires records != []
    ensures Outside(records) == (if "Path" in records[0] && !NamesPlace(records[0]) then 1 else 0) + Outside(records[1..])
  {
    hide EntryPathOf;
  }

  method DescribeEntries(stdout: string, r: Reader) returns (entries: seq<ArchiveLevels.Entry>, outside: nat)
    ensures entries == Entries(ParseRecords(stdout), r) && outside == Outside(ParseRecords(stdout))
    ensures forall i :: 0 <= i < |entries| ==> Canonical(entries[i].path) && entries[i].path != ""
  {
    var records := ReadRecords(stdout);
    entries, outside := [], 0;
    var rest := records;
    while rest != []
      invariant entries + Entries(rest, r) == Entries(records, r)
      invariant outside + Outside(rest) == Outside(records)
      decreases |rest|
    {
      OneMoreRecord(rest, r);
      OneMoreOutside(rest);
      hide EntryPathOf, EntryOf, Entries, Outside, Describes;
      var record := rest[0];
      rest := rest[1..];
      ghost var more := Entries(rest, r);
      if "Path" !in record { continue; }
      var path := ReadEntryPath(record["Path"]);
      if path.None? {
        outside := outside + 1;
      } else {
        var entry := EntryOf(record, path.value, r);
        assert entries + ([entry] + more) == (entries + [entry]) + more;
        entries := entries + [entry];
      }
    }
    EveryRecordAccounted(records, r);
  }

  /** What browsing an archive answers: the level, or why there is none. */
  datatype Browsed = BadPosition | NotFound | Shown(level: Level)

  /**
   Opening a folder of a listing. An answer is given for a position exactly when it is the top or names a
   place that some entry is, or lies in; and a folder that an answer shows can be opened in turn.
   */
  method Browse(entries: seq<ArchiveLevels.Entry>, inside: string) returns (answer: Browsed)
    requires forall i :: 0 <= i < |entries| ==> entries[i].path != ""
    ensures answer == BadPosition <==> inside != "" && EntryPathOf(inside).None?
    ensures answer.Shown? <==> ((inside == "" || EntryPathOf(inside).Some?)
                                && Exists(entries, Segments(if inside == "" then "" else EntryPathOf(inside).value)))
    ensures answer.Shown? ==>
              answer.level == LevelAt(entries, Segments(if inside == "" then "" else EntryPathOf(inside).value))
  {
    var position := "";
    if inside != "" {
      var path := ReadEntryPath(inside);
      if path.None? { return BadPosition; }
      position := path.value;
    }
    var level := LevelOf(entries, position);
    if !level.present { return NotFound; }
    return Shown(level);
  }
}
