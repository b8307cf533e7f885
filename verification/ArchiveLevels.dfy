/**
 One folder of an archive, cut out of the whole listing. Paths are texts; what a folder holds is said in
 terms of their segments, and the text operations are proved to compute it.
 */
module ArchiveLevels {
  import opened Common
  import opened Text
  import opened ArchivePaths

  datatype Entry = Entry(path: string, isDirectory: bool, size: Option<nat>, modified: Option<string>, encrypted: bool)

  type Position = seq<string>

  function Segments(path: string): Position { if path == "" then [] else Split(path, '/') }

  function PathOf(at: Position): string { if at == [] then "" else Join(at, '/') }

  predicate Below(at: Position, segments: Position) { |at| < |segments| && segments[..|at|] == at }

  predicate DirectlyIn(at: Position, segments: Position) { Below(at, segments) && |segments| == |at| + 1 }

  /** The folder an entry is in. */
  function Parent(e: Entry): Position { var s := Segments(e.path); if s == [] then [] else s[..|s| - 1] }

  // ----- What a folder shows

  /** Some entry names the folder or something in it. */
  predicate Exists(entries: seq<Entry>, at: Position) {
    at == [] || exists i :: 0 <= i < |entries| && at <= Segments(entries[i].path)
  }

  function Files(entries: seq<Entry>, at: Position): seq<Entry> {
    if entries == [] then []
    else
      var n := |entries| - 1;
      var e := entries[n];
      Files(entries[..n], at) + (if !e.isDirectory && DirectlyIn(at, Segments(e.path)) then [e] else [])
  }

  /** An entry makes a folder appear at its level: a directory there, or anything further down. */
  predicate Implies(e: Entry, at: Position, name: string) {
    var s := Segments(e.path);
    Below(at, s) && s[|at|] == name && (e.isDirectory || |s| > |at| + 1)
  }

  function FolderNames(entries: seq<Entry>, at: Position): set<string> {
    if entries == [] then {}
    else
      var n := |entries| - 1;
      var s := Segments(entries[n].path);
      FolderNames(entries[..n], at) + (if Below(at, s) && Implies(entries[n], at, s[|at|]) then {s[|at|]} else {})
  }

  predicate IsRecordOf(e: Entry, at: Position) { e.isDirectory && Segments(e.path) == at }

  /** The last real record of a folder, if the archive carries one. */
  function RecordOf(entries: seq<Entry>, at: Position): Option<Entry> {
    if entries == [] then None
    else
      var n := |entries| - 1;
      if IsRecordOf(entries[n], at) then Some(entries[n]) else RecordOf(entries[..n], at)
  }

  /** What a folder shows as: its record wherever in the listing that stands, or its bare name. */
  function ShownAs(entries: seq<Entry>, at: Position): Entry {
    match RecordOf(entries, at)
    case Some(e) => e
    case None => Entry(PathOf(at), true, None, None, false)
  }

  function Folders(entries: seq<Entry>, at: Position): map<string, Entry> {
    map name | name in FolderNames(entries, at) :: ShownAs(entries, at + [name])
  }

  datatype Level = Level(present: bool, folders: map<string, Entry>, files: seq<Entry>)

  function LevelAt(entries: seq<Entry>, at: Position): Level {
    Level(Exists(entries, at), Folders(entries, at), Files(entries, at))
  }

  // ----- Browsing

  ghost predicate Implied(entries: seq<Entry>, at: Position, name: string) {
    exists i :: 0 <= i < |entries| && Implies(entries[i], at, name)
  }

  lemma ImpliedGrows(before: seq<Entry>, e: Entry, at: Position, name: string)
    ensures Implied(before + [e], at, name) <==> Implied(before, at, name) || Implies(e, at, name)
  {
    hide Implies;
    var after := before + [e];
    assert after[|before|] == e;
    if i :| 0 <= i < |before| && Implies(before[i], at, name) { assert Implies(after[i], at, name); }
  }

  /** The folders shown are the ones some entry implies, and no others. */
  lemma {:induction false} FolderNamesExactly(entries: seq<Entry>, at: Position, name: string)
    ensures name in FolderNames(entries, at) <==> Implied(entries, at, name)
  {
    if entries != [] {
      var n := |entries| - 1;
      FolderNamesExactly(entries[..n], at, name);
      ImpliedGrows(entries[..n], entries[n], at, name);
      assert entries == entries[..n] + [entries[n]];
    }
  }

  /** A folder reached by opening, one after another, folders that the levels above it show. */
  ghost predicate Reachable(entries: seq<Entry>, at: Position)
    decreases |at|
  {
    at == [] || (Reachable(entries, at[..|at| - 1]) && at[|at| - 1] in FolderNames(entries, at[..|at| - 1]))
  }

  /** Every folder on the way to an entry is shown by the level above it, so the entry's own folder is reached. */
  lemma {:induction false} EveryParentIsReachable(entries: seq<Entry>, i: nat, k: nat)
    requires i < |entries| && k < |Segments(entries[i].path)|
    ensures Reachable(entries, Segments(entries[i].path)[..k])
  {
    if k > 0 {
      var s := Segments(entries[i].path);
      EveryParentIsReachable(entries, i, k - 1);
      var up := s[..k - 1];
      assert s[..k][..k - 1] == up && s[..k][k - 1] == s[k - 1];
      assert Implies(entries[i], up, s[k - 1]);
      FolderNamesExactly(entries, up, s[k - 1]);
    }
  }

  /** A level lists a file as often as the listing does, if the level is the file's folder, and not at all otherwise. */
  lemma {:induction false} FileAtItsParentOnly(entries: seq<Entry>, at: Position, e: Entry)
    requires e.path != ""
    ensures multiset(Files(entries, at))[e] ==
            if !e.isDirectory && at == Parent(e) then multiset(entries)[e] else 0
  {
    if entries != [] {
      var n := |entries| - 1;
      assert entries == entries[..n] + [entries[n]];
      FileAtItsParentOnly(entries[..n], at, e);
      assert DirectlyIn(at, Segments(e.path)) <==> at == Parent(e);
    }
  }

  /**
   Browsing from the top: every file of the listing is shown in its own folder, that folder is reached,
   and no other folder shows it.
   */
  lemma {:induction false} EveryFileOnce(entries: seq<Entry>, i: nat)
    requires i < |entries| && !entries[i].isDirectory && entries[i].path != ""
    ensures Reachable(entries, Parent(entries[i]))
    ensures multiset(Files(entries, Parent(entries[i])))[entries[i]] == multiset(entries)[entries[i]] >= 1
    ensures forall at :: entries[i] in Files(entries, at) ==> at == Parent(entries[i])
  {
    var e := entries[i];
    EveryParentIsReachable(entries, i, |Segments(e.path)| - 1);
    FileAtItsParentOnly(entries, Parent(e), e);
    assert e in multiset(entries);
    forall at | e in Files(entries, at)
      ensures at == Parent(e)
    {
      FileAtItsParentOnly(entries, at, e);
      assert e in multiset(Files(entries, at));
    }
  }

  /** A folder that is shown opens, and a folder is only shown for an entry that is it or lies in it. */
  lemma ShownFoldersOpen(entries: seq<Entry>, at: Position, name: string)
    requires name in FolderNames(entries, at)
    ensures Exists(entries, at + [name])
    ensures exists i :: 0 <= i < |entries| && at + [name] <= Segments(entries[i].path)
  {
    FolderNamesExactly(entries, at, name);
    hide FolderNames, Segments;
    var i :| 0 <= i < |entries| && Implies(entries[i], at, name);
    assert Segments(entries[i].path)[..|at| + 1] == at + [name];
  }

  /** A reached folder exists: no path through the levels ends in an error. */
  lemma ReachableExists(entries: seq<Entry>, at: Position)
    requires Reachable(entries, at)
    ensures Exists(entries, at)
  {
    if at != [] {
      var up := at[..|at| - 1];
      assert up + [at[|at| - 1]] == at;
      hide Exists;
      ShownFoldersOpen(entries, up, at[|at| - 1]);
    }
  }

  /** A real record wins over an implied folder wherever it stands in the listing. */
  lemma {:induction false} RecordWins(entries: seq<Entry>, at: Position)
    requires exists i :: 0 <= i < |entries| && IsRecordOf(entries[i], at)
    ensures ShownAs(entries, at) in entries && IsRecordOf(ShownAs(entries, at), at)
  {
    var n := |entries| - 1;
    if !IsRecordOf(entries[n], at) {
      var i :| 0 <= i < |entries| && IsRecordOf(entries[i], at);
      assert entries[..n][i] == entries[i];
      RecordWins(entries[..n], at);
      assert forall e :: e in entries[..n] ==> e in entries;
    }
  }

  // ----- The text operations compute it

  function IndexOfSlash(s: string): (at: int)
    ensures -1 <= at < |s|
    ensures at == -1 <==> '/' !in s
    ensures at >= 0 ==> s[at] == '/' && '/' !in s[..at]
  {
    if s == "" then -1
    else if s[0] == '/' then 0
    else
      var rest := IndexOfSlash(s[1..]);
      assert s == [s[0]] + s[1..];
      if rest < 0 then -1 else (assert s[..rest + 1] == [s[0]] + s[1..][..rest]; rest + 1)
  }

  lemma {:induction false} SplitInjective(a: string, b: string)
    requires Split(a, '/') == Split(b, '/')
    ensures a == b
  {
    JoinSplit(a, '/');
    JoinSplit(b, '/');
  }

  /** A path starts with the folder's prefix exactly when its segments start with the folder's. */
  lemma PrefixIsBelow(path: string, inside: string)
    requires path != ""
    ensures var prefix := if inside != "" then inside + "/" else "";
            && (StartsWith(path, prefix) <==> Below(Segments(inside), Segments(path)))
            && (StartsWith(path, prefix) ==>
                  Segments(path) == Segments(inside) + Split(path[|prefix|..], '/'))
    ensures path == inside <==> Segments(path) == Segments(inside)
  {
    if inside == "" {
      assert path[0..] == path;
    } else {
      if Segments(path) == Segments(inside) { SplitInjective(path, inside); }
      var prefix := inside + "/";
      if StartsWith(path, prefix) {
        assert path == inside + "/" + path[|prefix|..];
        JoinParts(inside, path[|prefix|..]);
      }
      if Below(Segments(inside), Segments(path)) {
        var a, b := Split(inside, '/'), Segments(path)[|Segments(inside)|..];
        assert Segments(path) == a + b;
        SplitConcat(a, b, '/');
        JoinSplit(path, '/');
        JoinSplit(inside, '/');
      }
    }
  }

  /** What is left of a path after the prefix: one segment when it holds no slash, else its first and more. */
  lemma RestOfPath(rest: string)
    ensures var slash := IndexOfSlash(rest);
            if slash < 0 then Split(rest, '/') == [rest]
            else |Split(rest, '/')| > 1 && Split(rest, '/')[0] == rest[..slash]
  {
    var slash := IndexOfSlash(rest);
    if slash < 0 {
      SplitWithout(rest, '/');
    } else {
      assert rest == rest[..slash] + ['/'] + rest[slash + 1..];
      SplitAt(rest[..slash], rest[slash + 1..], '/');
    }
  }

  lemma PathOfChild(inside: string, name: string)
    ensures PathOf(Segments(inside) + [name]) == (if inside != "" then inside + "/" else "") + name
  {
    if inside != "" {
      JoinSplit(inside, '/');
      SplitConcat(Split(inside, '/'), [name], '/');
    }
  }

  datatype Place = Elsewhere | Itself | Direct(name: string) | Deeper(name: string)

  /** Where an entry stands seen from a folder, as the loop finds out from the texts. */
  method PlaceOf(path: string, inside: string) returns (place: Place)
    requires path != ""
    ensures var at, s := Segments(inside), Segments(path);
            match place
            case Elsewhere => !(at <= s)
            case Itself => at == s
            case Direct(name) => DirectlyIn(at, s) && s == at + [name]
            case Deeper(name) => Below(at, s) && !DirectlyIn(at, s) && s[|at|] == name
  {
    PrefixIsBelow(path, inside);
    if inside != "" && path == inside { return Itself; }
    var prefix := if inside != "" then inside + "/" else "";
    if !StartsWith(path, prefix) { return Elsewhere; }
    var rest := path[|prefix|..];
    RestOfPath(rest);
    var slash := IndexOfSlash(rest);
    if slash < 0 { return Direct(rest); }
    return Deeper(rest[..slash]);
  }

  lemma {:induction false} UnshownHasNoRecord(entries: seq<Entry>, at: Position, name: string)
    requires name !in FolderNames(entries, at)
    ensures RecordOf(entries, at + [name]).None?
  {
    if entries != [] {
      var n := |entries| - 1;
      UnshownHasNoRecord(entries[..n], at, name);
      if IsRecordOf(entries[n], at + [name]) { assert Below(at, at + [name]) && Implies(entries[n], at, name); }
    }
  }

  /** What one more entry does to the folders of a level. */
  lemma FoldersGrow(before: seq<Entry>, e: Entry, at: Position)
    ensures var s, old_, new_ := Segments(e.path), Folders(before, at), Folders(before + [e], at);
            if !Below(at, s) || (|s| == |at| + 1 && !e.isDirectory) then new_ == old_
            else if |s| == |at| + 1 then new_ == old_[s[|at|] := e]
            else if s[|at|] in old_ then new_ == old_
            else new_ == old_[s[|at|] := Entry(PathOf(at + [s[|at|]]), true, None, None, false)]
  {
    var s := Segments(e.path);
    assert (before + [e])[..|before|] == before;
    if Below(at, s) {
      var name := s[|at|];
      if |s| == |at| + 1 { assert s == at + [name]; }
      if name !in FolderNames(before, at) { UnshownHasNoRecord(before, at, name); }
      forall other | other in FolderNames(before, at) && (other != name || |s| > |at| + 1)
        ensures ShownAs(before + [e], at + [other]) == ShownAs(before, at + [other])
      {
        assert (at + [other])[|at|] == other;
        assert !IsRecordOf(e, at + [other]);
      }
    } else {
      forall other | other in FolderNames(before, at)
        ensures ShownAs(before + [e], at + [other]) == ShownAs(before, at + [other])
      {
        assert Below(at, at + [other]);
        assert !IsRecordOf(e, at + [other]);
      }
    }
  }

  lemma FilesGrow(before: seq<Entry>, e: Entry, at: Position)
    ensures Files(before + [e], at) ==
            Files(before, at) + (if !e.isDirectory && DirectlyIn(at, Segments(e.path)) then [e] else [])
  {
    assert (before + [e])[..|before|] == before;
  }

  lemma ExistsGrows(before: seq<Entry>, e: Entry, at: Position)
    ensures Exists(before + [e], at) <==> Exists(before, at) || at <= Segments(e.path)
  {
    var after := before + [e];
    assert after[|before|] == e;
    assert forall i :: 0 <= i < |before| ==> after[i] == before[i];
  }

  /** Where the loop stands once it has read `entries`. */
  ghost predicate Cut(entries: seq<Entry>, at: Position, folders: map<string, Entry>, files: seq<Entry>, found: bool) {
    && folders == Folders(entries, at)
    && files == Files(entries, at)
    && (Exists(entries, at) <==> found || folders != map[] || files != [])
  }

  /** One turn of the loop. */
  method TakeEntry(e: Entry, inside: string, folders0: map<string, Entry>, files0: seq<Entry>, found0: bool, ghost before: seq<Entry>)
    returns (folders: map<string, Entry>, files: seq<Entry>, found: bool)
    requires e.path != "" && Cut(before, Segments(inside), folders0, files0, found0)
    ensures Cut(before + [e], Segments(inside), folders, files, found)
  {
    ghost var at := Segments(inside);
    FoldersGrow(before, e, at);
    FilesGrow(before, e, at);
    ExistsGrows(before, e, at);
    hide Folders, Files, Exists, PathOf, Segments;
    folders, files, found := folders0, files0, found0;
    var place := PlaceOf(e.path, inside);
    match place
    case Elsewhere =>
    case Itself => found := true;
    case Direct(name) =>
      if e.isDirectory {
        folders := folders[name := e];
        assert name in folders;
      } else {
        files := files + [e];
      }
    case Deeper(name) =>
      found := true;
      PathOfChild(inside, name);
      if name !in folders {
        folders := folders[name := Entry((if inside != "" then inside + "/" else "") + name, true, None, None, false)];
      }
  }

  method LevelOf(entries: seq<Entry>, inside: string) returns (level: Level)
    requires forall i :: 0 <= i < |entries| ==> entries[i].path != ""
    ensures level == LevelAt(entries, Segments(inside))
  {
    var folders: map<string, Entry> := map[];
    var files: seq<Entry> := [];
    var found := inside == "";
    EmptyLevel(Segments(inside));
    assert entries[..0] == [];
    for i := 0 to |entries|
      invariant Cut(entries[..i], Segments(inside), folders, files, found)
    {
      assert entries[..i + 1] == entries[..i] + [entries[i]];
      folders, files, found := TakeEntry(entries[i], inside, folders, files, found, entries[..i]);
    }
    assert entries[..|entries|] == entries;
    level := Level(found || folders != map[] || files != [], folders, files);
  }

  lemma EmptyLevel(at: Position)
    ensures Folders([], at) == map[] && Files([], at) == [] && (Exists([], at) <==> at == [])
  {
  }
}
