/**
 Relative paths as the server reads them: backslashes turned, empty and "." segments dropped, ".." resolved,
 and whatever would climb out refused. `path.posix` of Node is written out as far as that needs it.
 */
module RelativePaths {
  import opened Common
  import opened Text

  function ForwardSlashes(s: string): string
  {
    if s == "" then "" else [if s[0] == '\\' then '/' else s[0]] + ForwardSlashes(s[1..])
  }

  predicate NamesSomething(segment: string) {
    segment != "" && segment != "." && segment != ".." && '/' !in segment && '\\' !in segment
  }

  ghost predicate AllName(names: seq<string>) { forall name :: name in names ==> NamesSomething(name) }

  /** The segments of a path with the empty ones gone. */
  function NonEmpty(segments: seq<string>): seq<string> {
    if segments == [] then [] else (if segments[0] == "" then [] else [segments[0]]) + NonEmpty(segments[1..])
  }

  function Parts(rel: string): seq<string> { NonEmpty(Split(rel, '/')) }

  function Joined(parts: seq<string>): string { if parts == [] then "" else Join(parts, '/') }

  // ----- What Node does

  predicate Absolute(path: string) { path != "" && path[0] == '/' }

  predicate Trailing(path: string) { path != "" && path[|path| - 1] == '/' }

  /** One more segment onto the path so far; a ".." takes the last name away, or stays in front of a relative path. */
  function Placed(names: seq<string>, segment: string, absolute: bool): seq<string> {
    if segment == "" || segment == "." then names
    else if segment != ".." then names + [segment]
    else if names != [] && names[|names| - 1] != ".." then names[..|names| - 1]
    else if absolute then names
    else names + [".."]
  }

  function Collapsed(names: seq<string>, segments: seq<string>, absolute: bool): seq<string>
    decreases |segments|
  {
    if segments == [] then names else Collapsed(Placed(names, segments[0], absolute), segments[1..], absolute)
  }

  function NamesIn(path: string): seq<string> { Collapsed([], Split(path, '/'), Absolute(path)) }

  function Ending(path: string): string { if Trailing(path) then "/" else "" }

  /** `path.posix.normalize`. */
  function PosixNormalize(path: string): string {
    var names := NamesIn(path);
    if path == "" then "."
    else if names == [] then (if Absolute(path) then "/" else "." + Ending(path))
    else (if Absolute(path) then "/" else "") + (Joined(names) + Ending(path))
  }

  /** `path.posix.join` of two texts. */
  function PosixJoin(a: string, b: string): string {
    PosixNormalize(if a == "" then b else if b == "" then a else a + "/" + b)
  }

  /** `path.resolve` below an absolute root. */
  function ResolvedBelow(root: string, at: string): string {
    "/" + Joined(Collapsed([], Split(if Absolute(at) then at else root + "/" + at, '/'), true))
  }

  // ----- What the path helpers make of it

  function WithoutLeading(s: string): string {
    if s != "" && (s[0] == '/' || s[0] == '\\') then WithoutLeading(s[1..]) else s
  }

  /** A path as everything behind it takes it; one that climbs is refused. */
  function NormalizeRelative(raw: string): Option<string> {
    if raw == "" || raw == "/" then Some("")
    else
      var normalized := WithoutLeading(PosixNormalize(ForwardSlashes(raw)));
      if normalized == "." then Some("")
      else if normalized == ".." || StartsWith(normalized, "../") then None
      else Some(normalized)
  }

  function CombineRelative(parent: string, name: string): Option<string> {
    match NormalizeRelative(parent)
    case None => None
    case Some(base) => NormalizeRelative(PosixJoin(base, name))
  }

  // ----- Slashes

  lemma {:induction false} ForwardSlashesHasNoBackslash(s: string)
    ensures '\\' !in ForwardSlashes(s)
    ensures '\\' !in s ==> ForwardSlashes(s) == s
  {
    if s != "" {
      ForwardSlashesHasNoBackslash(s[1..]);
      assert [s[0]] + s[1..] == s;
    }
  }

  lemma {:induction false} ForwardSlashesJoins(a: string, b: string)
    ensures ForwardSlashes(a + b) == ForwardSlashes(a) + ForwardSlashes(b)
  {
    if a == "" {
      assert a + b == b;
    } else {
      assert (a + b)[1..] == a[1..] + b;
      ForwardSlashesJoins(a[1..], b);
    }
  }

  lemma {:induction false} PartsHaveNo(s: string, c: char, d: char)
    requires d !in s
    ensures forall i :: 0 <= i < |Split(s, c)| ==> d !in Split(s, c)[i]
  {
    if s != "" {
      assert s[0] in s && forall x :: x in s[1..] ==> x in s;
      PartsHaveNo(s[1..], c, d);
    }
  }

  lemma {:induction false} JoinHasNo(parts: seq<string>, c: char, d: char)
    requires |parts| >= 1 && c != d && forall i :: 0 <= i < |parts| ==> d !in parts[i]
    ensures d !in Join(parts, c)
  {
    if |parts| > 1 { JoinHasNo(parts[1..], c, d); }
  }

  // ----- Segments

  lemma {:induction false} NonEmptyJoins(a: seq<string>, b: seq<string>)
    ensures NonEmpty(a + b) == NonEmpty(a) + NonEmpty(b)
  {
    if a == [] {
      assert a + b == b;
    } else {
      assert (a + b)[1..] == a[1..] + b;
      NonEmptyJoins(a[1..], b);
    }
  }

  lemma {:induction false} NonEmptyIsAmong(segments: seq<string>)
    ensures forall p :: p in NonEmpty(segments) ==> p in segments && p != ""
  {
    if segments != [] {
      NonEmptyIsAmong(segments[1..]);
      assert segments == [segments[0]] + segments[1..];
    }
  }

  lemma {:induction false} NothingToDrop(names: seq<string>)
    requires "" !in names
    ensures NonEmpty(names) == names
  {
    if names != [] {
      assert names == [names[0]] + names[1..];
      NothingToDrop(names[1..]);
    }
  }

  lemma PartsOfBoth(a: string, b: string)
    ensures Parts(a + "/" + b) == Parts(a) + Parts(b)
  {
    JoinParts(a, b);
    NonEmptyJoins(Split(a, '/'), Split(b, '/'));
  }

  /** What was joined comes apart again, a slash at the end or not. */
  lemma PartsOfJoined(names: seq<string>)
    requires AllName(names)
    ensures Parts(Joined(names)) == names && Parts(Joined(names) + "/") == names
  {
    if names == [] {
      assert [""][1..] == [] && "/"[1..] == "" && ["", ""][1..] == [""];
    } else {
      assert forall i :: 0 <= i < |names| ==> names[i] in names;
      SplitJoin(names, '/');
      NothingToDrop(names);
    }
    PartsOfBoth(Joined(names), "");
    assert [""][1..] == [];
    assert Joined(names) + "/" + "" == Joined(names) + "/";
  }

  lemma {:induction false} CollapsedInTurn(names: seq<string>, a: seq<string>, b: seq<string>, absolute: bool)
    ensures Collapsed(names, a + b, absolute) == Collapsed(Collapsed(names, a, absolute), b, absolute)
    decreases |a|
  {
    if a == [] {
      assert a + b == b;
    } else {
      assert (a + b)[1..] == a[1..] + b;
      CollapsedInTurn(Placed(names, a[0], absolute), a[1..], b, absolute);
    }
  }

  lemma OneIsPlaced(names: seq<string>, segment: string, absolute: bool)
    requires segment == "" || NamesSomething(segment)
    ensures Placed(names, segment, absolute) == names + NonEmpty([segment])
  {
    assert [segment][1..] == [] && names + [] == names;
  }

  /** Segments that name something are put behind what is there. */
  lemma {:induction false} NamesArePlaced(names: seq<string>, segments: seq<string>, absolute: bool)
    requires AllName(NonEmpty(segments))
    ensures Collapsed(names, segments, absolute) == names + NonEmpty(segments)
    decreases |segments|
  {
    if segments == [] {
      assert names + [] == names;
    } else {
      var first, rest := NonEmpty([segments[0]]), NonEmpty(segments[1..]);
      assert NonEmpty(segments) == first + rest by {
        NonEmptyJoins([segments[0]], segments[1..]);
        assert segments == [segments[0]] + segments[1..];
      }
      assert segments[0] != "" ==> segments[0] in first;
      assert AllName(rest);
      OneIsPlaced(names, segments[0], absolute);
      assert Collapsed(names, segments, absolute) == Collapsed(names + first, segments[1..], absolute);
      hide NonEmpty, AllName, NamesSomething, Placed, Collapsed;
      NamesArePlaced(names + first, segments[1..], absolute);
      assert (names + first) + rest == names + (first + rest);
    }
  }

  /** Every name says something, but for ".." at the front of a relative path. */
  ghost predicate WellPlaced(names: seq<string>, absolute: bool) {
    && (forall i :: 0 <= i < |names| ==> NamesSomething(names[i]) || (names[i] == ".." && !absolute))
    && (forall i, j :: 0 <= i < j < |names| && names[j] == ".." ==> names[i] == "..")
  }

  lemma {:induction false} CollapsedIsWellPlaced(names: seq<string>, segments: seq<string>, absolute: bool)
    requires WellPlaced(names, absolute)
    requires forall i :: 0 <= i < |segments| ==> '/' !in segments[i] && '\\' !in segments[i]
    ensures WellPlaced(Collapsed(names, segments, absolute), absolute)
    decreases |segments|
  {
    if segments != [] { CollapsedIsWellPlaced(Placed(names, segments[0], absolute), segments[1..], absolute); }
  }

  lemma NamesAreWellPlaced(path: string)
    requires '\\' !in path
    ensures WellPlaced(NamesIn(path), Absolute(path))
    ensures NamesIn(path) != [] && NamesIn(path)[0] != ".." ==> AllName(NamesIn(path))
  {
    PartsAreWithout(path, '/');
    PartsHaveNo(path, '/', '\\');
    CollapsedIsWellPlaced([], Split(path, '/'), Absolute(path));
  }

  // ----- What normalising gives

  lemma JoinedBegins(names: seq<string>)
    requires names != []
    ensures Joined(names) == names[0] || StartsWith(Joined(names), names[0] + "/")
  {
    if |names| > 1 { assert names[0] + ['/'] == names[0] + "/"; }
  }

  lemma FirstSegment(name: string, text: string)
    requires '/' !in name && (text == name || StartsWith(text, name + "/"))
    ensures Split(text, '/')[0] == name
  {
    if text == name {
      SplitWithout(name, '/');
    } else {
      var rest := text[|name| + 1..];
      assert text == text[..|name| + 1] + rest;
      assert text == name + ['/'] + rest;
      SplitAt(name, rest, '/');
    }
  }

  /** A path of names climbs exactly when its first name does. */
  lemma ClimbsAtFront(names: seq<string>, ending: string)
    requires names != [] && '/' !in names[0] && (ending == "" || ending == "/")
    ensures var text := Joined(names) + ending; (text == ".." || StartsWith(text, "../")) <==> names[0] == ".."
  {
    var text := Joined(names) + ending;
    JoinedBegins(names);
    assert text == names[0] || StartsWith(text, names[0] + "/");
    FirstSegment(names[0], text);
    if text == ".." || StartsWith(text, "../") { FirstSegment("..", text); }
  }

  lemma StripsOne(text: string)
    requires text != "" && text[0] != '/' && text[0] != '\\'
    ensures WithoutLeading(text) == text && WithoutLeading("/" + text) == text
  {
    assert ("/" + text)[1..] == text;
  }

  lemma NameStarts(names: seq<string>, ending: string)
    requires names != [] && (NamesSomething(names[0]) || names[0] == "..")
    ensures var text := Joined(names) + ending; text != "" && text[0] != '/' && text[0] != '\\' && text != "."
  {
    JoinedBegins(names);
    var text := Joined(names) + ending;
    assert names[0][0] in names[0] && text[0] == names[0][0];
    assert |names[0]| <= |text| && text[..|names[0]|] == names[0] && (|text| == 1 ==> names[0] == text);
  }

  /** What is left of a normalised path once its leading slash is gone. */
  lemma StrippedBy(path: string)
    requires path != "" && '\\' !in path
    ensures var names := NamesIn(path);
            WithoutLeading(PosixNormalize(path)) ==
            if names != [] then Joined(names) + Ending(path) else if Absolute(path) then "" else "." + Ending(path)
  {
    var names := NamesIn(path);
    NamesAreWellPlaced(path);
    hide NamesIn, Trailing;
    if names == [] {
      assert "/"[1..] == "";
      hide Absolute;
    } else {
      NameStarts(names, Ending(path));
      StripsOne(Joined(names) + Ending(path));
      hide Joined, WithoutLeading, Ending, Absolute;
      assert "" + (Joined(names) + Ending(path)) == Joined(names) + Ending(path);
    }
  }

  lemma NothingNamed()
    ensures ForwardSlashes("") == "" && NamesIn("") == []
    ensures ForwardSlashes("/") == "/" && NamesIn("/") == []
  {
    assert "/"[1..] == "" && [""][1..] == [] && ["", ""][1..] == [""];
  }

  /** The names of a path decide what it is read as. */
  lemma {:induction false} NormalizedBy(raw: string)
    ensures var path := ForwardSlashes(raw);
            var names := NamesIn(path);
            NormalizeRelative(raw) ==
            if names == [] then Some(if Absolute(path) || !Trailing(path) then "" else "./")
            else if names[0] == ".." then None
            else Some(Joined(names) + Ending(path))
  {
    var path := ForwardSlashes(raw);
    var names := NamesIn(path);
    ForwardSlashesHasNoBackslash(raw);
    hide Placed, Split, NamesIn;
    if raw == "" || raw == "/" {
      NothingNamed();
    } else {
      assert path != "";
      NamesAreWellPlaced(path);
      StrippedBy(path);
      hide PosixNormalize, WithoutLeading, ForwardSlashes, Trailing, Absolute;
      if names != [] {
        NameStarts(names, Ending(path));
        ClimbsAtFront(names, Ending(path));
        hide Joined;
      } else {
        assert "." + "" == "." && "." + "/" == "./";
      }
    }
  }

  /** The paths everything else works on: names with a slash between them, one more at the end perhaps. */
  ghost predicate Tidy(path: string) {
    var names := Parts(path);
    AllName(names) && (path == Joined(names) || (names != [] && path == Joined(names) + "/"))
  }

  lemma {:induction false} JoinedEnds(names: seq<string>)
    requires names != [] && AllName(names)
    ensures Joined(names) != "" && !Trailing(Joined(names))
  {
    assert names[0] in names;
    if |names| == 1 {
      assert names[0][|names[0]| - 1] in names[0];
    } else {
      assert forall name :: name in names[1..] ==> name in names;
      JoinedEnds(names[1..]);
    }
  }

  /** A tidy path has no backslash and no slash at its front, and its names are its parts. */
  lemma TidyNames(path: string)
    requires Tidy(path)
    ensures ForwardSlashes(path) == path && !Absolute(path) && NamesIn(path) == Parts(path)
    ensures path == Joined(Parts(path)) + (if Parts(path) == [] then "" else Ending(path))
  {
    var names := Parts(path);
    NamesArePlaced([], Split(path, '/'), Absolute(path));
    assert [] + names == names;
    hide Parts, NamesIn;
    if names != [] {
      assert names[0] in names;
      NoBackslash(names);
      JoinedEnds(names);
      NameStarts(names, "");
      hide NamesSomething;
      assert Joined(names) + "" == Joined(names);
    }
    ForwardSlashesHasNoBackslash(path);
  }

  lemma NoBackslash(names: seq<string>)
    requires names != [] && AllName(names)
    ensures '\\' !in Joined(names)
  {
    assert forall i :: 0 <= i < |names| ==> names[i] in names;
    JoinHasNo(names, '/', '\\');
  }

  /** What a path is read as is tidy or "./", and exactly such paths are read as they stand. */
  lemma NormalizedExactly(raw: string)
    ensures NormalizeRelative(raw).Some? ==> Tidy(NormalizeRelative(raw).value) || NormalizeRelative(raw).value == "./"
    ensures NormalizeRelative(raw) == Some(raw) <==> Tidy(raw) || raw == "./"
  {
    NormalizedIsTidy(raw);
    if Tidy(raw) { TidyIsFixed(raw); }
    if raw == "./" { DotSlashIsFixed(); }
    hide NormalizeRelative, Tidy;
  }

  lemma DotSlashSplit()
    ensures Split("./", '/') == [".", ""] && Parts("./") == ["."] && !Tidy("./")
  {
    assert "./" == "." + ['/'] + "";
    SplitAt(".", "", '/');
    assert [".", ""][1..] == [""] && [""][1..] == [];
    assert Parts("./") == ["."];
    assert "." in Parts("./") && !NamesSomething(".");
  }

  lemma DotSlashIsFixed()
    ensures NormalizeRelative("./") == Some("./")
  {
    ForwardSlashesHasNoBackslash("./");
    DotSlashSplit();
    assert [".", ""][1..] == [""] && [""][1..] == [];
    assert NamesIn("./") == [];
    NormalizedBy("./");
  }

  lemma NormalizedIsTidy(raw: string)
    ensures NormalizeRelative(raw).Some? ==> Tidy(NormalizeRelative(raw).value) || NormalizeRelative(raw).value == "./"
  {
    var names := NamesIn(ForwardSlashes(raw));
    ForwardSlashesHasNoBackslash(raw);
    NamesAreWellPlaced(ForwardSlashes(raw));
    NormalizedBy(raw);
    if NormalizeRelative(raw).Some? { PartsOfJoined(names); }
    hide NamesIn, NormalizeRelative, Parts, WellPlaced, Absolute, ForwardSlashes;
    assert Joined(names) + "" == Joined(names);
  }

  lemma TidyIsFixed(path: string)
    requires Tidy(path)
    ensures NormalizeRelative(path) == Some(path)
  {
    TidyNames(path);
    NormalizedBy(path);
    hide NormalizeRelative, NamesIn, Parts;
    if Parts(path) != [] { assert Parts(path)[0] in Parts(path); }
  }

  /** Reading a path again changes nothing. */
  lemma NormalizedTwice(raw: string)
    requires NormalizeRelative(raw).Some?
    ensures NormalizeRelative(NormalizeRelative(raw).value) == NormalizeRelative(raw)
  {
    NormalizedExactly(raw);
    NormalizedExactly(NormalizeRelative(raw).value);
    hide NormalizeRelative, Tidy;
  }

  // ----- Paths put together and taken apart

  lemma {:induction false} NamesOfBoth(a: string, b: string)
    requires a != ""
    ensures NamesIn(a + "/" + b) == Collapsed(NamesIn(a), Split(b, '/'), Absolute(a))
    ensures Absolute(a + "/" + b) == Absolute(a) && (b != "" ==> Trailing(a + "/" + b) == Trailing(b))
  {
    JoinParts(a, b);
    CollapsedInTurn([], Split(a, '/'), Split(b, '/'), Absolute(a));
    assert (a + "/" + b)[0] == a[0];
  }

  lemma SlashesBehind(text: string, at: string)
    ensures ForwardSlashes(text + "/" + at) == ForwardSlashes(text) + "/" + ForwardSlashes(at)
    ensures text != "" <==> ForwardSlashes(text) != ""
  {
    ForwardSlashesJoins(text + "/", at);
    ForwardSlashesJoins(text, "/");
    assert ForwardSlashes("/") == "/";
  }

  /** Behind a text a tidy path adds its names, whatever the text is. */
  lemma TidyBehind(text: string, at: string)
    requires text != "" && Tidy(at)
    ensures var path := if at == "" then text else text + "/" + at;
            && NamesIn(ForwardSlashes(path)) == NamesIn(ForwardSlashes(text)) + Parts(at)
            && Absolute(ForwardSlashes(path)) == Absolute(ForwardSlashes(text))
            && (at != "" ==> Trailing(ForwardSlashes(path)) == Trailing(at))
  {
    var forward := ForwardSlashes(text);
    SlashesBehind(text, at);
    TidyNames(at);
    NamesArePlaced(NamesIn(forward), Split(at, '/'), Absolute(forward));
    hide NamesIn, Collapsed, ForwardSlashes, Tidy, Absolute, Trailing, Split;
    if at == "" {
      NothingHere();
    } else {
      NamesOfBoth(forward, at);
    }
  }

  lemma NothingHere()
    ensures Parts("") == []
  {
    assert [""][1..] == [];
  }

  /** A path of names is tidy, with or without a slash at its end. */
  lemma TidyOfNames(names: seq<string>, ending: string)
    requires AllName(names) && (ending == "" || (ending == "/" && names != []))
    ensures Tidy(Joined(names) + ending) && Parts(Joined(names) + ending) == names
  {
    PartsOfJoined(names);
    assert Joined(names) + "" == Joined(names);
  }

  function Together(base: string, inner: string): string { if base == "" then inner else base + "/" + inner }

  lemma NamesTogether(base: string, inner: string)
    requires Tidy(base) && Tidy(inner) && inner != ""
    ensures var text := Together(base, inner); text != "" && NamesIn(text) == Parts(base) + Parts(inner) && !Absolute(text)
  {
    TidyNames(base);
    TidyNames(inner);
    if base == "" {
      NothingHere();
      assert [] + Parts(inner) == Parts(inner);
    } else {
      NamesArePlaced(Parts(base), Split(inner, '/'), false);
      hide NamesIn, Collapsed, Parts, Tidy;
      NamesOfBoth(base, inner);
    }
  }

  /** Combining tidy paths puts the names of one behind those of the other. */
  lemma CombinedTidy(base: string, inner: string)
    requires Tidy(base) && Tidy(inner) && inner != ""
    ensures CombineRelative(base, inner).Some?
    ensures Tidy(CombineRelative(base, inner).value) && Parts(CombineRelative(base, inner).value) == Parts(base) + Parts(inner)
  {
    var text, names := Together(base, inner), Parts(base) + Parts(inner);
    TidyIsFixed(base);
    SegmentsOfTidy(inner);
    NamesTogether(base, inner);
    assert AllName(names);
    hide NamesIn, Parts, Tidy, AllName, Joined, NormalizeRelative;
    assert "" + (Joined(names) + Ending(text)) == Joined(names) + Ending(text);
    TidyOfNames(names, Ending(text));
    TidyIsFixed(PosixNormalize(text));
  }

  /** Where a tidy path leads below a root depends on its names alone. */
  lemma SamePlace(root: string, at: string, other: string)
    requires Tidy(at) && Tidy(other) && Parts(at) == Parts(other)
    ensures ResolvedBelow(root, at) == ResolvedBelow(root, other)
  {
    PlaceBelow(root, at);
    PlaceBelow(root, other);
    hide ResolvedBelow;
  }

  lemma PlaceBelow(root: string, at: string)
    requires Tidy(at)
    ensures ResolvedBelow(root, at) == "/" + Joined(Collapsed([], Split(root, '/'), true) + Parts(at))
  {
    TidyNames(at);
    JoinParts(root, at);
    CollapsedInTurn([], Split(root, '/'), Split(at, '/'), true);
    NamesArePlaced(Collapsed([], Split(root, '/'), true), Split(at, '/'), true);
  }

  /** The segments of a tidy path are its names, and an empty one if it ends with a slash. */
  lemma SegmentsOfTidy(path: string)
    requires Tidy(path) && path != ""
    ensures Parts(path) != [] && AllName(Parts(path))
    ensures Split(path, '/') == Parts(path) || Split(path, '/') == Parts(path) + [""]
  {
    var names := Parts(path);
    assert forall i :: 0 <= i < |names| ==> names[i] in names;
    SplitJoin(names, '/');
    JoinParts(Joined(names), "");
    assert Joined(names) + "/" + "" == Joined(names) + "/";
  }

  /** Without its first segments a tidy path is one still. */
  lemma {:induction false} BehindSegments(path: string, k: nat)
    requires Tidy(path) && path != "" && 1 <= k <= |Parts(path)|
    ensures Split(path, '/')[0] == Parts(path)[0] && |Split(path, '/')| >= |Parts(path)|
    ensures Tidy(Joined(Split(path, '/')[k..])) && Parts(Joined(Split(path, '/')[k..])) == Parts(path)[k..]
  {
    SegmentsOfTidy(path);
    var names, rest := Parts(path), Parts(path)[k..];
    hide Parts, Split, Joined, Tidy;
    assert AllName(names) ==> AllName(rest);
    TidyJoined(rest);
    if Split(path, '/') != names { assert Split(path, '/')[k..] == rest + [""]; }
  }

  lemma TidyJoined(names: seq<string>)
    requires AllName(names)
    ensures Tidy(Joined(names)) && Parts(Joined(names)) == names
    ensures Tidy(Joined(names + [""])) && Parts(Joined(names + [""])) == names
  {
    TidyOfNames(names, "");
    assert Joined(names) + "" == Joined(names);
    if names == [] {
      assert names + [""] == [""];
    } else {
      TidyOfNames(names, "/");
      SplitConcat(names, [""], '/');
      assert Join(names, '/') + ['/'] + "" == Joined(names) + "/";
    }
  }

  // ----- What ".." does

  /** Walking the segments, from a folder `depth` deep, comes out above where the path began. */
  predicate ClimbsOut(depth: nat, segments: seq<string>)
    decreases |segments|
  {
    segments != [] &&
    if segments[0] == "" || segments[0] == "." then ClimbsOut(depth, segments[1..])
    else if segments[0] == ".." then depth == 0 || ClimbsOut(depth - 1, segments[1..])
    else ClimbsOut(depth + 1, segments[1..])
  }

  lemma {:induction false} StaysOut(names: seq<string>, segments: seq<string>)
    requires names != [] && names[0] == ".."
    ensures Collapsed(names, segments, false) != [] && Collapsed(names, segments, false)[0] == ".."
    decreases |segments|
  {
    if segments != [] { StaysOut(Placed(names, segments[0], false), segments[1..]); }
  }

  lemma {:induction false} ClimbsByDepth(names: seq<string>, segments: seq<string>)
    requires ".." !in names
    ensures var after := Collapsed(names, segments, false);
            after != [] && after[0] == ".." <==> ClimbsOut(|names|, segments)
    decreases |segments|
  {
    if segments != [] {
      var placed := Placed(names, segments[0], false);
      if segments[0] == ".." && names == [] {
        StaysOut(placed, segments[1..]);
      } else {
        ClimbsByDepth(placed, segments[1..]);
      }
    }
  }

  /** A path is refused exactly when it is relative and, walked from the top, comes out above it. */
  lemma RefusedWhenClimbing(raw: string)
    ensures var path := ForwardSlashes(raw);
            NormalizeRelative(raw).None? <==> !Absolute(path) && ClimbsOut(0, Split(path, '/'))
  {
    var path := ForwardSlashes(raw);
    ForwardSlashesHasNoBackslash(raw);
    NamesAreWellPlaced(path);
    NormalizedBy(raw);
    ClimbsByDepth([], Split(path, '/'));
    hide NormalizeRelative, Collapsed, ClimbsOut, Joined, Split, ForwardSlashes;
  }

  /** Going into a folder and up again leads nowhere. */
  lemma ParentTakesBack(text: string, name: string, at: string)
    requires text != "" && at != "" && NamesSomething(name)
    ensures NormalizeRelative(text + "/" + (name + "/" + (".." + "/" + at))) == NormalizeRelative(text + "/" + at)
  {
    var more := name + "/" + (".." + "/" + at);
    SlashesBehind(text, more);
    SlashesBehind(text, at);
    SlashesBehind(name, ".." + "/" + at);
    SlashesBehind("..", at);
    SlashesBehind(at, "");
    ForwardSlashesHasNoBackslash(name);
    ForwardSlashesHasNoBackslash("..");
    NormalizedBy(text + "/" + more);
    NormalizedBy(text + "/" + at);
    hide NormalizeRelative, ForwardSlashes, Joined;
    InAndOut(ForwardSlashes(text), name, ForwardSlashes(at));
  }

  lemma InAndOut(text: string, name: string, at: string)
    requires text != "" && at != "" && NamesSomething(name)
    ensures var into := text + "/" + (name + "/" + (".." + "/" + at));
            && NamesIn(into) == NamesIn(text + "/" + at) && Absolute(into) == Absolute(text + "/" + at)
            && Trailing(into) == Trailing(text + "/" + at)
  {
    var rest := ".." + "/" + at;
    NamesOfBoth(text, name + "/" + rest);
    NamesOfBoth(text, at);
    JoinParts(name, rest);
    JoinParts("..", at);
    SplitWithout(name, '/');
    SplitWithout("..", '/');
    var names := NamesIn(text);
    assert [name] + ([".."] + Split(at, '/')) == [name, ".."] + Split(at, '/');
    CollapsedInTurn(names, [name, ".."], Split(at, '/'), Absolute(text));
    BackAgain(names, name, Absolute(text));
    hide NamesIn, Collapsed, Split;
    assert (name + "/" + rest)[|name + "/" + rest| - 1] == at[|at| - 1];
  }

  lemma BackAgain(names: seq<string>, name: string, absolute: bool)
    requires NamesSomething(name)
    ensures Collapsed(names, [name, ".."], absolute) == names
  {
    assert [name, ".."][1..] == [".."] && [".."][1..] == [];
    assert (names + [name])[..|names|] == names;
  }
}
