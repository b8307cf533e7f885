/** Where an archive entry sits inside the archive, if it names a place inside at all. */
module ArchivePaths {
  import opened Common
  import opened Text
  import opened RelativePaths

  // ----- Paths

  predicate IsLetter(c: char) { 'a' <= c <= 'z' || 'A' <= c <= 'Z' }

  predicate IsDrive(segment: string) { |segment| == 2 && IsLetter(segment[0]) && segment[1] == ':' }

  /** The segments that name something; none at all when one of them climbs. */
  function Kept(segments: seq<string>): Option<seq<string>> {
    if segments == [] then Some([])
    else if segments[0] == "" || segments[0] == "." then Kept(segments[1..])
    else if segments[0] == ".." then None
    else
      match Kept(segments[1..])
      case None => None
      case Some(rest) => Some([segments[0]] + rest)
  }

  function EntryPathOf(raw: string): Option<string> {
    match Kept(Split(ForwardSlashes(raw), '/'))
    case None => None
    case Some(kept) => if kept == [] || IsDrive(kept[0]) then None else Some(Join(kept, '/'))
  }

  /** A place inside the archive, spelled the one way the listing spells it. */
  ghost predicate Canonical(path: string) {
    var segments := Split(path, '/');
    (forall i :: 0 <= i < |segments| ==> NamesSomething(segments[i])) && !IsDrive(segments[0])
  }

  lemma {:induction false} KeptNamesSomething(segments: seq<string>)
    requires forall i :: 0 <= i < |segments| ==> '/' !in segments[i] && '\\' !in segments[i]
    ensures Kept(segments).Some? ==> forall i :: 0 <= i < |Kept(segments).value| ==> NamesSomething(Kept(segments).value[i])
  {
    if segments != [] { KeptNamesSomething(segments[1..]); }
  }

  lemma {:induction false} KeptOfNames(segments: seq<string>)
    requires forall i :: 0 <= i < |segments| ==> NamesSomething(segments[i])
    ensures Kept(segments) == Some(segments)
  {
    if segments != [] {
      KeptOfNames(segments[1..]);
      assert [segments[0]] + segments[1..] == segments;
    }
  }

  /** A path the reader answers with is canonical, whatever was printed; and it reads a canonical path as itself. */
  lemma EntryPathIsCanonical(raw: string)
    ensures EntryPathOf(raw).Some? ==> Canonical(EntryPathOf(raw).value)
    ensures EntryPathOf(raw) == Some(raw) <==> Canonical(raw)
  {
    if EntryPathOf(raw).Some? { CanonicalAnswer(raw); }
    if Canonical(raw) { CanonicalIsFixed(raw); }
  }

  lemma CanonicalAnswer(raw: string)
    requires EntryPathOf(raw).Some?
    ensures Canonical(EntryPathOf(raw).value)
  {
    var forward := ForwardSlashes(raw);
    ForwardSlashesHasNoBackslash(raw);
    PartsAreWithout(forward, '/');
    PartsHaveNo(forward, '/', '\\');
    KeptNamesSomething(Split(forward, '/'));
    SplitJoin(Kept(Split(forward, '/')).value, '/');
  }

  lemma CanonicalIsFixed(path: string)
    requires Canonical(path)
    ensures EntryPathOf(path) == Some(path)
  {
    JoinSplit(path, '/');
    JoinHasNo(Split(path, '/'), '/', '\\');
    ForwardSlashesHasNoBackslash(path);
    KeptOfNames(Split(path, '/'));
  }

  /** Reading the answer again gives the answer: a position taken from a listing names the same place. */
  lemma EntryPathIdempotent(raw: string)
    requires EntryPathOf(raw).Some?
    ensures EntryPathOf(EntryPathOf(raw).value) == EntryPathOf(raw)
  {
    EntryPathIsCanonical(raw);
    EntryPathIsCanonical(EntryPathOf(raw).value);
  }

  /** An entry is refused exactly when some segment climbs, when nothing is named, or when the first name is a drive. */
  lemma {:induction false} RefusedExactly(segments: seq<string>)
    ensures Kept(segments).None? <==> ".." in segments
    ensures Kept(segments) == Some([]) <==> forall i :: 0 <= i < |segments| ==> segments[i] == "" || segments[i] == "."
  {
    if segments != [] {
      RefusedExactly(segments[1..]);
      assert forall i :: 1 <= i < |segments| ==> segments[i] == segments[1..][i - 1];
      assert segments == [segments[0]] + segments[1..];
    }
  }

  /**
   What is kept are the segments that name something, all of them and in their order: `at` says where each stood.
   So "./a/b" and "a//b" are read as "a/b".
   */
  lemma {:induction false} KeptInOrder(segments: seq<string>) returns (at: seq<nat>)
    requires ".." !in segments
    ensures Kept(segments).Some? && Picks(segments, at, Kept(segments).value)
    ensures forall i :: 0 <= i < |segments| ==> (i in at <==> segments[i] != "" && segments[i] != ".")
  {
    if segments == [] {
      at := [];
    } else {
      hide Kept;
      var n := |segments| - 1;
      var before := KeptInOrder(segments[..n]);
      KeptBehind(segments[..n], segments[n]);
      assert segments == segments[..n] + [segments[n]];
      at := if segments[n] == "" || segments[n] == "." then before else before + [n];
      PickedMore(segments, before, Kept(segments[..n]).value);
      NamedMore(segments, before);
      hide Picks;
    }
  }

  lemma NamedMore(segments: seq<string>, at: seq<nat>)
    requires var n := |segments| - 1;
             n >= 0 && (forall i :: i in at ==> i < n)
             && forall i :: 0 <= i < n ==> (i in at <==> segments[..n][i] != "" && segments[..n][i] != ".")
    ensures var n := |segments| - 1;
            var more := if segments[n] == "" || segments[n] == "." then at else at + [n];
            forall i :: 0 <= i <= n ==> (i in more <==> segments[i] != "" && segments[i] != ".")
  {
    var n := |segments| - 1;
    assert forall i :: 0 <= i < n ==> segments[..n][i] == segments[i];
  }

  /** The texts at these places, which go up. */
  ghost predicate Picks(segments: seq<string>, at: seq<nat>, picked: seq<string>) {
    && |at| == |picked|
    && (forall k :: 0 <= k < |at| ==> at[k] < |segments| && picked[k] == segments[at[k]])
    && (forall j, k :: 0 <= j < k < |at| ==> at[j] < at[k])
  }

  lemma PickedMore(segments: seq<string>, at: seq<nat>, picked: seq<string>)
    requires segments != [] && Picks(segments[..|segments| - 1], at, picked)
    ensures Picks(segments, at, picked) && Picks(segments, at + [|segments| - 1], picked + [segments[|segments| - 1]])
    ensures picked + [] == picked
  {
  }

  lemma KeptOne(segment: string)
    requires segment != ".."
    ensures Kept([segment]) == Some(if segment == "" || segment == "." then [] else [segment])
    ensures Kept([]) == Some([])
  {
    assert [segment][1..] == [] && [segment] + [] == [segment];
  }

  lemma {:induction false} KeptBehind(segments: seq<string>, last: string)
    requires ".." !in segments && last != ".."
    ensures ".." !in segments + [last] && Kept(segments).Some?
    ensures Kept(segments + [last]) == Some(Kept(segments).value + if last == "" || last == "." then [] else [last])
  {
    if segments == [] {
      assert segments + [last] == [last];
      KeptOne(last);
      hide Kept;
      assert [] + (if last == "" || last == "." then [] else [last]) == if last == "" || last == "." then [] else [last];
    } else {
      assert (segments + [last])[1..] == segments[1..] + [last];
      assert segments == [segments[0]] + segments[1..];
      KeptFirst(segments[0], segments[1..]);
      KeptFirst(segments[0], segments[1..] + [last]);
      assert segments + [last] == [segments[0]] + (segments[1..] + [last]);
      KeptBehind(segments[1..], last);
      hide Kept;
      Regroup(if segments[0] == "" || segments[0] == "." then [] else [segments[0]], Kept(segments[1..]).value,
              if last == "" || last == "." then [] else [last]);
    }
  }

  lemma Regroup(a: seq<string>, b: seq<string>, c: seq<string>)
    ensures a + (b + c) == (a + b) + c
  {
  }

  lemma KeptFirst(first: string, rest: seq<string>)
    requires first != ".."
    ensures Kept([first] + rest) ==
            if Kept(rest).None? then None
            else Some((if first == "" || first == "." then [] else [first]) + Kept(rest).value)
  {
    assert ([first] + rest)[1..] == rest;
    if Kept(rest).Some? { assert [] + Kept(rest).value == Kept(rest).value; }
  }

  /** An entry's place is its naming segments with a slash between them, whatever stood between and before them. */
  lemma EntryPathExactly(raw: string, path: string)
    ensures var segments := Split(ForwardSlashes(raw), '/');
            EntryPathOf(raw) == Some(path) <==>
            && ".." !in segments && Kept(segments).Some? && Kept(segments).value != [] && path == Join(Kept(segments).value, '/')
            && var first := Kept(segments).value[0];
               !(|first| == 2 && first[1] == ':' && ('a' <= first[0] <= 'z' || 'A' <= first[0] <= 'Z'))
  {
    RefusedExactly(Split(ForwardSlashes(raw), '/'));
  }

  /** The loop of the reader. */
  method ReadEntryPath(raw: string) returns (r: Option<string>)
    ensures r == EntryPathOf(raw)
  {
    var segments := Split(ForwardSlashes(raw), '/');
    var kept: seq<string> := [];
    ghost var whole := Kept(segments);
    assert segments[0..] == segments;
    for i := 0 to |segments|
      invariant whole.None? <==> Kept(segments[i..]).None?
      invariant whole.Some? ==> whole.value == kept + Kept(segments[i..]).value
    {
      assert segments[i..][0] == segments[i] && segments[i..][1..] == segments[i + 1..];
      if segments[i] == "" || segments[i] == "." { continue; }
      if segments[i] == ".." { return None; }
      kept := kept + [segments[i]];
    }
    assert segments[|segments|..] == [] && kept + [] == kept;
    if |kept| == 0 || IsDrive(kept[0]) { return None; }
    return Some(Join(kept, '/'));
  }
}
