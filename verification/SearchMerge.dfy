/**
 Merging the passes of a search as their results arrive, and the identity that says which results are
 the same file. Which pass answers first is chosen freely in every round.
 */
module SearchMerge {
  import opened Text

  datatype Item = Item(name: string, path: string)

  function Identity(item: Item): string {
    if item.path != "" then item.path + "/" + item.name else item.name
  }

  /** How many items the passes have not handed over yet. */
  ghost function Remaining(sources: seq<seq<Item>>, at: seq<nat>): nat
    requires |at| == |sources| && forall g :: 0 <= g < |at| ==> at[g] <= |sources[g]|
  {
    if sources == [] then 0 else |sources[0]| - at[0] + Remaining(sources[1..], at[1..])
  }

  lemma {:induction false} TakingOneLeavesLess(sources: seq<seq<Item>>, at: seq<nat>, g: nat)
    requires |at| == |sources| && forall h :: 0 <= h < |at| ==> at[h] <= |sources[h]|
    requires g < |at| && at[g] < |sources[g]|
    ensures Remaining(sources, at[g := at[g] + 1]) + 1 == Remaining(sources, at)
  {
    if g == 0 {
      assert at[0 := at[0] + 1][1..] == at[1..];
    } else {
      TakingOneLeavesLess(sources[1..], at[1..], g - 1);
      assert at[g := at[g] + 1][1..] == at[1..][g - 1 := at[1..][g - 1] + 1];
    }
  }

  /** Where a yielded item came from: which pass, and its place in what that pass produced. */
  datatype Origin = Origin(source: nat, index: nat)

  ghost predicate Traced(sources: seq<seq<Item>>, out: seq<Item>, origin: seq<Origin>) {
    && |origin| == |out|
    && (forall k :: 0 <= k < |out| ==>
          && origin[k].source < |sources| && origin[k].index < |sources[origin[k].source]|
          && out[k] == sources[origin[k].source][origin[k].index])
    && (forall j, k :: 0 <= j < k < |out| && origin[j].source == origin[k].source ==> origin[j].index < origin[k].index)
  }

  ghost predicate Listed(out: seq<Item>, identity: string) {
    exists k :: 0 <= k < |out| && Identity(out[k]) == identity
  }

  ghost predicate DistinctIdentities(out: seq<Item>) {
    forall j, k :: 0 <= j < k < |out| ==> Identity(out[j]) != Identity(out[k])
  }

  /** Everything a pass has handed over so far is listed, under its own or an equal identity. */
  ghost predicate TakenAreListed(sources: seq<seq<Item>>, at: seq<nat>, out: seq<Item>)
    requires |at| == |sources| && forall g :: 0 <= g < |at| ==> at[g] <= |sources[g]|
  {
    forall g, i :: 0 <= g < |sources| && 0 <= i < at[g] ==> Listed(out, Identity(sources[g][i]))
  }

  ghost predicate InRange(sources: seq<seq<Item>>, at: seq<nat>) {
    |at| == |sources| && forall g :: 0 <= g < |at| ==> at[g] <= |sources[g]|
  }

  /** What has been merged once each pass `g` has handed over its first `at[g]` items. */
  ghost predicate Merged(sources: seq<seq<Item>>, at: seq<nat>, out: seq<Item>, origin: seq<Origin>, emitted: set<string>) {
    && InRange(sources, at)
    && Traced(sources, out, origin)
    && (forall k :: 0 <= k < |out| ==> origin[k].index < at[origin[k].source])
    && DistinctIdentities(out)
    && (forall k :: 0 <= k < |out| ==> Identity(out[k]) in emitted)
    && (forall e :: e in emitted ==> Listed(out, e))
    && TakenAreListed(sources, at, out)
  }

  /**
   Draining terminates in whatever order the passes answer. The results are items of the passes, each
   pass's own in the order it gave them; no two share an identity; and every identity any pass produced
   is among them.
   */
  method MergeResults(sources: seq<seq<Item>>) returns (out: seq<Item>, ghost origin: seq<Origin>)
    ensures Traced(sources, out, origin)
    ensures DistinctIdentities(out)
    ensures forall g, i :: 0 <= g < |sources| && 0 <= i < |sources[g]| ==> Listed(out, Identity(sources[g][i]))
  {
    out, origin := [], [];
    var next: set<nat> := {};
    for g := 0 to |sources|
      invariant forall h :: h in next <==> 0 <= h < g
    {
      next := next + {g};
    }
    var at: seq<nat> := seq(|sources|, _ => 0);
    var emitted: set<string> := {};
    assert Merged(sources, at, out, origin, emitted);
    while next != {}
      invariant Merged(sources, at, out, origin, emitted)
      invariant forall g :: g in next ==> g < |sources|
      invariant forall g :: 0 <= g < |sources| && g !in next ==> at[g] == |sources[g]|
      decreases Remaining(sources, at), |next|
    {
      hide Traced, DistinctIdentities, TakenAreListed, Listed, Remaining;
      // Whichever pass answers first.
      var g :| g in next;
      if at[g] == |sources[g]| {
        next := next - {g};
        continue;
      }
      var item := sources[g][at[g]];
      TakingOneLeavesLess(sources, at, g);
      var identity := Identity(item);
      ghost var index := at[g];
      if identity in emitted { TakenAgain(sources, at, out, origin, emitted, g); }
      else { TakenFirst(sources, at, out, origin, emitted, g); }
      at := at[g := at[g] + 1];
      if identity in emitted { continue; }
      emitted := emitted + {identity};
      out, origin := out + [item], origin + [Origin(g, index)];
    }
  }

  lemma TracedGrows(sources: seq<seq<Item>>, at: seq<nat>, out: seq<Item>, origin: seq<Origin>, g: nat)
    requires InRange(sources, at) && g < |sources| && at[g] < |sources[g]|
    requires Traced(sources, out, origin) && forall k :: 0 <= k < |out| ==> origin[k].index < at[origin[k].source]
    ensures Traced(sources, out + [sources[g][at[g]]], origin + [Origin(g, at[g])])
  {
  }

  lemma TakenListed(sources: seq<seq<Item>>, at: seq<nat>, out: seq<Item>, out': seq<Item>, g: nat)
    requires InRange(sources, at) && g < |sources| && at[g] < |sources[g]|
    requires TakenAreListed(sources, at, out)
    requires forall e :: Listed(out, e) ==> Listed(out', e)
    requires Listed(out', Identity(sources[g][at[g]]))
    ensures TakenAreListed(sources, at[g := at[g] + 1], out')
  {
    hide Listed, Identity;
  }

  /** Taking the next item of pass `g` when its identity is known already: it is dropped. */
  lemma TakenAgain(sources: seq<seq<Item>>, at: seq<nat>, out: seq<Item>, origin: seq<Origin>, emitted: set<string>, g: nat)
    requires Merged(sources, at, out, origin, emitted) && g < |sources| && at[g] < |sources[g]|
    requires Identity(sources[g][at[g]]) in emitted
    ensures Merged(sources, at[g := at[g] + 1], out, origin, emitted)
  {
    TakenListed(sources, at, out, out, g);
    hide Listed, Identity, TakenAreListed, Traced, DistinctIdentities;
  }

  lemma TakenFirst(sources: seq<seq<Item>>, at: seq<nat>, out: seq<Item>, origin: seq<Origin>, emitted: set<string>, g: nat)
    requires Merged(sources, at, out, origin, emitted) && g < |sources| && at[g] < |sources[g]|
    requires Identity(sources[g][at[g]]) !in emitted
    ensures var item := sources[g][at[g]];
            Merged(sources, at[g := at[g] + 1], out + [item], origin + [Origin(g, at[g])], emitted + {Identity(item)})
  {
    var item := sources[g][at[g]];
    ListingGrows(out, item);
    TakenListed(sources, at, out, out + [item], g);
    TracedGrows(sources, at, out, origin, g);
    assert DistinctIdentities(out + [item]);
    hide Listed, Identity, TakenAreListed, Traced, DistinctIdentities;
  }

  lemma ListingGrows(out: seq<Item>, item: Item)
    ensures forall e :: Listed(out, e) ==> Listed(out + [item], e)
    ensures Listed(out + [item], Identity(item))
  {
    assert (out + [item])[|out|] == item;
    forall e | Listed(out, e) ensures Listed(out + [item], e) {
      var k :| 0 <= k < |out| && Identity(out[k]) == e;
      assert (out + [item])[k] == out[k];
    }
  }

  // ----- The identity is the path

  function LastSlash(s: string): (at: int)
    ensures -1 <= at < |s|
    ensures at >= 0 ==> s[at] == '/'
  {
    if s == "" then -1 else if s[|s| - 1] == '/' then |s| - 1 else LastSlash(s[..|s| - 1])
  }

  /** `path.posix.dirname` and `basename` of a relative path with no trailing slash. */
  function Dirname(rel: string): string {
    var at := LastSlash(rel);
    if at < 0 then "." else if at == 0 then "/" else rel[..at]
  }

  function Basename(rel: string): string { rel[LastSlash(rel) + 1..] }

  /** The name and folder of `formatResult`. */
  function FormatResult(rel: string): Item {
    var parent := Dirname(rel);
    Item(Basename(rel), if parent == "." then "" else parent)
  }

  /** A result's name is what stands behind the last slash, its folder what stands before it; none, and the top, are written "". */
  lemma NameAndFolder(dir: string, name: string)
    requires '/' !in name
    ensures FormatResult(name) == Item(name, "")
    ensures FormatResult("/" + name) == Item(name, "/")
    ensures dir != "" && dir != "." ==> FormatResult(dir + "/" + name) == Item(name, dir)
    ensures FormatResult("./" + name) == Item(name, "")
  {
    NoSlashIn(name);
    assert name[0..] == name;
    SlashApart("", name);
    SlashApart(".", name);
    SlashApart(dir, name);
    hide LastSlash, Basename;
    assert "" + "/" + name == "/" + name && "." + "/" + name == "./" + name;
  }

  lemma SlashApart(dir: string, name: string)
    requires '/' !in name
    ensures Basename(dir + "/" + name) == name && Dirname(dir + "/" + name) == if dir == "" then "/" else dir
  {
    LastSlashAt(dir, name);
    hide LastSlash;
    assert (dir + "/" + name)[..|dir|] == dir && (dir + "/" + name)[|dir| + 1..] == name;
  }

  lemma {:induction false} NoSlashIn(s: string)
    requires '/' !in s
    ensures LastSlash(s) == -1
  {
    if s != "" { NoSlashIn(s[..|s| - 1]); }
  }

  lemma {:induction false} LastSlashAt(dir: string, name: string)
    requires '/' !in name
    ensures LastSlash(dir + "/" + name) == |dir|
  {
    var s := dir + "/" + name;
    if name != "" {
      assert s[..|s| - 1] == dir + "/" + name[..|name| - 1] && s[|s| - 1] == name[|name| - 1];
      LastSlashAt(dir, name[..|name| - 1]);
    }
  }

  ghost predicate Normalized(rel: string) {
    && rel != "" && rel[0] != '/' && rel[|rel| - 1] != '/'
    && !(|rel| >= 2 && rel[0] == '.' && rel[1] == '/')
  }

  /** A result carries its own path as its identity. */
  lemma IdentityOf(rel: string)
    requires Normalized(rel)
    ensures Identity(FormatResult(rel)) == rel
  {
    var at := LastSlash(rel);
    if at < 0 {
      assert Identity(FormatResult(rel)) == rel[0..];
    } else {
      assert rel == rel[..at] + "/" + rel[at + 1..];
    }
  }

  /** So results made from paths are one item exactly when they are made from one path, and it is their identity. */
  lemma IdentityIsThePath(paths: set<string>)
    requires forall rel :: rel in paths ==> Normalized(rel)
    ensures forall rel :: rel in paths ==> Identity(FormatResult(rel)) == rel
    ensures forall rel, rel' :: rel in paths && rel' in paths && FormatResult(rel) == FormatResult(rel') ==> rel == rel'
  {
    forall rel | rel in paths ensures Identity(FormatResult(rel)) == rel { IdentityOf(rel); }
    hide Identity, FormatResult;
  }

  // ----- Folders that match by name

  datatype Matcher = Matcher(ignored: string -> bool, matches: string -> bool)

  /** `base` with the first `n` folder names under it. */
  function Below(base: string, parts: seq<string>, n: nat): string
    requires n <= |parts|
  {
    if n == 0 then base
    else var up := Below(base, parts, n - 1); if up != "" then up + "/" + parts[n - 1] else parts[n - 1]
  }

  /** The base and the names are joined by slashes; below the top there is nothing to put in front. */
  lemma {:induction false} BelowJoins(base: string, parts: seq<string>, n: nat)
    requires 0 < n <= |parts| && forall i :: 0 <= i < |parts| ==> parts[i] != ""
    ensures Below(base, parts, n) != ""
    ensures Below(base, parts, n) == (if base == "" then "" else base + "/") + Join(parts[..n], '/')
  {
    if n == 1 {
      assert parts[..1] == [parts[0]] && "" + parts[0] == parts[0];
    } else {
      BelowJoins(base, parts, n - 1);
      assert parts[..n] == parts[..n - 1] + [parts[n - 1]];
      SplitConcat(parts[..n - 1], [parts[n - 1]], '/');
      hide Below, Join;
      var front, joined, last := if base == "" then "" else base + "/", Join(parts[..n - 1], '/'), parts[n - 1];
      assert front + joined + "/" + last == front + (joined + ['/'] + last);
    }
  }

  /** Entered: no folder among the first `n` is one the search does not go into. */
  ghost predicate Entered(m: Matcher, parts: seq<string>, n: nat)
    requires n <= |parts|
  {
    forall i :: 0 <= i < n ==> !m.ignored(parts[i])
  }

  /**
   The folders found are those below the base whose own name matches, if neither they nor any folder
   between the base and them is ignored. `parts` is the folder
   part of the path, with its empty segments gone.
   */
  method ExtractDirMatches(base: string, parts: seq<string>, m: Matcher) returns (dirs: set<string>)
    ensures forall d :: d in dirs <==>
              exists n :: 0 < n <= |parts| && Entered(m, parts, n) && m.matches(parts[n - 1]) && d == Below(base, parts, n)
  {
    dirs := {};
    var acc, i := base, 0;
    while i < |parts|
      invariant 0 <= i <= |parts| && acc == Below(base, parts, i) && Entered(m, parts, i)
      invariant forall d :: d in dirs <==>
                  exists n :: 0 < n <= i && Entered(m, parts, n) && m.matches(parts[n - 1]) && d == Below(base, parts, n)
    {
      var part := parts[i];
      if m.ignored(part) {
        assert forall n :: i < n <= |parts| ==> !Entered(m, parts, n);
        break;
      }
      acc := if acc != "" then acc + "/" + part else part;
      i := i + 1;
      if m.matches(part) { dirs := dirs + {acc}; }
    }
  }
}
