/** Which tags of the published image survive: the newest releases in every spelling, and what is tied to them. */
module Retention {
  import opened Common
  import opened Text

  datatype Release = Release(number: string, parts: seq<nat>)
  datatype Tag = Tag(name: string, digest: Option<string>)

  // ----- Names

  const LEAN := "-lean"

  function WithoutLean(s: string): string { if |s| >= 5 && s[|s| - 5..] == LEAN then s[..|s| - 5] else s }

  function WithoutV(s: string): string { if s != "" && s[0] == 'v' then s[1..] else s }

  /** Three numbers, whatever "v" stands before them and whatever "-lean" behind. */
  function ReleaseOf(tag: string): Option<Release> {
    var number := WithoutLean(WithoutV(tag));
    var parts := Split(number, '.');
    if |parts| == 3 && Digits(parts[0]) && Digits(parts[1]) && Digits(parts[2])
    then Some(Release(number, [Number(parts[0]), Number(parts[1]), Number(parts[2])]))
    else None
  }

  predicate IsProtected(name: string) { name == "latest" || name == "latest-lean" }

  predicate IsCommit(name: string) {
    var bare := WithoutLean(name);
    |bare| == 44 && bare[..4] == "sha-" && forall i :: 4 <= i < 44 ==> IsHex(bare[i])
  }

  /** All spellings of a release answer to the same number. */
  lemma SpellingsAgree(number: string)
    requires ReleaseOf(number).Some? && ReleaseOf(number).value.number == number
    ensures ReleaseOf("v" + number) == ReleaseOf(number)
    ensures ReleaseOf(number + LEAN) == ReleaseOf(number)
    ensures ReleaseOf("v" + (number + LEAN)) == ReleaseOf(number)
  {
    StartsWithDigit(number);
    var lean := number + LEAN;
    assert lean[|lean| - 5..] == LEAN && lean[..|lean| - 5] == number && lean[0] == number[0];
    assert ("v" + number)[1..] == number && ("v" + lean)[1..] == lean;
    assert WithoutV(number) == number && WithoutLean(number) == number;
  }

  lemma StartsWithDigit(number: string)
    requires ReleaseOf(number).Some? && ReleaseOf(number).value.number == number
    ensures number != "" && '0' <= number[0] <= '9'
  {
    var parts := Split(number, '.');
    JoinSplit(number, '.');
    assert Join(parts, '.')[0] == parts[0][0];
  }

  /** Three numbers with dots between them. */
  ghost predicate IsRelease(r: Release) {
    exists a, b, c :: Digits(a) && Digits(b) && Digits(c)
                      && r.number == a + "." + b + "." + c && r.parts == [Number(a), Number(b), Number(c)]
  }

  /** A tag is of a release exactly when it is its number, with a "v" before it or "-lean" behind it or both. */
  lemma ReleaseExactly(tag: string, r: Release)
    ensures ReleaseOf(tag) == Some(r) <==>
            IsRelease(r) && (tag == r.number || tag == "v" + r.number || tag == r.number + "-lean" || tag == "v" + (r.number + "-lean"))
  {
    if ReleaseOf(tag) == Some(r) {
      SpelledFrom(tag);
      NumberIsRelease(r.number);
    }
    forall a, b, c | Digits(a) && Digits(b) && Digits(c) && r.number == a + "." + b + "." + c
                     && r.parts == [Number(a), Number(b), Number(c)]
                     && (tag == r.number || tag == "v" + r.number || tag == r.number + "-lean" || tag == "v" + (r.number + "-lean"))
      ensures ReleaseOf(tag) == Some(r)
    {
      PlainNumber(a, b, c);
      SpellingsAgree(r.number);
      hide ReleaseOf;
    }
  }

  /** Taking "v" and "-lean" off leaves one of the four spellings. */
  lemma SpelledFrom(tag: string)
    ensures var number := WithoutLean(WithoutV(tag));
            tag == number || tag == "v" + number || tag == number + "-lean" || tag == "v" + (number + "-lean")
  {
    var bare := WithoutV(tag);
    assert tag != bare ==> tag == "v" + bare;
    assert WithoutLean(bare) != bare ==> bare == WithoutLean(bare) + bare[|bare| - 5..];
  }

  lemma NumberIsRelease(number: string)
    requires var parts := Split(number, '.'); |parts| == 3 && Digits(parts[0]) && Digits(parts[1]) && Digits(parts[2])
    ensures var parts := Split(number, '.'); IsRelease(Release(number, [Number(parts[0]), Number(parts[1]), Number(parts[2])]))
  {
    var parts := Split(number, '.');
    JoinSplit(number, '.');
    assert parts[1..] == [parts[1], parts[2]] && [parts[1], parts[2]][1..] == [parts[2]];
    assert Join([parts[1], parts[2]], '.') == parts[1] + ['.'] + parts[2];
    assert number == parts[0] + ['.'] + (parts[1] + ['.'] + parts[2]);
    assert number == parts[0] + "." + parts[1] + "." + parts[2];
  }

  lemma PlainNumber(a: string, b: string, c: string)
    requires Digits(a) && Digits(b) && Digits(c)
    ensures var number := a + "." + b + "." + c;
            ReleaseOf(number) == Some(Release(number, [Number(a), Number(b), Number(c)]))
  {
    NothingAround(a, b, c);
    SplitThree(a, b, c);
    hide Split, Number, WithoutV, WithoutLean;
  }

  lemma NothingAround(a: string, b: string, c: string)
    requires Digits(a) && Digits(c)
    ensures var number := a + "." + b + "." + c; WithoutV(number) == number && WithoutLean(number) == number
  {
    var number := a + "." + b + "." + c;
    assert number[0] == a[0] && number[|number| - 1] == c[|c| - 1];
    if |number| >= 5 { assert number[|number| - 5..][4] == c[|c| - 1]; }
  }

  /** A commit's tag is "sha-" and forty hexadecimal digits, "-lean" behind them or not. */
  lemma CommitExactly(name: string)
    ensures IsCommit(name) <==>
            exists hash :: |hash| == 40 && (forall i :: 0 <= i < 40 ==> '0' <= hash[i] <= '9' || 'a' <= hash[i] <= 'f')
                           && (name == "sha-" + hash || name == "sha-" + (hash + "-lean"))
  {
    var bare := WithoutLean(name);
    if IsCommit(name) {
      var hash := bare[4..];
      assert bare == bare[..4] + hash;
      assert |name| >= 5 && name[|name| - 5..] == LEAN ==> name == bare + name[|name| - 5..];
      assert "sha-" + hash + LEAN == "sha-" + (hash + LEAN);
      assert |hash| == 40 && (name == "sha-" + hash || name == "sha-" + (hash + "-lean"));
    }
    forall hash | |hash| == 40 && (forall i :: 0 <= i < 40 ==> '0' <= hash[i] <= '9' || 'a' <= hash[i] <= 'f')
                  && (name == "sha-" + hash || name == "sha-" + (hash + "-lean"))
      ensures IsCommit(name)
    {
      HashIsCommit(hash);
    }
  }

  lemma HashIsCommit(hash: string)
    requires |hash| == 40 && forall i :: 0 <= i < 40 ==> IsHex(hash[i])
    ensures IsCommit("sha-" + hash) && IsCommit("sha-" + (hash + "-lean"))
  {
    var short, long := "sha-" + hash, "sha-" + (hash + "-lean");
    assert long[|long| - 5..] == LEAN && long[..|long| - 5] == short;
    assert short[|short| - 1] == hash[39] && short[|short| - 5..][4] == hash[39] && LEAN[4] == 'n';
    assert short[..4] == "sha-" && forall i :: 4 <= i < 44 ==> short[i] == hash[i - 4];
  }

  // ----- Order

  /** `newestFirst`: whether `a` may stand before `b`. */
  predicate NoOlder(a: Release, b: Release)
    requires |a.parts| == 3 && |b.parts| == 3
  {
    if a.parts[0] != b.parts[0] then a.parts[0] > b.parts[0]
    else if a.parts[1] != b.parts[1] then a.parts[1] > b.parts[1]
    else a.parts[2] >= b.parts[2]
  }

  /** As triples of numbers `a` is greater: at the first place where they differ. */
  ghost predicate Greater(a: Release, b: Release)
    requires |a.parts| == 3 && |b.parts| == 3
  {
    exists d :: 0 <= d < 3 && a.parts[d] > b.parts[d] && forall e :: 0 <= e < d ==> a.parts[e] == b.parts[e]
  }

  lemma NoOlderExactly(a: Release, b: Release)
    requires |a.parts| == 3 && |b.parts| == 3
    ensures NoOlder(a, b) <==> !Greater(b, a)
  {
    if a.parts[0] != b.parts[0] {
      if b.parts[0] > a.parts[0] { assert Greater(b, a); }
    } else if a.parts[1] != b.parts[1] {
      if b.parts[1] > a.parts[1] { assert Greater(b, a); }
    } else if b.parts[2] > a.parts[2] {
      assert Greater(b, a);
    }
  }

  ghost predicate Proper(releases: seq<Release>) { forall i :: 0 <= i < |releases| ==> |releases[i].parts| == 3 }

  ghost predicate NewestFirst(releases: seq<Release>)
    requires Proper(releases)
  {
    forall i, j :: 0 <= i < j < |releases| ==> NoOlder(releases[i], releases[j])
  }

  function Insert(r: Release, sorted: seq<Release>): (out: seq<Release>)
    requires |r.parts| == 3 && Proper(sorted)
    ensures Proper(out) && multiset(out) == multiset{r} + multiset(sorted)
  {
    if sorted == [] || NoOlder(r, sorted[0]) then [r] + sorted
    else
      assert sorted == [sorted[0]] + sorted[1..];
      [sorted[0]] + Insert(r, sorted[1..])
  }

  function SortNewestFirst(releases: seq<Release>): (out: seq<Release>)
    requires Proper(releases)
    ensures Proper(out) && multiset(out) == multiset(releases)
  {
    if releases == [] then []
    else
      assert releases == [releases[0]] + releases[1..];
      Insert(releases[0], SortNewestFirst(releases[1..]))
  }

  lemma {:induction false} InsertSorts(r: Release, sorted: seq<Release>)
    requires |r.parts| == 3 && Proper(sorted) && NewestFirst(sorted)
    ensures NewestFirst(Insert(r, sorted))
  {
    if sorted != [] && !NoOlder(r, sorted[0]) {
      InsertSorts(r, sorted[1..]);
      var rest := Insert(r, sorted[1..]);
      forall i | 0 <= i < |rest| ensures NoOlder(sorted[0], rest[i]) {
        assert rest[i] in multiset(rest);
        if rest[i] != r {
          var k :| 0 <= k < |sorted[1..]| && sorted[1..][k] == rest[i];
          assert sorted[k + 1] == rest[i];
        }
      }
    }
  }

  lemma {:induction false} SortSorts(releases: seq<Release>)
    requires Proper(releases)
    ensures NewestFirst(SortNewestFirst(releases))
  {
    if releases != [] {
      SortSorts(releases[1..]);
      InsertSorts(releases[0], SortNewestFirst(releases[1..]));
    }
  }

  // ----- Deciding

  function AddRelease(releases: seq<Release>, r: Option<Release>): seq<Release> {
    if r.None? || r.value in releases then releases else releases + [r.value]
  }

  /** Each release once, in the order its first tag is listed. */
  function Releases(tags: seq<Tag>): (rs: seq<Release>)
    ensures forall i :: 0 <= i < |rs| ==> |rs[i].parts| == 3
  {
    if tags == [] then []
    else
      AddRelease(Releases(tags[..|tags| - 1]), ReleaseOf(tags[|tags| - 1].name))
  }

  /** `slice(0, keep)`: a negative count leaves that many off the end. */
  function SliceEnd(length: nat, keep: int): (n: nat)
    ensures n <= length
  {
    if keep < 0 then (if length + keep < 0 then 0 else length + keep) else if keep < length then keep else length
  }

  function Ordered(tags: seq<Tag>): (rs: seq<Release>)
    ensures Proper(rs)
  {
    SortNewestFirst(Releases(tags))
  }

  function Newest(tags: seq<Tag>, keep: int): seq<Release> { Ordered(tags)[..SliceEnd(|Ordered(tags)|, keep)] }

  function Kept(tags: seq<Tag>, keep: int, current: Option<string>): set<string> {
    (set r | r in Newest(tags, keep) :: r.number) + (if current.Some? && current.value != "" then {current.value} else {})
  }

  predicate IsKeptRelease(name: string, kept: set<string>) { ReleaseOf(name).Some? && ReleaseOf(name).value.number in kept }

  predicate Anchors(tag: Tag, kept: set<string>) { IsProtected(tag.name) || IsKeptRelease(tag.name, kept) }

  function KeptDigests(tags: seq<Tag>, kept: set<string>): set<string> {
    set i | 0 <= i < |tags| && Anchors(tags[i], kept) && tags[i].digest.Some? && tags[i].digest.value != "" :: tags[i].digest.value
  }

  predicate IsDoomed(tag: Tag, kept: set<string>, digests: set<string>) {
    if IsProtected(tag.name) then false
    else if ReleaseOf(tag.name).Some? then ReleaseOf(tag.name).value.number !in kept
    else IsCommit(tag.name) && (tag.digest.None? || tag.digest.value == "" || tag.digest.value !in digests)
  }

  function Select(tags: seq<Tag>, kept: set<string>, digests: set<string>, doomed: bool): seq<Tag> {
    if tags == [] then []
    else (if IsDoomed(tags[0], kept, digests) == doomed then [tags[0]] else []) + Select(tags[1..], kept, digests, doomed)
  }

  function Doomed(tags: seq<Tag>, keep: int, current: Option<string>): seq<Tag> {
    if |Ordered(tags)| <= keep then []
    else Select(tags, Kept(tags, keep, current), KeptDigests(tags, Kept(tags, keep, current)), true)
  }

  /** What of the tags a decision with these numbers kept leaves. */
  function Left(tags: seq<Tag>, kept: set<string>): seq<Tag> { Select(tags, kept, KeptDigests(tags, kept), false) }

  function Survivors(tags: seq<Tag>, keep: int, current: Option<string>): seq<Tag> {
    if |Ordered(tags)| <= keep then tags else Left(tags, Kept(tags, keep, current))
  }

  /** The loop that finds the releases. */
  method FindReleases(tags: seq<Tag>) returns (found: seq<Release>)
    ensures found == Releases(tags)
  {
    found := [];
    for i := 0 to |tags|
      invariant found == Releases(tags[..i])
    {
      hide ReleaseOf;
      assert tags[..i + 1][..i] == tags[..i];
      var release := ReleaseOf(tags[i].name);
      if release.Some? && release.value !in found { found := found + [release.value]; }
    }
    assert tags[..|tags|] == tags;
  }

  /** The decision as the script takes it, from the listing alone. */
  method Decide(tags: seq<Tag>, keep: int, current: Option<string>) returns (kept: set<string>, doomed: seq<Tag>, releases: nat)
    ensures kept == Kept(tags, keep, current)
    ensures doomed == Doomed(tags, keep, current)
    ensures releases == |Ordered(tags)|
  {
    var found := FindReleases(tags);
    hide Releases, ReleaseOf, Select, KeptDigests, SortNewestFirst;
    var ordered := SortNewestFirst(found);
    releases := |ordered|;
    kept := set r | r in ordered[..SliceEnd(|ordered|, keep)] :: r.number;
    if current.Some? && current.value != "" { kept := kept + {current.value}; }
    if |ordered| <= keep { return kept, [], releases; }
    doomed := Select(tags, kept, KeptDigests(tags, kept), true);
  }

  // ----- What survives

  lemma {:induction false} SelectExactly(tags: seq<Tag>, kept: set<string>, digests: set<string>, doomed: bool)
    ensures forall t :: t in Select(tags, kept, digests, doomed) <==> t in tags && IsDoomed(t, kept, digests) == doomed
  {
    if tags != [] {
      SelectExactly(tags[1..], kept, digests, doomed);
      assert tags == [tags[0]] + tags[1..];
      hide IsDoomed;
    }
  }

  ghost predicate Listed(tags: seq<Tag>, r: Release) {
    exists i :: 0 <= i < |tags| && ReleaseOf(tags[i].name) == Some(r)
  }

  lemma ListedGrows(before: seq<Tag>, t: Tag, r: Release)
    ensures Listed(before + [t], r) <==> Listed(before, r) || ReleaseOf(t.name) == Some(r)
  {
    hide ReleaseOf;
    var after := before + [t];
    assert after[|before|] == t;
    if i :| 0 <= i < |before| && ReleaseOf(before[i].name) == Some(r) { assert ReleaseOf(after[i].name) == Some(r); }
  }

  lemma OneMoreRelease(before: seq<Tag>, t: Tag, r: Release)
    ensures Releases(before + [t]) == AddRelease(Releases(before), ReleaseOf(t.name))
    ensures r in Releases(before + [t]) <==> r in Releases(before) || ReleaseOf(t.name) == Some(r)
  {
    hide ReleaseOf;
    assert (before + [t])[..|before|] == before;
  }

  lemma NoneListed(r: Release)
    ensures r !in Releases([]) && !Listed([], r)
  {
  }

  lemma {:induction false} ReleasesExactly(tags: seq<Tag>, r: Release)
    ensures r in Releases(tags) <==> Listed(tags, r)
  {
    hide ReleaseOf, Listed, Releases, AddRelease;
    NoneListed(r);
    if tags != [] {
      var n := |tags| - 1;
      ReleasesExactly(tags[..n], r);
      ListedGrows(tags[..n], tags[n], r);
      OneMoreRelease(tags[..n], tags[n], r);
      assert tags == tags[..n] + [tags[n]];
    }
  }

  lemma InOrdered(tags: seq<Tag>, r: Release)
    ensures r in Ordered(tags) <==> Listed(tags, r)
  {
    ReleasesExactly(tags, r);
    assert r in Ordered(tags) <==> r in multiset(Releases(tags));
  }

  /** A removed tag is no protected or unknown one, belongs to no kept release, and shares no digest with a kept tag. */
  lemma RemovedExactly(tags: seq<Tag>, keep: int, current: Option<string>, t: Tag)
    ensures var kept := Kept(tags, keep, current);
            t in Doomed(tags, keep, current) <==>
              && t in tags && |Ordered(tags)| > keep && !IsProtected(t.name) && !IsKeptRelease(t.name, kept)
              && (ReleaseOf(t.name).Some? || IsCommit(t.name))
              && (ReleaseOf(t.name).None? ==>
                    forall k :: 0 <= k < |tags| && Anchors(tags[k], kept) && tags[k].digest.Some? && tags[k].digest.value != ""
                                ==> tags[k].digest != t.digest)
  {
    var kept := Kept(tags, keep, current);
    SelectExactly(tags, kept, KeptDigests(tags, kept), true);
    hide ReleaseOf, IsCommit, IsProtected, Kept, Ordered, Anchors;
  }

  /** The `keep` newest releases stay, and so does the current version, in every spelling they are listed under. */
  lemma NewestStay(tags: seq<Tag>, keep: int, current: Option<string>, t: Tag)
    ensures && ReleaseOf(t.name).Some?
            && (ReleaseOf(t.name).value in Newest(tags, keep)
                || (current == Some(ReleaseOf(t.name).value.number) && current.value != ""))
            ==> t !in Doomed(tags, keep, current)
  {
    RemovedExactly(tags, keep, current, t);
    hide ReleaseOf, Newest, Doomed;
  }

  lemma NewestAreKept(tags: seq<Tag>, keep: int, current: Option<string>, r: Release)
    ensures r in Newest(tags, keep) ==> r.number in Kept(tags, keep, current)
  {
  }

  lemma FrontIsNewest(tags: seq<Tag>, keep: int, j: nat)
    ensures j < SliceEnd(|Ordered(tags)|, keep) ==> Ordered(tags)[j] in Newest(tags, keep)
  {
    hide Ordered;
    if j < SliceEnd(|Ordered(tags)|, keep) { assert Ordered(tags)[..SliceEnd(|Ordered(tags)|, keep)][j] in Newest(tags, keep); }
  }

  /** A count keeps that many from the front, a negative one all but that many at the end. */
  lemma CountKeeps(length: nat, keep: int)
    ensures keep >= 0 ==> SliceEnd(length, keep) <= keep && (SliceEnd(length, keep) == keep || SliceEnd(length, keep) == length <= keep)
    ensures keep < 0 ==> SliceEnd(length, keep) == length + keep || (SliceEnd(length, keep) == 0 && length + keep < 0)
  {
  }

  /** A number is kept if it is one of the newest, or the current version, when one is given. */
  lemma KeptInWords(tags: seq<Tag>, keep: int, current: Option<string>, number: string)
    ensures number in Kept(tags, keep, current) <==>
            (exists r :: r in Newest(tags, keep) && r.number == number) || (current == Some(number) && number != "")
  {
    hide Newest;
  }

  /** The tags that name what is published now are never removed, and no other name is safe by itself. */
  lemma LatestStays(tags: seq<Tag>, keep: int, current: Option<string>, t: Tag)
    ensures t.name == "latest" || t.name == "latest-lean" ==> t !in Doomed(tags, keep, current)
    ensures (&& ReleaseOf(t.name).Some? && t.name != "latest" && t.name != "latest-lean" && t in tags && |Ordered(tags)| > keep
             && ReleaseOf(t.name).value.number !in Kept(tags, keep, current)) ==> t in Doomed(tags, keep, current)
  {
    RemovedExactly(tags, keep, current, t);
    hide ReleaseOf, Kept, Doomed, Ordered;
  }

  /** A commit's tag goes with its image: it stays exactly if a tag that stays for its own name shares its digest. */
  lemma CommitsGoWithTheirImage(tags: seq<Tag>, keep: int, current: Option<string>, t: Tag)
    requires t in tags && |Ordered(tags)| > keep && IsCommit(t.name) && ReleaseOf(t.name).None?
    requires t.name != "latest" && t.name != "latest-lean"
    ensures t !in Doomed(tags, keep, current) <==>
            exists k :: && 0 <= k < |tags| && tags[k].digest == t.digest && t.digest.Some? && t.digest.value != ""
                        && (|| tags[k].name == "latest" || tags[k].name == "latest-lean"
                            || (ReleaseOf(tags[k].name).Some? && ReleaseOf(tags[k].name).value.number in Kept(tags, keep, current)))
  {
    RemovedExactly(tags, keep, current, t);
    hide ReleaseOf, Kept, Doomed, Ordered, IsCommit;
  }

  /** The newest kept are the greatest, as triples of numbers, of all that are listed. */
  lemma NewestAreGreatest(tags: seq<Tag>, keep: int, name: string, r: Release)
    requires (exists k :: 0 <= k < |tags| && tags[k].name == name) && ReleaseOf(name).Some? && r in Newest(tags, keep)
    requires ReleaseOf(name).value !in Newest(tags, keep)
    ensures |r.parts| == 3 && |ReleaseOf(name).value.parts| == 3 && !Greater(ReleaseOf(name).value, r)
  {
    LeftOffIsNoNewer(tags, keep, name, r);
    NoOlderExactly(r, ReleaseOf(name).value);
    hide ReleaseOf, Newest, NoOlder, Greater;
  }

  /** Versions are compared as numbers, not as texts: of two that differ in one number, the greater number is newer. */
  lemma ComparedAsNumbers(x: nat, y: nat, z: nat, more: nat)
    requires more > y
    ensures var minor, next := Decimal(x) + "." + Decimal(y) + "." + Decimal(z), Decimal(x) + "." + Decimal(more) + "." + Decimal(z);
            && ReleaseOf(minor).Some? && ReleaseOf(next).Some?
            && !NoOlder(ReleaseOf(minor).value, ReleaseOf(next).value) && NoOlder(ReleaseOf(next).value, ReleaseOf(minor).value)
  {
    NumberOfDecimal(x);
    NumberOfDecimal(y);
    NumberOfDecimal(z);
    NumberOfDecimal(more);
    PlainNumber(Decimal(x), Decimal(y), Decimal(z));
    PlainNumber(Decimal(x), Decimal(more), Decimal(z));
    hide ReleaseOf, Decimal, Number;
  }

  /** Every removed release is no newer than each of the newest kept. */
  lemma RemovedIsNoNewer(tags: seq<Tag>, keep: int, current: Option<string>)
    ensures forall t, r :: t in Doomed(tags, keep, current) && ReleaseOf(t.name).Some? && r in Newest(tags, keep) ==>
              |r.parts| == 3 && |ReleaseOf(t.name).value.parts| == 3 && NoOlder(r, ReleaseOf(t.name).value)
  {
    hide ReleaseOf, Doomed, Newest, NoOlder;
    forall t, r | t in Doomed(tags, keep, current) && ReleaseOf(t.name).Some? && r in Newest(tags, keep)
      ensures |r.parts| == 3 && |ReleaseOf(t.name).value.parts| == 3 && NoOlder(r, ReleaseOf(t.name).value)
    {
      RemovedExactly(tags, keep, current, t);
      var k :| 0 <= k < |tags| && tags[k] == t;
      NewestAreKept(tags, keep, current, ReleaseOf(t.name).value);
      LeftOffIsNoNewer(tags, keep, tags[k].name, r);
    }
  }

  /** A listed release that is not among the newest is no newer than any of them. */
  lemma LeftOffIsNoNewer(tags: seq<Tag>, keep: int, name: string, r: Release)
    ensures && (exists k :: 0 <= k < |tags| && tags[k].name == name) && ReleaseOf(name).Some? && r in Newest(tags, keep)
            && ReleaseOf(name).value !in Newest(tags, keep)
            ==> |r.parts| == 3 && |ReleaseOf(name).value.parts| == 3 && NoOlder(r, ReleaseOf(name).value)
  {
    if && (exists k :: 0 <= k < |tags| && tags[k].name == name) && ReleaseOf(name).Some? && r in Newest(tags, keep)
       && ReleaseOf(name).value !in Newest(tags, keep)
    {
      var gone, ordered := ReleaseOf(name).value, Ordered(tags);
      InOrdered(tags, gone);
      SortSorts(Releases(tags));
      hide ReleaseOf, Releases, SortNewestFirst, NoOlder;
      var k :| 0 <= k < |tags| && tags[k].name == name;
      assert Listed(tags, gone);
      var n := SliceEnd(|ordered|, keep);
      var i :| 0 <= i < n && ordered[i] == r;
      var j :| 0 <= j < |ordered| && ordered[j] == gone;
      FrontIsNewest(tags, keep, j);
    }
  }

  // ----- Deciding again

  lemma {:induction false} SelectKeepsReleases(tags: seq<Tag>, kept: set<string>, digests: set<string>)
    ensures Releases(Select(tags, kept, digests, false)) == Filtered(Releases(tags), kept)
  {
    if tags != [] {
      var n := |tags| - 1;
      var before, t := tags[..n], tags[n];
      assert tags == before + [t];
      SelectKeepsReleases(before, kept, digests);
      SelectJoins(before, t, kept, digests);
      ReleaseKeptIfOfKept(before, t, kept, digests);
    }
  }

  /** The releases whose number is kept, in the order given. */
  function Filtered(releases: seq<Release>, kept: set<string>): seq<Release> {
    if releases == [] then []
    else (if releases[0].number in kept then [releases[0]] else []) + Filtered(releases[1..], kept)
  }

  lemma {:induction false} FilteredIsAmong(releases: seq<Release>, kept: set<string>)
    ensures forall r :: r in Filtered(releases, kept) <==> r in releases && r.number in kept
  {
    if releases != [] {
      FilteredIsAmong(releases[1..], kept);
      assert releases == [releases[0]] + releases[1..];
    }
  }

  lemma FilteredCons(r: Release, rest: seq<Release>, kept: set<string>)
    ensures Filtered([r] + rest, kept) == if r.number in kept then [r] + Filtered(rest, kept) else Filtered(rest, kept)
  {
    assert ([r] + rest)[1..] == rest;
  }

  lemma {:induction false} FilteredJoins(a: seq<Release>, b: seq<Release>, kept: set<string>)
    ensures Filtered(a + b, kept) == Filtered(a, kept) + Filtered(b, kept)
  {
    assert Filtered([], kept) == [];
    hide Filtered;
    if a == [] {
      assert a + b == b && [] + Filtered(b, kept) == Filtered(b, kept);
    } else {
      FilteredJoins(a[1..], b, kept);
      assert a == [a[0]] + a[1..] && a + b == [a[0]] + (a[1..] + b);
      FilteredCons(a[0], a[1..], kept);
      FilteredCons(a[0], a[1..] + b, kept);
      if a[0].number in kept {
        assert [a[0]] + (Filtered(a[1..], kept) + Filtered(b, kept)) == ([a[0]] + Filtered(a[1..], kept)) + Filtered(b, kept);
      }
    }
  }

  lemma {:induction false} SelectJoins(tags: seq<Tag>, t: Tag, kept: set<string>, digests: set<string>)
    ensures Select(tags + [t], kept, digests, false) ==
            Select(tags, kept, digests, false) + (if IsDoomed(t, kept, digests) then [] else [t])
  {
    hide IsDoomed;
    if tags == [] {
      assert tags + [t] == [t] && [t][1..] == [];
    } else {
      assert (tags + [t])[1..] == tags[1..] + [t] && (tags + [t])[0] == tags[0];
      SelectJoins(tags[1..], t, kept, digests);
      var first := if !IsDoomed(tags[0], kept, digests) then [tags[0]] else [];
      var last := if IsDoomed(t, kept, digests) then [] else [t];
      assert first + (Select(tags[1..], kept, digests, false) + last) == (first + Select(tags[1..], kept, digests, false)) + last;
    }
  }

  lemma AddThenKeep(releases: seq<Release>, r: Option<Release>, kept: set<string>)
    ensures Filtered(AddRelease(releases, r), kept) ==
            if r.Some? && r.value.number in kept then AddRelease(Filtered(releases, kept), r) else Filtered(releases, kept)
  {
    FilteredIsAmong(releases, kept);
    if r.Some? && r.value !in releases { FilteredJoins(releases, [r.value], kept); }
  }

  lemma ReleaseKeptIfOfKept(before: seq<Tag>, t: Tag, kept: set<string>, digests: set<string>)
    requires Releases(Select(before, kept, digests, false)) == Filtered(Releases(before), kept)
    ensures Releases(Select(before, kept, digests, false) + (if IsDoomed(t, kept, digests) then [] else [t]))
            == Filtered(Releases(before + [t]), kept)
  {
    var survivors := Select(before, kept, digests, false);
    assert survivors + [] == survivors;
    OneMoreRelease(before, t, Release("", []));
    OneMoreRelease(survivors, t, Release("", []));
    ReleaseOrProtected(t, kept, digests);
    AddThenKeep(Releases(before), ReleaseOf(t.name), kept);
    assert AddRelease(Releases(survivors), None) == Releases(survivors);
    hide ReleaseOf, Select, IsDoomed, Filtered, AddRelease, Releases;
  }

  /** A release tag goes exactly when its release is not kept; no protected name is a release. */
  lemma ReleaseOrProtected(t: Tag, kept: set<string>, digests: set<string>)
    ensures ReleaseOf(t.name).Some? ==> (IsDoomed(t, kept, digests) <==> ReleaseOf(t.name).value.number !in kept)
  {
    if IsProtected(t.name) {
      ProtectedIsNoRelease(t.name);
    }
  }

  lemma ProtectedIsNoRelease(name: string)
    requires IsProtected(name)
    ensures ReleaseOf(name).None?
  {
    assert WithoutV(name) == name;
    if name == "latest-lean" { assert name[6..] == LEAN && name[..6] == "latest"; }
    assert WithoutLean(name) == "latest";
    SplitWithout("latest", '.');
  }

  lemma {:induction false} SelectNothing(tags: seq<Tag>, kept: set<string>, digests: set<string>)
    requires forall t :: t in tags ==> !IsDoomed(t, kept, digests)
    ensures Select(tags, kept, digests, true) == []
  {
    if tags != [] {
      hide IsDoomed;
      assert forall t :: t in tags[1..] ==> t in tags;
      assert tags[0] in tags;
      SelectNothing(tags[1..], kept, digests);
    }
  }

  lemma DigestsStay(tags: seq<Tag>, kept: set<string>, digests: set<string>)
    ensures KeptDigests(Select(tags, kept, digests, false), kept) == KeptDigests(tags, kept)
  {
    var left := Select(tags, kept, digests, false);
    SelectExactly(tags, kept, digests, false);
    forall t | t in tags && Anchors(t, kept) ensures t in left {
      ReleaseOrProtected(t, kept, digests);
      hide ReleaseOf, IsCommit;
    }
    hide IsDoomed, Anchors, Select;
    forall d | d in KeptDigests(left, kept) ensures d in KeptDigests(tags, kept) {
      var i :| 0 <= i < |left| && Anchors(left[i], kept) && left[i].digest == Some(d) && d != "";
      assert left[i] in tags;
      var j :| 0 <= j < |tags| && tags[j] == left[i];
    }
    forall d | d in KeptDigests(tags, kept) ensures d in KeptDigests(left, kept) {
      var i :| 0 <= i < |tags| && Anchors(tags[i], kept) && tags[i].digest == Some(d) && d != "";
      assert tags[i] in left;
      var j :| 0 <= j < |left| && left[j] == tags[i];
    }
  }

  lemma ConsInOrder(first: Release, rest: seq<Release>)
    requires |first.parts| == 3 && Proper(rest) && NewestFirst(rest)
    requires forall r :: r in rest ==> |r.parts| == 3 && NoOlder(first, r)
    ensures Proper([first] + rest) && NewestFirst([first] + rest)
  {
    hide NoOlder;
  }

  lemma HeadLeads(sorted: seq<Release>, r: Release)
    requires Proper(sorted) && NewestFirst(sorted) && sorted != [] && r in sorted[1..]
    ensures |r.parts| == 3 && NoOlder(sorted[0], r)
  {
    hide NoOlder;
    var k :| 0 <= k < |sorted[1..]| && sorted[1..][k] == r;
    assert sorted[k + 1] == r;
  }

  lemma TailInOrder(sorted: seq<Release>)
    requires Proper(sorted) && NewestFirst(sorted) && sorted != []
    ensures Proper(sorted[1..]) && NewestFirst(sorted[1..])
  {
    hide NoOlder;
  }

  lemma {:induction false} FilteredKeepsOrder(sorted: seq<Release>, kept: set<string>)
    requires Proper(sorted) && NewestFirst(sorted)
    ensures Proper(Filtered(sorted, kept)) && NewestFirst(Filtered(sorted, kept))
  {
    if sorted != [] {
      var first, tail := sorted[0], sorted[1..];
      assert sorted == [first] + tail;
      FilteredCons(first, tail, kept);
      TailInOrder(sorted);
      FilteredKeepsOrder(tail, kept);
      FilteredIsAmong(tail, kept);
      hide Filtered, NoOlder, NewestFirst;
      forall r | r in Filtered(tail, kept) ensures |r.parts| == 3 && NoOlder(first, r) { HeadLeads(sorted, r); }
      ConsInOrder(first, Filtered(tail, kept));
    }
  }

  /** A release that may stand before all of a list may stand before all that is kept of it. */
  lemma {:induction false} InsertInFront(r: Release, sorted: seq<Release>, kept: set<string>)
    requires |r.parts| == 3 && Proper(sorted) && NewestFirst(sorted) && (sorted == [] || NoOlder(r, sorted[0]))
    ensures Proper(Filtered(sorted, kept)) && Insert(r, Filtered(sorted, kept)) == [r] + Filtered(sorted, kept)
  {
    FilteredKeepsOrder(sorted, kept);
    FilteredIsAmong(sorted, kept);
    var f := Filtered(sorted, kept);
    hide Filtered;
    if f != [] {
      assert f[0] in sorted;
      var k :| 0 <= k < |sorted| && sorted[k] == f[0];
      assert NoOlder(r, f[0]);
    }
  }

  /** The sort is stable, so dropping before it and after it come to the same. */
  lemma {:induction false} InsertDropped(r: Release, sorted: seq<Release>, kept: set<string>)
    requires |r.parts| == 3 && Proper(sorted) && NewestFirst(sorted)
    ensures Proper(Filtered(sorted, kept))
    ensures Filtered(Insert(r, sorted), kept) == if r.number in kept then Insert(r, Filtered(sorted, kept)) else Filtered(sorted, kept)
  {
    FilteredKeepsOrder(sorted, kept);
    hide Filtered, NewestFirst;
    if sorted == [] || NoOlder(r, sorted[0]) {
      InsertInFront(r, sorted, kept);
      FilteredCons(r, sorted, kept);
    } else {
      var first, tail := sorted[0], sorted[1..];
      assert sorted == [first] + tail;
      TailInOrder(sorted);
      InsertDropped(r, tail, kept);
      InsertBehind(r, first, tail);
      FilteredCons(first, Insert(r, tail), kept);
      FilteredCons(first, tail, kept);
      InsertBehind(r, first, Filtered(tail, kept));
      hide Insert;
    }
  }

  lemma InsertBehind(r: Release, first: Release, rest: seq<Release>)
    requires |r.parts| == 3 && |first.parts| == 3 && Proper(rest) && !NoOlder(r, first)
    ensures Insert(r, [first] + rest) == [first] + Insert(r, rest)
  {
    assert ([first] + rest)[1..] == rest;
  }

  lemma SortCons(r: Release, rest: seq<Release>)
    requires |r.parts| == 3 && Proper(rest)
    ensures Proper([r] + rest) && SortNewestFirst([r] + rest) == Insert(r, SortNewestFirst(rest))
  {
    assert ([r] + rest)[1..] == rest;
  }

  lemma FilteredProper(releases: seq<Release>, kept: set<string>)
    requires Proper(releases)
    ensures Proper(Filtered(releases, kept))
  {
    FilteredIsAmong(releases, kept);
    var f := Filtered(releases, kept);
    forall i | 0 <= i < |f| ensures |f[i].parts| == 3 { assert f[i] in releases; }
  }

  lemma {:induction false} SortDropped(releases: seq<Release>, kept: set<string>)
    requires Proper(releases)
    ensures Proper(Filtered(releases, kept))
    ensures SortNewestFirst(Filtered(releases, kept)) == Filtered(SortNewestFirst(releases), kept)
  {
    FilteredProper(releases, kept);
    if releases != [] {
      var r, rest := releases[0], releases[1..];
      assert releases == [r] + rest;
      FilteredProper(rest, kept);
      FilteredCons(r, rest, kept);
      SortDropped(rest, kept);
      SortSorts(rest);
      SortCons(r, rest);
      SortCons(r, Filtered(rest, kept));
      hide Filtered, SortNewestFirst, NewestFirst;
      InsertDropped(r, SortNewestFirst(rest), kept);
    }
  }

  /** Where the front of a list is all kept, dropping the rest leaves the front. */
  lemma {:induction false} FrontStays(releases: seq<Release>, kept: set<string>, n: nat)
    requires n <= |releases| && forall i :: 0 <= i < n ==> releases[i].number in kept
    ensures n <= |Filtered(releases, kept)| && Filtered(releases, kept)[..n] == releases[..n]
  {
    var front, back := releases[..n], releases[n..];
    assert releases == front + back;
    FilteredJoins(front, back, kept);
    AllKept(front, kept);
  }

  lemma {:induction false} AllKept(releases: seq<Release>, kept: set<string>)
    requires forall i :: 0 <= i < |releases| ==> releases[i].number in kept
    ensures Filtered(releases, kept) == releases
  {
    if releases != [] { AllKept(releases[1..], kept); }
  }

  /** Distinct numbers: a number is one release, and each release is found once. */
  ghost predicate DistinctNumbers(releases: seq<Release>) {
    forall i, j :: 0 <= i < j < |releases| ==> releases[i].number != releases[j].number
  }

  lemma SameNumberSameRelease(a: string, b: string)
    ensures ReleaseOf(a).Some? && ReleaseOf(b).Some? && ReleaseOf(a).value.number == ReleaseOf(b).value.number
            ==> ReleaseOf(a) == ReleaseOf(b)
  {
  }

  lemma {:induction false} ReleasesDistinct(tags: seq<Tag>)
    ensures DistinctNumbers(Releases(tags))
  {
    if tags != [] {
      var n := |tags| - 1;
      var found := Releases(tags[..n]);
      ReleasesDistinct(tags[..n]);
      hide ReleaseOf;
      forall i | 0 <= i < |found| && ReleaseOf(tags[n].name).Some? && found[i] != ReleaseOf(tags[n].name).value
        ensures found[i].number != ReleaseOf(tags[n].name).value.number
      {
        ReleasesExactly(tags[..n], found[i]);
        var k :| 0 <= k < |tags[..n]| && ReleaseOf(tags[..n][k].name) == Some(found[i]);
        SameNumberSameRelease(tags[..n][k].name, tags[n].name);
      }
    }
  }

  lemma {:induction false} InsertDistinct(r: Release, sorted: seq<Release>)
    requires |r.parts| == 3 && Proper(sorted) && DistinctNumbers(sorted)
    requires forall i :: 0 <= i < |sorted| ==> sorted[i].number != r.number
    ensures DistinctNumbers(Insert(r, sorted))
  {
    hide NoOlder;
    if sorted != [] && !NoOlder(r, sorted[0]) {
      var rest := Insert(r, sorted[1..]);
      InsertDistinct(r, sorted[1..]);
      forall i | 0 <= i < |rest| ensures rest[i].number != sorted[0].number {
        assert rest[i] in multiset(rest);
        assert rest[i] == r || rest[i] in sorted[1..];
      }
    }
  }

  lemma {:induction false} SortDistinct(releases: seq<Release>)
    requires Proper(releases) && DistinctNumbers(releases)
    ensures DistinctNumbers(SortNewestFirst(releases))
  {
    if releases != [] {
      var rest := SortNewestFirst(releases[1..]);
      SortDistinct(releases[1..]);
      forall i | 0 <= i < |rest| ensures rest[i].number != releases[0].number {
        assert rest[i] in multiset(rest);
        assert rest[i] in releases[1..];
      }
      InsertDistinct(releases[0], rest);
    }
  }

  /** The survivors order as before, without what went. */
  lemma SurvivorsInOrder(tags: seq<Tag>, keep: int, current: Option<string>)
    ensures Ordered(Survivors(tags, keep, current)) ==
            if |Ordered(tags)| <= keep then Ordered(tags) else Filtered(Ordered(tags), Kept(tags, keep, current))
  {
    var kept := Kept(tags, keep, current);
    SelectKeepsReleases(tags, kept, KeptDigests(tags, kept));
    SortDropped(Releases(tags), kept);
  }

  /** The newest releases stand first among the survivors. */
  lemma NewestLead(tags: seq<Tag>, keep: int, current: Option<string>)
    requires |Ordered(tags)| > keep
    ensures var left, n := Survivors(tags, keep, current), SliceEnd(|Ordered(tags)|, keep);
            n <= |Ordered(left)| && Ordered(left)[..n] == Newest(tags, keep)
  {
    var kept, ordered := Kept(tags, keep, current), Ordered(tags);
    var n := SliceEnd(|ordered|, keep);
    SurvivorsInOrder(tags, keep, current);
    hide Survivors, Ordered, Filtered;
    forall i | 0 <= i < n ensures ordered[i].number in kept {
      assert ordered[..n][i] in Newest(tags, keep);
    }
    FrontStays(ordered, kept, n);
  }

  /** With a count that is not negative, the survivors keep the same releases as the newest. */
  lemma SurvivorsKeepTheSame(tags: seq<Tag>, keep: int, current: Option<string>)
    requires 0 <= keep < |Ordered(tags)|
    ensures var left := Survivors(tags, keep, current);
            Newest(left, keep) == Newest(tags, keep) && Kept(left, keep, current) == Kept(tags, keep, current)
  {
    NewestLead(tags, keep, current);
    hide Survivors, Ordered;
  }

  /** The releases a second decision would leave off, of those that survived the first, are the current version at most. */
  ghost predicate LeavesOffOnlyCurrent(left: seq<Tag>, keep: int, current: Option<string>) {
    forall i :: SliceEnd(|Ordered(left)|, keep) <= i < |Ordered(left)| ==> current == Some(Ordered(left)[i].number)
  }

  ghost predicate NumbersIn(tags: seq<Tag>, numbers: set<string>) {
    forall t :: t in tags && ReleaseOf(t.name).Some? ==> ReleaseOf(t.name).value.number in numbers
  }

  /** Where every release that is left keeps its number, the same tags anchor the same digests and nothing goes. */
  lemma NothingGoes(tags: seq<Tag>, kept: set<string>, again: set<string>)
    ensures var left := Left(tags, kept);
            NumbersIn(left, again) ==> Select(left, again, KeptDigests(left, again), true) == []
  {
    var left := Left(tags, kept);
    if NumbersIn(left, again) {
      var digests, digests' := KeptDigests(tags, kept), KeptDigests(left, again);
      DigestsStay(tags, kept, digests);
      SelectExactly(tags, kept, digests, false);
      hide Select, ReleaseOf;
      forall d | d in digests ensures d in digests' {
        var i :| 0 <= i < |left| && Anchors(left[i], kept) && left[i].digest == Some(d) && d != "";
        assert left[i] in left;
        assert Anchors(left[i], again);
      }
      hide IsProtected, IsCommit, KeptDigests, Left;
      forall t | t in left ensures !IsDoomed(t, again, digests') {
        assert !IsDoomed(t, kept, digests);
      }
      SelectNothing(left, again, digests');
    }
  }

  lemma LeftNumbersKept(tags: seq<Tag>, kept: set<string>)
    ensures NumbersIn(Left(tags, kept), kept)
  {
    SelectExactly(tags, kept, KeptDigests(tags, kept), false);
    hide Select, KeptDigests, ReleaseOf, IsDoomed;
    forall t | t in Left(tags, kept) && ReleaseOf(t.name).Some? ensures ReleaseOf(t.name).value.number in kept {
      ReleaseOrProtected(t, kept, KeptDigests(tags, kept));
    }
  }

  /** A number is kept exactly when the count keeps its release or it is the current version's. */
  lemma KeptExactly(tags: seq<Tag>, keep: int, current: Option<string>, i: nat)
    requires i < |Ordered(tags)| && Ordered(tags)[i].number != ""
    ensures Ordered(tags)[i].number in Kept(tags, keep, current) <==>
            i < SliceEnd(|Ordered(tags)|, keep) || current == Some(Ordered(tags)[i].number)
  {
    var ordered := Ordered(tags);
    var n := SliceEnd(|ordered|, keep);
    ReleasesDistinct(tags);
    SortDistinct(Releases(tags));
    hide Ordered, ReleaseOf;
    if i < n { assert ordered[..n][i] in Newest(tags, keep); }
    forall r | r in Newest(tags, keep) && r.number == ordered[i].number ensures i < n {
      var j :| 0 <= j < n && ordered[j] == r;
    }
  }

  lemma NumberIsNotEmpty(tag: string)
    requires ReleaseOf(tag).Some?
    ensures ReleaseOf(tag).value.number != ""
  {
    SplitWithout("", '.');
  }

  lemma SecondDecision(left: seq<Tag>, keep: int, current: Option<string>, t: Tag)
    requires t in left && ReleaseOf(t.name).Some?
    ensures LeavesOffOnlyCurrent(left, keep, current) ==> ReleaseOf(t.name).value.number in Kept(left, keep, current)
  {
    var r := ReleaseOf(t.name).value;
    NumberIsNotEmpty(t.name);
    InOrdered(left, r);
    hide ReleaseOf, Ordered, Kept;
    var k :| 0 <= k < |left| && left[k] == t;
    assert Listed(left, r);
    var i :| 0 <= i < |Ordered(left)| && Ordered(left)[i] == r;
    KeptExactly(left, keep, current, i);
  }

  lemma LeftOffGoes(left: seq<Tag>, keep: int, current: Option<string>)
    requires keep < 0 && !LeavesOffOnlyCurrent(left, keep, current)
    ensures Doomed(left, keep, current) != []
  {
    var i :| SliceEnd(|Ordered(left)|, keep) <= i < |Ordered(left)| && current != Some(Ordered(left)[i].number);
    var r := Ordered(left)[i];
    InOrdered(left, r);
    var k :| 0 <= k < |left| && ReleaseOf(left[k].name) == Some(r);
    NumberIsNotEmpty(left[k].name);
    KeptExactly(left, keep, current, i);
    var kept := Kept(left, keep, current);
    ReleaseOrProtected(left[k], kept, KeptDigests(left, kept));
    SelectExactly(left, kept, KeptDigests(left, kept), true);
    hide ReleaseOf, IsDoomed, Kept, KeptDigests, Ordered;
    assert left[k] in Doomed(left, keep, current);
  }

  // ----- The condition on the listing, the count and the version

  /**
   For a negative count: nothing is kept by it; or it leaves off one release and the current version is that
   one or the last it keeps; or it keeps one release, and that is the current version.
   */
  ghost predicate SettledAtOnce(tags: seq<Tag>, keep: int, current: Option<string>) {
    var ordered := Ordered(tags);
    var m := SliceEnd(|ordered|, keep);
    || m == 0
    || (keep == -1 && exists i :: m - 1 <= i < |ordered| && current == Some(ordered[i].number))
    || (m == 1 && current == Some(ordered[0].number))
  }

  lemma {:induction false} NoneKept(releases: seq<Release>, kept: set<string>)
    requires forall i :: 0 <= i < |releases| ==> releases[i].number !in kept
    ensures Filtered(releases, kept) == []
  {
    if releases != [] { NoneKept(releases[1..], kept); }
  }

  lemma OneKept(releases: seq<Release>, kept: set<string>, k: nat)
    requires k < |releases| && forall i :: 0 <= i < |releases| ==> (releases[i].number in kept <==> i == k)
    ensures Filtered(releases, kept) == [releases[k]]
  {
    hide Filtered;
    var front, r, back := releases[..k], releases[k], releases[k + 1..];
    assert releases == front + ([r] + back);
    FilteredJoins(front, [r] + back, kept);
    FilteredCons(r, back, kept);
    NoneKept(front, kept);
    NoneKept(back, kept);
    assert [] + ([r] + []) == [r];
  }

  /** A listing whose first `m` releases are kept: of the others one, */
  lemma OneBehind(ordered: seq<Release>, m: nat, kept: set<string>, k: nat)
    requires m <= k < |ordered|
    requires forall i :: 0 <= i < |ordered| ==> (ordered[i].number in kept <==> i < m || i == k)
    ensures Filtered(ordered, kept) == ordered[..m] + [ordered[k]]
  {
    hide Filtered;
    assert ordered == ordered[..m] + ordered[m..];
    FilteredJoins(ordered[..m], ordered[m..], kept);
    AllKept(ordered[..m], kept);
    assert ordered[m..][k - m] == ordered[k];
    OneKept(ordered[m..], kept, k - m);
  }

  /** or none. */
  lemma NoneBehind(ordered: seq<Release>, m: nat, kept: set<string>)
    requires m <= |ordered|
    requires forall i :: 0 <= i < |ordered| ==> (ordered[i].number in kept <==> i < m)
    ensures Filtered(ordered, kept) == ordered[..m]
  {
    hide Filtered;
    assert ordered == ordered[..m] + ordered[m..];
    FilteredJoins(ordered[..m], ordered[m..], kept);
    AllKept(ordered[..m], kept);
    NoneKept(ordered[m..], kept);
    assert ordered[..m] + [] == ordered[..m];
  }

  /** What of an ordered listing survives: the newest, and the current version if it is further down. */
  lemma SurvivingReleases(ordered: seq<Release>, m: nat, kept: set<string>, current: Option<string>)
    requires m <= |ordered| && DistinctNumbers(ordered)
    requires forall i :: 0 <= i < |ordered| ==> (ordered[i].number in kept <==> i < m || current == Some(ordered[i].number))
    ensures forall k :: m <= k < |ordered| && current == Some(ordered[k].number) ==> Filtered(ordered, kept) == ordered[..m] + [ordered[k]]
    ensures (forall k :: m <= k < |ordered| ==> current != Some(ordered[k].number)) ==> Filtered(ordered, kept) == ordered[..m]
  {
    hide Filtered;
    forall k | m <= k < |ordered| && current == Some(ordered[k].number)
      ensures Filtered(ordered, kept) == ordered[..m] + [ordered[k]]
    {
      OneBehind(ordered, m, kept, k);
    }
    if forall k :: m <= k < |ordered| ==> current != Some(ordered[k].number) { NoneBehind(ordered, m, kept); }
  }

  /** Of the releases that survived, a negative count leaves off the current version at most, exactly in those cases. */
  lemma LeftOffOnInputs(ordered: seq<Release>, keep: int, left: seq<Release>, current: Option<string>)
    requires keep < 0 && DistinctNumbers(ordered)
    requires var m := SliceEnd(|ordered|, keep);
             && (forall k :: m <= k < |ordered| && current == Some(ordered[k].number) ==> left == ordered[..m] + [ordered[k]])
             && ((forall k :: m <= k < |ordered| ==> current != Some(ordered[k].number)) ==> left == ordered[..m])
    ensures var m := SliceEnd(|ordered|, keep);
            (forall i :: SliceEnd(|left|, keep) <= i < |left| ==> current == Some(left[i].number)) <==>
            || m == 0
            || (keep == -1 && exists i :: m - 1 <= i < |ordered| && current == Some(ordered[i].number))
            || (m == 1 && current == Some(ordered[0].number))
  {
    var m := SliceEnd(|ordered|, keep);
    if k :| m <= k < |ordered| && current == Some(ordered[k].number) {
      assert left[m] == ordered[k];
      if m > 0 && keep < -1 { assert left[m - 1] == ordered[m - 1] && SliceEnd(|left|, keep) <= m - 1; }
    } else if m > 0 {
      assert left[m - 1] == ordered[m - 1] && SliceEnd(|left|, keep) <= m - 1;
      if m > 1 && keep < -1 { assert left[m - 2] == ordered[m - 2] && SliceEnd(|left|, keep) <= m - 2; }
    }
  }

  lemma SettledExactly(tags: seq<Tag>, keep: int, current: Option<string>)
    requires keep < 0
    ensures LeavesOffOnlyCurrent(Survivors(tags, keep, current), keep, current) <==> SettledAtOnce(tags, keep, current)
  {
    var ordered, kept := Ordered(tags), Kept(tags, keep, current);
    OrderedDistinct(tags);
    SurvivorsInOrder(tags, keep, current);
    hide Ordered, Kept, Survivors, Filtered;
    forall i | 0 <= i < |ordered|
      ensures ordered[i].number in kept <==> i < SliceEnd(|ordered|, keep) || current == Some(ordered[i].number)
    {
      OrderedNumberIsNotEmpty(tags, i);
      KeptExactly(tags, keep, current, i);
    }
    SurvivingReleases(ordered, SliceEnd(|ordered|, keep), kept, current);
    LeftOffOnInputs(ordered, keep, Ordered(Survivors(tags, keep, current)), current);
  }

  lemma OrderedDistinct(tags: seq<Tag>)
    ensures DistinctNumbers(Ordered(tags))
  {
    ReleasesDistinct(tags);
    SortDistinct(Releases(tags));
  }

  lemma OrderedNumberIsNotEmpty(tags: seq<Tag>, i: nat)
    requires i < |Ordered(tags)|
    ensures Ordered(tags)[i].number != ""
  {
    InOrdered(tags, Ordered(tags)[i]);
    hide Ordered, ReleaseOf;
    var k :| 0 <= k < |tags| && ReleaseOf(tags[k].name) == Some(Ordered(tags)[i]);
    NumberIsNotEmpty(tags[k].name);
  }

  /**
   Deciding again on what survived, with the same count and version, removes nothing if the count is not
   negative. With a negative one, which `slice` takes from the end, it removes nothing exactly in the cases of
   `SettledAtOnce`.
   */
  lemma DecidingAgainRemovesNothing(tags: seq<Tag>, keep: int, current: Option<string>)
    ensures Doomed(Survivors(tags, keep, current), keep, current) == [] <==> keep >= 0 || SettledAtOnce(tags, keep, current)
  {
    DecidingAgain(tags, keep, current);
    if keep < 0 { SettledExactly(tags, keep, current); }
    hide Doomed, Survivors, LeavesOffOnlyCurrent, SettledAtOnce;
  }

  lemma DecidingAgain(tags: seq<Tag>, keep: int, current: Option<string>)
    ensures var left := Survivors(tags, keep, current);
            Doomed(left, keep, current) == [] <==> keep >= 0 || LeavesOffOnlyCurrent(left, keep, current)
  {
    var left := Survivors(tags, keep, current);
    if |Ordered(tags)| <= keep {
    } else if keep < 0 && !LeavesOffOnlyCurrent(left, keep, current) {
      LeftOffGoes(left, keep, current);
    } else {
      var kept, again := Kept(tags, keep, current), Kept(left, keep, current);
      assert left == Left(tags, kept);
      hide Survivors, Left, Kept, ReleaseOf, Ordered;
      if keep >= 0 {
        SurvivorsKeepTheSame(tags, keep, current);
        LeftNumbersKept(tags, kept);
      } else {
        forall t | t in left && ReleaseOf(t.name).Some? ensures ReleaseOf(t.name).value.number in again {
          SecondDecision(left, keep, current, t);
        }
      }
      NothingGoes(tags, kept, again);
    }
  }

  /** So with a negative count and no version named, every decision takes more, as long as more are listed than it leaves off. */
  lemma NegativeCountGoesOn(tags: seq<Tag>, keep: int)
    requires keep < 0 && |Ordered(tags)| > -keep
    ensures Doomed(Survivors(tags, keep, None), keep, None) != []
  {
    hide Ordered, Doomed, Survivors;
    DecidingAgainRemovesNothing(tags, keep, None);
  }

  lemma TwoOrdered(a: Tag, b: Tag)
    requires ReleaseOf(a.name).Some? && ReleaseOf(b.name).Some? && ReleaseOf(a.name) != ReleaseOf(b.name)
    ensures |Ordered([a, b])| == 2
  {
    hide ReleaseOf;
    assert [a, b][..1] == [a] && [a][..0] == [];
    assert Releases([a]) == AddRelease(Releases([]), ReleaseOf(a.name));
    assert Releases([a, b]) == [ReleaseOf(a.name).value, ReleaseOf(b.name).value];
    assert |Ordered([a, b])| == |multiset(Ordered([a, b]))| == |multiset(Releases([a, b]))|;
  }

  function FirstOf(major: char): string { [major] + ".0.0" }

  lemma SmallRelease(major: char)
    requires '0' <= major <= '9'
    ensures ReleaseOf(FirstOf(major)).Some? && ReleaseOf(FirstOf(major)).value.number == FirstOf(major)
  {
    PlainNumber([major], "0", "0");
    assert [major] + "." + "0" + "." + "0" == FirstOf(major) && Digits("0");
    hide ReleaseOf;
  }

  /** Two releases, 2.0.0 and 1.0.0, and a count of minus one: the first decision takes one, and a second would take the other. */
  lemma TwoReleasesBothGo()
    ensures Doomed(Survivors([Tag(FirstOf('2'), None), Tag(FirstOf('1'), None)], -1, None), -1, None) != []
  {
    SmallRelease('2');
    SmallRelease('1');
    assert FirstOf('2')[0] != FirstOf('1')[0];
    hide ReleaseOf, Ordered, Doomed, Survivors, FirstOf;
    TwoOrdered(Tag(FirstOf('2'), None), Tag(FirstOf('1'), None));
    NegativeCountGoesOn([Tag(FirstOf('2'), None), Tag(FirstOf('1'), None)], -1);
  }
}
