/** The names the archive cache writes, and the only ones it may take away. */
module CacheNames {
  import opened Common
  import opened Text

  predicate IsDigit(c: char) { '0' <= c <= '9' }

  /** The text after the digits it begins with, when there are some. */
  function AfterDigits(s: string): Option<string> {
    if s == "" || !IsDigit(s[0]) then None
    else match AfterDigits(s[1..]) case Some(rest) => Some(rest) case None => Some(s[1..])
  }

  function AfterHex(s: string): Option<string> {
    if s == "" || !IsHex(s[0]) then None
    else match AfterHex(s[1..]) case Some(rest) => Some(rest) case None => Some(s[1..])
  }

  /** What follows `v`, a number, a dash and a fingerprint. */
  function Suffix(name: string): Option<string> {
    if name == "" || name[0] != 'v' then None
    else
      match AfterDigits(name[1..])
      case None => None
      case Some(rest) => if rest == "" || rest[0] != '-' then None else AfterHex(rest[1..])
  }

  predicate IsTree(name: string) { Suffix(name) == Some(".tree") }

  predicate IsCached(name: string) { Suffix(name) == Some(".inner") || IsTree(name) }

  predicate IsTemporary(name: string) {
    Suffix(name).Some? && (StartsWith(Suffix(name).value, ".inner.tmp-") || StartsWith(Suffix(name).value, ".tree.tmp-"))
  }

  /** The names of folders, which are taken away entry by entry; the others are files. */
  predicate IsFolder(name: string) {
    IsTree(name) || (Suffix(name).Some? && StartsWith(Suffix(name).value, ".tree.tmp-"))
  }

  /** A copy in place and a copy being written are never named alike. */
  lemma CachedIsNotTemporary(name: string)
    ensures !(IsCached(name) && IsTemporary(name))
  {
  }

  lemma {:induction false} DigitsStop(s: string, rest: string)
    requires s != "" && (forall i :: 0 <= i < |s| ==> IsDigit(s[i])) && (rest == "" || !IsDigit(rest[0]))
    ensures AfterDigits(s + rest) == Some(rest)
  {
    assert (s + rest)[1..] == s[1..] + rest;
    if |s| > 1 { DigitsStop(s[1..], rest); } else { assert s[1..] + rest == rest; }
  }

  lemma {:induction false} HexStops(s: string, rest: string)
    requires s != "" && (forall i :: 0 <= i < |s| ==> IsHex(s[i])) && (rest == "" || !IsHex(rest[0]))
    ensures AfterHex(s + rest) == Some(rest)
  {
    assert (s + rest)[1..] == s[1..] + rest;
    if |s| > 1 { HexStops(s[1..], rest); } else { assert s[1..] + rest == rest; }
  }

  /** The names this service composes are the ones its patterns know. */
  lemma ComposedNames(version: string, fingerprint: string, tag: string)
    requires version != "" && forall i :: 0 <= i < |version| ==> IsDigit(version[i])
    requires fingerprint != "" && forall i :: 0 <= i < |fingerprint| ==> IsHex(fingerprint[i])
    ensures IsCached("v" + (version + ("-" + (fingerprint + ".inner"))))
    ensures IsCached("v" + (version + ("-" + (fingerprint + ".tree"))))
    ensures IsTemporary("v" + (version + ("-" + (fingerprint + (".inner.tmp-" + tag)))))
    ensures IsTemporary("v" + (version + ("-" + (fingerprint + (".tree.tmp-" + tag)))))
  {
    SuffixOf(version, fingerprint, ".inner");
    SuffixOf(version, fingerprint, ".tree");
    SuffixOf(version, fingerprint, ".inner.tmp-" + tag);
    SuffixOf(version, fingerprint, ".tree.tmp-" + tag);
  }

  lemma SuffixOf(version: string, fingerprint: string, suffix: string)
    requires version != "" && forall i :: 0 <= i < |version| ==> IsDigit(version[i])
    requires fingerprint != "" && forall i :: 0 <= i < |fingerprint| ==> IsHex(fingerprint[i])
    requires suffix != "" && suffix[0] == '.'
    ensures Suffix("v" + (version + ("-" + (fingerprint + suffix)))) == Some(suffix)
  {
    var afterDash := fingerprint + suffix;
    var name := "v" + (version + ("-" + afterDash));
    assert name[1..] == version + ("-" + afterDash);
    DigitsStop(version, "-" + afterDash);
    assert ("-" + afterDash)[1..] == afterDash;
    HexStops(fingerprint, suffix);
  }

  // ----- The patterns

  ghost predicate AllDigits(s: string) { s != "" && forall i :: 0 <= i < |s| ==> '0' <= s[i] <= '9' }

  ghost predicate AllHex(s: string) { s != "" && forall i :: 0 <= i < |s| ==> '0' <= s[i] <= '9' || 'a' <= s[i] <= 'f' }

  /** The name begins as this service's names do: "v", the version, a dash and a fingerprint. */
  ghost predicate Begins(name: string, version: string, fingerprint: string, rest: string) {
    AllDigits(version) && AllHex(fingerprint) && name == "v" + (version + ("-" + (fingerprint + rest)))
  }

  lemma {:induction false} DigitsTaken(s: string)
    ensures match AfterDigits(s)
            case None => s == "" || !('0' <= s[0] <= '9')
            case Some(rest) => |rest| < |s| && AllDigits(s[..|s| - |rest|]) && s[|s| - |rest|..] == rest
  {
    if s != "" && IsDigit(s[0]) {
      DigitsTaken(s[1..]);
      if AfterDigits(s[1..]).Some? {
        var rest := AfterDigits(s[1..]).value;
        assert s[..|s| - |rest|] == [s[0]] + s[1..][..|s| - 1 - |rest|];
      }
    }
  }

  lemma {:induction false} HexTaken(s: string)
    ensures match AfterHex(s)
            case None => s == "" || !('0' <= s[0] <= '9' || 'a' <= s[0] <= 'f')
            case Some(rest) => |rest| < |s| && AllHex(s[..|s| - |rest|]) && s[|s| - |rest|..] == rest
  {
    if s != "" && IsHex(s[0]) {
      HexTaken(s[1..]);
      if AfterHex(s[1..]).Some? {
        var rest := AfterHex(s[1..]).value;
        assert s[..|s| - |rest|] == [s[0]] + s[1..][..|s| - 1 - |rest|];
      }
    }
  }

  lemma ComesApart(name: string) returns (version: string, fingerprint: string)
    requires Suffix(name).Some?
    ensures Begins(name, version, fingerprint, Suffix(name).value)
  {
    DigitsTaken(name[1..]);
    var dashed := AfterDigits(name[1..]).value;
    HexTaken(dashed[1..]);
    var rest := Suffix(name).value;
    version, fingerprint := name[1..][..|name| - 1 - |dashed|], dashed[1..][..|dashed| - 1 - |rest|];
    hide AfterDigits, AfterHex, AllDigits, AllHex;
    assert dashed == "-" + (fingerprint + rest);
    assert name == "v" + (version + dashed);
  }

  lemma PutTogether(name: string, version: string, fingerprint: string, rest: string)
    requires rest != "" && rest[0] == '.' && Begins(name, version, fingerprint, rest)
    ensures Suffix(name) == Some(rest)
  {
    SuffixOf(version, fingerprint, rest);
    hide Suffix;
  }

  /** What follows the fingerprint is found exactly for names that begin like that, when it begins with a dot. */
  lemma SuffixExactly(name: string, rest: string)
    requires rest != "" && rest[0] == '.'
    ensures Suffix(name) == Some(rest) <==> exists version, fingerprint :: Begins(name, version, fingerprint, rest)
  {
    hide Suffix, Begins;
    if Suffix(name) == Some(rest) {
      var version, fingerprint := ComesApart(name);
    }
    forall version, fingerprint | Begins(name, version, fingerprint, rest) ensures Suffix(name) == Some(rest) {
      PutTogether(name, version, fingerprint, rest);
    }
  }

  /** What a pattern that ends openly finds: some text behind the suffix. */
  lemma OpenSuffixExactly(name: string, tail: string)
    requires tail != "" && tail[0] == '.'
    ensures Suffix(name).Some? && StartsWith(Suffix(name).value, tail) <==>
            exists version, fingerprint, more :: Begins(name, version, fingerprint, tail + more)
  {
    if Suffix(name).Some? && StartsWith(Suffix(name).value, tail) {
      var rest := Suffix(name).value;
      SuffixExactly(name, rest);
      hide Suffix, Begins;
      var version, fingerprint :| Begins(name, version, fingerprint, rest);
      assert rest == tail + rest[|tail|..];
    }
    forall version, fingerprint, more | Begins(name, version, fingerprint, tail + more)
      ensures Suffix(name).Some? && StartsWith(Suffix(name).value, tail)
    {
      SuffixExactly(name, tail + more);
      hide Suffix, Begins;
    }
  }

  /** The names of cached copies, of temporaries and of folders, letter by letter. */
  lemma NamesExactly(name: string)
    ensures IsTree(name) <==> exists version, fingerprint :: Begins(name, version, fingerprint, ".tree")
    ensures IsCached(name) <==>
            (exists version, fingerprint :: Begins(name, version, fingerprint, ".inner"))
            || exists version, fingerprint :: Begins(name, version, fingerprint, ".tree")
    ensures IsTemporary(name) <==>
            (exists version, fingerprint, more :: Begins(name, version, fingerprint, ".inner.tmp-" + more))
            || exists version, fingerprint, more :: Begins(name, version, fingerprint, ".tree.tmp-" + more)
    ensures IsFolder(name) <==>
            (exists version, fingerprint :: Begins(name, version, fingerprint, ".tree"))
            || exists version, fingerprint, more :: Begins(name, version, fingerprint, ".tree.tmp-" + more)
  {
    SuffixExactly(name, ".inner");
    SuffixExactly(name, ".tree");
    OpenSuffixExactly(name, ".inner.tmp-");
    OpenSuffixExactly(name, ".tree.tmp-");
    hide Suffix, Begins, StartsWith;
  }
}
