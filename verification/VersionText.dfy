/**
 The version mentions of a page: finding the stale ones and rewriting them. A mention is three numbers
 between backticks, with an optional "-lean"; no backtick can stand inside one, so the pattern looks no
 further than the next backtick.
 */
module VersionText {
  import opened Common
  import opened Text

  /** Three numbers separated by dots. */
  predicate IsTriple(s: string) {
    var parts := Split(s, '.');
    |parts| == 3 && Digits(parts[0]) && Digits(parts[1]) && Digits(parts[2])
  }

  const LEAN := "-lean"

  datatype Segment = Plain(c: char) | Mention(version: string, lean: bool)

  /** What stands between two backticks, if it is a mention. */
  function ReadBody(body: string): Option<Segment> {
    if IsTriple(body) then Some(Mention(body, false))
    else if |body| >= 5 && body[|body| - 5..] == LEAN && IsTriple(body[..|body| - 5]) then Some(Mention(body[..|body| - 5], true))
    else None
  }

  function FirstTick(s: string): (k: int)
    ensures -1 <= k < |s|
    ensures k >= 0 ==> s[k] == '`' && '`' !in s[..k]
    ensures k < 0 <==> '`' !in s
  {
    if s == "" then -1
    else if s[0] == '`' then 0
    else
      var k := FirstTick(s[1..]);
      assert s == [s[0]] + s[1..];
      if k < 0 then -1 else (assert s[..k + 1] == [s[0]] + s[1..][..k]; k + 1)
  }

  /** The mention a text begins with. */
  function MentionAt(s: string): Option<Segment> {
    if s == "" || s[0] != '`' then None
    else
      var k := FirstTick(s[1..]);
      if k < 0 then None else ReadBody(s[1..][..k])
  }

  function Body(version: string, lean: bool): string { if lean then version + LEAN else version }

  function Render(m: Segment): string {
    match m
    case Plain(c) => [c]
    case Mention(version, lean) => "`" + Body(version, lean) + "`"
  }

  lemma MentionAtRenders(s: string)
    requires MentionAt(s).Some?
    ensures MentionAt(s).value.Mention? && IsTriple(MentionAt(s).value.version)
    ensures var m := Render(MentionAt(s).value); 2 <= |m| <= |s| && s[..|m|] == m
  {
    var k := FirstTick(s[1..]);
    ReadBodyRenders(s[1..][..k]);
    hide ReadBody, FirstTick, IsTriple, Body;
    assert s[..k + 2] == "`" + s[1..][..k] + "`";
  }

  lemma ReadBodyRenders(body: string)
    requires ReadBody(body).Some?
    ensures var m := ReadBody(body).value; m.Mention? && IsTriple(m.version) && Body(m.version, m.lean) == body
  {
    if ReadBody(body).value.lean { assert body == body[..|body| - 5] + body[|body| - 5..]; }
  }

  /** The text as its mentions and the characters outside them, found from the left and never overlapping. */
  function Segments(s: string): seq<Segment>
    decreases |s|
  {
    if s == "" then []
    else
      match MentionAt(s)
      case None => [Plain(s[0])] + Segments(s[1..])
      case Some(m) => MentionAtRenders(s); [m] + Segments(s[|Render(m)|..])
  }

  function Flatten(segments: seq<Segment>): string {
    if segments == [] then "" else Render(segments[0]) + Flatten(segments[1..])
  }

  function Replaced(m: Segment, version: string): Segment { if m.Mention? then m.(version := version) else m }

  function ReplaceAll(segments: seq<Segment>, version: string): seq<Segment> {
    if segments == [] then [] else [Replaced(segments[0], version)] + ReplaceAll(segments[1..], version)
  }

  /** Every mention replaced by the version given, with its suffix. */
  function Rewrite(s: string, version: string): string
    decreases |s|
  {
    if s == "" then ""
    else
      match MentionAt(s)
      case None => [s[0]] + Rewrite(s[1..], version)
      case Some(m) => MentionAtRenders(s); Render(Replaced(m, version)) + Rewrite(s[|Render(m)|..], version)
  }

  function StaleIn(segments: seq<Segment>, version: string): set<string> {
    if segments == [] then {}
    else (if segments[0].Mention? && segments[0].version != version then {segments[0].version} else {})
         + StaleIn(segments[1..], version)
  }

  function Stale(s: string, version: string): set<string> { StaleIn(Segments(s), version) }

  lemma StaleStep(s: string, version: string)
    requires s != ""
    ensures match MentionAt(s)
            case None => Stale(s, version) == Stale(s[1..], version)
            case Some(m) =>
              && m.Mention? && 2 <= |Render(m)| <= |s|
              && Stale(s, version) == (if m.version != version then {m.version} else {}) + Stale(s[|Render(m)|..], version)
  {
    if MentionAt(s).Some? { MentionAtRenders(s); }
  }

  /** The loop over all matches that collects the versions that are not the one given. */
  method StaleVersionMentions(text: string, version: string) returns (found: set<string>)
    ensures found == Stale(text, version)
  {
    found := {};
    var rest := text;
    while rest != ""
      invariant found + Stale(rest, version) == Stale(text, version)
      decreases |rest|
    {
      hide Stale, MentionAt, Render;
      StaleStep(rest, version);
      var m := MentionAt(rest);
      var n := if m.None? then 1 else |Render(m.value)|;
      if m.Some? && m.value.version != version { found := found + {m.value.version}; }
      rest := rest[n..];
    }
  }

  lemma {:induction false} FlattenSegments(s: string)
    ensures Flatten(Segments(s)) == s
    decreases |s|
  {
    if s != "" {
      match MentionAt(s)
      case None =>
        FlattenSegments(s[1..]);
        assert [s[0]] + s[1..] == s;
      case Some(m) =>
        MentionAtRenders(s);
        FlattenSegments(s[|Render(m)|..]);
        assert Render(m) + s[|Render(m)|..] == s;
    }
  }

  lemma {:induction false} RewriteIsReplaceAll(s: string, version: string)
    ensures Rewrite(s, version) == Flatten(ReplaceAll(Segments(s), version))
    decreases |s|
  {
    if s != "" {
      match MentionAt(s)
      case None => RewriteIsReplaceAll(s[1..], version);
      case Some(m) =>
        MentionAtRenders(s);
        RewriteIsReplaceAll(s[|Render(m)|..], version);
    }
  }

  // ----- A rewritten text is read as the same text with its versions replaced

  lemma {:induction false} FirstTickAt(a: string, b: string)
    requires '`' !in a
    ensures FirstTick(a + "`" + b) == |a|
  {
    var s := a + "`" + b;
    if a != "" {
      assert s[1..] == a[1..] + "`" + b;
      FirstTickAt(a[1..], b);
    }
  }

  lemma DigitsHaveNo(s: string, c: char)
    requires Digits(s) && !('0' <= c <= '9')
    ensures c !in s
  {
  }

  lemma {:induction false} TripleHasNo(s: string, c: char)
    requires IsTriple(s) && c != '.' && !('0' <= c <= '9')
    ensures c !in s
  {
    var parts := Split(s, '.');
    JoinSplit(s, '.');
    DigitsHaveNo(parts[0], c);
    DigitsHaveNo(parts[1], c);
    DigitsHaveNo(parts[2], c);
    assert parts[1..] == [parts[1], parts[2]] && [parts[1], parts[2]][1..] == [parts[2]];
    assert Join([parts[1], parts[2]], '.') == parts[1] + ['.'] + parts[2];
    assert s == parts[0] + ['.'] + (parts[1] + ['.'] + parts[2]);
  }

  lemma BodyIsRead(version: string, lean: bool)
    requires IsTriple(version)
    ensures ReadBody(Body(version, lean)) == Some(Mention(version, lean))
  {
    var body := Body(version, lean);
    if lean {
      TripleHasNo(version, '-');
      assert body[|body| - 5] == '-';
      if IsTriple(body) { TripleHasNo(body, '-'); }
      assert body[..|body| - 5] == version && body[|body| - 5..] == LEAN;
    }
  }

  lemma RenderedIsFound(version: string, lean: bool, rest: string)
    requires IsTriple(version)
    ensures MentionAt(Render(Mention(version, lean)) + rest) == Some(Mention(version, lean))
  {
    var body := Body(version, lean);
    TripleHasNo(version, '`');
    BodyIsRead(version, lean);
    FirstTickAt(body, rest);
    hide IsTriple, ReadBody, FirstTick, Body;
    var s := "`" + body + "`" + rest;
    assert s[1..] == body + "`" + rest;
    assert s[1..][..|body|] == body;
  }

  /** A text begins with a mention exactly when it begins with a version between backticks, "-lean" behind it or not. */
  lemma MentionsExactly(s: string, version: string, lean: bool)
    ensures MentionAt(s) == Some(Mention(version, lean)) <==>
            IsTriple(version) && StartsWith(s, "`" + (version + (if lean then "-lean" else "")) + "`")
  {
    var body := Body(version, lean);
    assert version + (if lean then "-lean" else "") == body by { if !lean { assert version + "" == version; } }
    if MentionAt(s) == Some(Mention(version, lean)) { MentionAtRenders(s); }
    hide MentionAt, IsTriple, Body;
    if IsTriple(version) && StartsWith(s, "`" + body + "`") {
      RenderedIsFound(version, lean, s[|body| + 2..]);
      assert s == "`" + body + "`" + s[|body| + 2..];
    }
  }

  /** Reading from the left, a segment is the mention that begins there, and a character where none does. */
  lemma {:induction false} SegmentsExactly(s: string, k: nat)
    requires k < |Segments(s)|
    ensures var rest := Flatten(Segments(s)[k..]);
            rest != "" && Segments(s)[k] == if MentionAt(rest).Some? then MentionAt(rest).value else Plain(rest[0])
    decreases k
  {
    FlattenSegments(s);
    assert Segments(s)[0..] == Segments(s);
    if k > 0 {
      var rest := if MentionAt(s).Some? then s[|Render(MentionAt(s).value)|..] else s[1..];
      if MentionAt(s).Some? { MentionAtRenders(s); }
      SegmentsExactly(rest, k - 1);
      assert Segments(s)[1..] == Segments(rest) && Segments(s)[k..] == Segments(rest)[k - 1..];
    }
  }

  lemma RewriteOfOther(s: string, version: string)
    requires s != "" && s[0] != '`'
    ensures Rewrite(s, version) == [s[0]] + Rewrite(s[1..], version)
    ensures FirstTick(s) == (if FirstTick(s[1..]) < 0 then -1 else FirstTick(s[1..]) + 1)
  {
  }

  /** Two texts are the same up to and with the first backtick of the first, or altogether if it has none. */
  ghost predicate SameFront(s: string, t: string) {
    var k := FirstTick(s);
    if k < 0 then t == s else k < |t| && t[..k + 1] == s[..k + 1]
  }

  lemma TickInFront(s: string, version: string)
    requires s != "" && s[0] == '`'
    ensures SameFront(s, Rewrite(s, version))
  {
    if MentionAt(s).Some? { MentionAtRenders(s); }
    hide ReadBody, Body;
    assert Rewrite(s, version)[0] == '`' == s[0];
  }

  lemma SameFrontBehind(c: char, s: string, t: string)
    requires SameFront(s, t) && FirstTick([c] + s) == (if FirstTick(s) < 0 then -1 else FirstTick(s) + 1)
    ensures SameFront([c] + s, [c] + t)
  {
    var k := FirstTick(s);
    hide FirstTick;
    if k >= 0 {
      assert ([c] + s)[..k + 2] == [c] + s[..k + 1] && ([c] + t)[..k + 2] == [c] + t[..k + 1];
    }
  }

  /** Rewriting changes nothing before the first backtick, nor that backtick itself. */
  lemma {:induction false} RewriteKeepsFront(s: string, version: string)
    ensures SameFront(s, Rewrite(s, version))
    decreases |s|
  {
    assert SameFront("", Rewrite("", version));
    hide Rewrite, FirstTick, SameFront;
    if s == "" {
    } else if s[0] == '`' {
      TickInFront(s, version);
    } else {
      RewriteKeepsFront(s[1..], version);
      RewriteOfOther(s, version);
      assert s == [s[0]] + s[1..];
      SameFrontBehind(s[0], s[1..], Rewrite(s[1..], version));
    }
  }

  /** A character that began no mention begins none after what follows it was rewritten. */
  lemma StaysPlain(s: string, version: string)
    requires s != "" && MentionAt(s).None?
    ensures MentionAt([s[0]] + Rewrite(s[1..], version)).None?
  {
    var rest := s[1..];
    var rewritten := Rewrite(rest, version);
    assert ([s[0]] + rewritten)[1..] == rewritten;
    if s[0] == '`' {
      RewriteKeepsFront(rest, version);
      SameFrontSameTick(rest, rewritten);
      hide Rewrite, ReadBody, FirstTick;
    }
  }

  lemma SameFrontSameTick(a: string, b: string)
    requires SameFront(a, b)
    ensures FirstTick(b) == FirstTick(a)
    ensures FirstTick(a) >= 0 ==> b[..FirstTick(a)] == a[..FirstTick(a)]
  {
    var k, k' := FirstTick(a), FirstTick(b);
    hide FirstTick;
    if k >= 0 {
      assert forall i :: 0 <= i <= k ==> b[i] == b[..k + 1][i] == a[..k + 1][i] == a[i];
      assert b[k] == '`' && k' >= 0;
    }
  }

  /** For a plain three-number version: the same mentions at the same places, each now of that version, and the same characters around them. */
  lemma {:induction false} RewrittenSegments(s: string, version: string)
    requires IsTriple(version)
    ensures Segments(Rewrite(s, version)) == ReplaceAll(Segments(s), version)
    ensures var before, after := Segments(s), Segments(Rewrite(s, version));
            && |after| == |before|
            && forall i :: 0 <= i < |before| ==>
                 after[i] == if before[i].Mention? then Mention(version, before[i].lean) else before[i]
    decreases |s|
  {
    ReplacedEach(Segments(s), version);
    if s != "" {
      match MentionAt(s)
      case None =>
        var rewritten := Rewrite(s[1..], version);
        StaysPlain(s, version);
        RewrittenSegments(s[1..], version);
        assert ([s[0]] + rewritten)[1..] == rewritten;
      case Some(m) =>
        MentionAtRenders(s);
        var rest := Rewrite(s[|Render(m)|..], version);
        RenderedIsFound(version, m.lean, rest);
        RewrittenSegments(s[|Render(m)|..], version);
        var front := Render(Replaced(m, version));
        assert (front + rest)[|front|..] == rest;
    }
  }

  lemma {:induction false} ReplacedEach(segments: seq<Segment>, version: string)
    ensures |ReplaceAll(segments, version)| == |segments|
    ensures forall i :: 0 <= i < |segments| ==>
              ReplaceAll(segments, version)[i] == if segments[i].Mention? then Mention(version, segments[i].lean) else segments[i]
  {
    if segments != [] { ReplacedEach(segments[1..], version); }
  }

  /** Three numbers with dots between them, and nothing else, are a version. */
  lemma TripleExactly(s: string)
    ensures IsTriple(s) <==> exists a, b, c :: Digits(a) && Digits(b) && Digits(c) && s == a + "." + b + "." + c
  {
    if IsTriple(s) {
      var parts := Split(s, '.');
      JoinSplit(s, '.');
      assert parts[1..] == [parts[1], parts[2]] && [parts[1], parts[2]][1..] == [parts[2]];
      assert Join([parts[1], parts[2]], '.') == parts[1] + ['.'] + parts[2];
      assert s == parts[0] + ['.'] + (parts[1] + ['.'] + parts[2]);
      assert s == parts[0] + "." + parts[1] + "." + parts[2];
    }
    forall a, b, c | Digits(a) && Digits(b) && Digits(c) && s == a + "." + b + "." + c ensures IsTriple(s) {
      SplitThree(a, b, c);
    }
  }

  lemma {:induction false} ReplaceAllLeavesNoneStale(segments: seq<Segment>, version: string)
    ensures StaleIn(ReplaceAll(segments, version), version) == {}
    ensures ReplaceAll(ReplaceAll(segments, version), version) == ReplaceAll(segments, version)
    ensures StaleIn(segments, version) == {} <==> ReplaceAll(segments, version) == segments
  {
    if segments != [] {
      ReplaceAllLeavesNoneStale(segments[1..], version);
      assert ReplaceAll(segments, version)[1..] == ReplaceAll(segments[1..], version);
      assert segments == [segments[0]] + segments[1..];
    }
  }

  /** Rewriting leaves nothing stale, a second rewriting changes nothing, and neither does the first when nothing was stale. */
  lemma RewriteSettles(s: string, version: string)
    requires IsTriple(version)
    ensures Stale(Rewrite(s, version), version) == {}
    ensures Rewrite(Rewrite(s, version), version) == Rewrite(s, version)
    ensures Stale(s, version) == {} <==> Rewrite(s, version) == s
  {
    var segments := Segments(s);
    RewrittenSegments(s, version);
    RewriteIsReplaceAll(s, version);
    RewriteIsReplaceAll(Rewrite(s, version), version);
    ReplaceAllLeavesNoneStale(segments, version);
    FlattenSegments(s);
  }

  // ----- Exactly which versions it settles for

  lemma {:induction false} PlainPrefix(a: string, b: string)
    requires '`' !in a
    ensures StaleIn(Segments(a + b), "") == StaleIn(Segments(b), "")
    ensures forall v :: StaleIn(Segments(a + b), v) == StaleIn(Segments(b), v)
  {
    if a == "" {
      assert a + b == b;
    } else {
      assert (a + b)[1..] == a[1..] + b;
      PlainPrefix(a[1..], b);
    }
  }

  /** A mention, and straight after it what would be another if only its backtick were its own. */
  const TWICE := "`" + "1.0.0" + "`" + "2.0.0`"

  function Again(version: string): string { "`" + (version + ("`" + "2.0.0`")) }

  lemma TwiceRewritten(version: string)
    ensures Rewrite(TWICE, version) == Again(version)
  {
    SmallTriples();
    NoMentionIn("2.0.0`", version);
    GluedRewritten("1.0.0", "2.0.0`", version);
  }

  lemma GluedRewritten(first: string, tail: string, version: string)
    requires IsTriple(first) && Rewrite(tail, version) == tail
    ensures Rewrite("`" + first + "`" + tail, version) == "`" + (version + ("`" + tail))
  {
    RenderedIsFound(first, false, tail);
    RewriteStep(Mention(first, false), tail, version);
    hide Rewrite, MentionAt, IsTriple;
    Regroup("`", version, "`", tail);
  }

  lemma Regroup(a: string, b: string, c: string, d: string)
    ensures a + b + c + d == a + (b + (c + d))
  {
    assert a + b + c + d == (a + b) + (c + d);
  }

  lemma RewriteStep(m: Segment, rest: string, version: string)
    ensures MentionAt(Render(m) + rest) == Some(m) ==>
              Rewrite(Render(m) + rest, version) == Render(Replaced(m, version)) + Rewrite(rest, version)
  {
    if MentionAt(Render(m) + rest) == Some(m) {
      MentionAtRenders(Render(m) + rest);
      hide MentionAt;
      assert (Render(m) + rest)[|Render(m)|..] == rest;
    }
  }

  lemma SmallTriples()
    ensures IsTriple("1.0.0") && IsTriple("2.0.0")
  {
    SplitThree("1", "0", "0");
    SplitThree("2", "0", "0");
    assert "1.0.0" == "1" + "." + "0" + "." + "0" && "2.0.0" == "2" + "." + "0" + "." + "0";
  }

  /** A text whose only backtick is its last character holds no mention. */
  lemma {:induction false} NoMentionIn(s: string, version: string)
    requires s != "" && s[|s| - 1] == '`' && '`' !in s[..|s| - 1]
    ensures Rewrite(s, version) == s
  {
    assert [s[0]] + s[1..] == s;
    if |s| > 1 {
      assert s[0] == s[..|s| - 1][0];
      assert s[1..][..|s| - 2] == s[..|s| - 1][1..];
      NoMentionIn(s[1..], version);
    } else {
      assert s[1..] == "";
    }
  }

  /**
   The version scripts accept more than plain three-number versions. Rewriting leaves no stale mention in
   every text if and only if the version is three plain numbers: any other leaves one in `TWICE`.
   */
  lemma SettlesExactlyForTriples(version: string)
    requires '`' !in version
    ensures IsTriple(version) <==> forall s :: Stale(Rewrite(s, version), version) == {}
  {
    if IsTriple(version) {
      forall s ensures Stale(Rewrite(s, version), version) == {} { RewriteSettles(s, version); }
    } else {
      TwiceRewritten(version);
      OtherVersionStaysStale(version);
    }
  }

  lemma OtherVersionStaysStale(version: string)
    requires '`' !in version && !IsTriple(version)
    ensures Stale(Again(version), version) != {}
  {
    var s := Again(version);
    assert s[1..] == version + ("`" + "2.0.0`");
    StaleStep(s, version);
    if MentionAt(s).Some? {
      MentionAtRenders(s);
    } else {
      PlainPrefix(version, "`" + "2.0.0`");
      TwoIsStale(version);
    }
  }

  lemma TwoIsStale(version: string)
    requires !IsTriple(version)
    ensures "2.0.0" in Stale("`" + "2.0.0`", version)
  {
    SmallTriples();
    RenderedIsFound("2.0.0", false, "");
    assert "`" + "2.0.0`" == Render(Mention("2.0.0", false)) + "";
    StaleStep("`" + "2.0.0`", version);
  }
}
