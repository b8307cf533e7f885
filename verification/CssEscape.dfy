/**
 `CSS.escape` against the identifier consumer of CSS Syntax Level 3 (sections 4.3.7 to 4.3.11): what was
 escaped is consumed whole, as one identifier, and read back. Units at or above 0x80 are opaque.
 */
module CssEscape {

  type Unit = nat
  type Units = seq<Unit>

  const REPLACEMENT: Unit := 0xFFFD
  const BACKSLASH: Unit := 0x5C
  const HYPHEN: Unit := 0x2D
  const SPACE: Unit := 0x20

  predicate IsDigit(c: Unit) { 0x30 <= c <= 0x39 }

  predicate IsLetter(c: Unit) { 0x41 <= c <= 0x5A || 0x61 <= c <= 0x7A }

  predicate IsIdentStart(c: Unit) { IsLetter(c) || c >= 0x80 || c == 0x5F }

  predicate IsIdent(c: Unit) { IsIdentStart(c) || IsDigit(c) || c == HYPHEN }

  // ----- Escaping

  function HexDigit(n: nat): (c: Unit)
    requires n < 16
  {
    if n < 10 then 0x30 + n else 0x61 + (n - 10)
  }

  /** `toString(16)` of a code below 0x100. */
  function Hex(code: Unit): Units
    requires code < 0x100
  {
    if code < 16 then [HexDigit(code)] else [HexDigit(code / 16), HexDigit(code % 16)]
  }

  predicate NeedsHex(s: Units, i: nat)
    requires i < |s|
  {
    || 0x01 <= s[i] <= 0x1F || s[i] == 0x7F
    || (i == 0 && IsDigit(s[i]))
    || (i == 1 && IsDigit(s[i]) && s[0] == HYPHEN)
  }

  function EscapeUnit(s: Units, i: nat): Units
    requires i < |s|
  {
    var c := s[i];
    if c == 0 then [REPLACEMENT]
    else if NeedsHex(s, i) then [BACKSLASH] + Hex(c) + [SPACE]
    else if i == 0 && c == HYPHEN && |s| == 1 then [BACKSLASH, c]
    else if IsIdent(c) then [c]
    else [BACKSLASH, c]
  }

  function EscapeFrom(s: Units, i: nat): Units
    requires i <= |s|
    decreases |s| - i
  {
    if i == |s| then [] else EscapeUnit(s, i) + EscapeFrom(s, i + 1)
  }

  function Escape(s: Units): Units { EscapeFrom(s, 0) }

  /**
   What becomes of each unit, by its number: control characters and a digit in front are written in lower-case
   hexadecimal, letters, digits, hyphen, underscore and everything beyond ASCII stay, and the rest gets a backslash.
   */
  lemma EscapedByKind(s: Units, i: nat)
    requires i < |s|
    ensures var c, e := s[i], EscapeUnit(s, i);
            var digit, front := 0x30 <= c <= 0x39, i == 0 || (i == 1 && s[0] == 0x2D);
            if c == 0 then e == [0xFFFD]
            else if 1 <= c <= 0x1F || c == 0x7F || (digit && front) then
              && |e| == (if c < 0x10 then 3 else 4) && e[0] == 0x5C && e[|e| - 1] == 0x20
              && forall k :: 1 <= k < |e| - 1 ==> 0x30 <= e[k] <= 0x39 || 0x61 <= e[k] <= 0x66
            else if digit || 0x41 <= c <= 0x5A || 0x61 <= c <= 0x7A || c == 0x5F || c >= 0x80 || (c == 0x2D && s != [0x2D]) then
              e == [c]
            else e == [0x5C, c]
  {
    assert |s| == 1 ==> s == [s[0]];
  }

  /** One turn of the loop: what is appended for the unit at `index`. */
  method EscapeOne(s: Units, index: nat) returns (piece: Units)
    requires index < |s|
    ensures piece == EscapeUnit(s, index)
  {
    var code := s[index];
    if code == 0 { return [REPLACEMENT]; }
    if (0x01 <= code <= 0x1F) || code == 0x7F || (index == 0 && 0x30 <= code <= 0x39)
       || (index == 1 && 0x30 <= code <= 0x39 && s[0] == HYPHEN) {
      return [BACKSLASH] + Hex(code) + [SPACE];
    }
    if index == 0 && code == HYPHEN && |s| == 1 { return [BACKSLASH, code]; }
    if code >= 0x80 || code == HYPHEN || code == 0x5F || (0x30 <= code <= 0x39)
       || (0x41 <= code <= 0x5A) || (0x61 <= code <= 0x7A) {
      return [code];
    }
    return [BACKSLASH, code];
  }

  method EscapeLoop(s: Units) returns (result: Units)
    ensures result == Escape(s)
  {
    hide EscapeUnit;
    result := [];
    for index := 0 to |s|
      invariant result + EscapeFrom(s, index) == Escape(s)
    {
      var piece := EscapeOne(s, index);
      assert result + (piece + EscapeFrom(s, index + 1)) == (result + piece) + EscapeFrom(s, index + 1);
      result := result + piece;
    }
  }

  // ----- Consuming an identifier

  predicate IsNewline(c: Unit) { c == 0x0A || c == 0x0C || c == 0x0D }

  predicate IsWhitespace(c: Unit) { IsNewline(c) || c == 0x09 || c == SPACE }

  predicate IsHexDigit(c: Unit) { IsDigit(c) || 0x41 <= c <= 0x46 || 0x61 <= c <= 0x66 }

  function HexValueOf(c: Unit): nat
    requires IsHexDigit(c)
  {
    if IsDigit(c) then c - 0x30 else if c >= 0x61 then c - 0x61 + 10 else c - 0x41 + 10
  }

  /** Section 4.3.8: a backslash that is not followed by a newline. */
  predicate ValidEscape(input: Units) { input != [] && input[0] == BACKSLASH && !(|input| > 1 && IsNewline(input[1])) }

  /** As many hexadecimal digits as there are, `most` at the most, read onto `value`. */
  function ConsumeHex(input: Units, most: nat, value: nat): (r: (nat, Units))
    ensures |r.1| <= |input|
  {
    if most == 0 || input == [] || !IsHexDigit(input[0]) then (value, input)
    else ConsumeHex(input[1..], most - 1, 16 * value + HexValueOf(input[0]))
  }

  /** Section 4.3.7, after the backslash. */
  function ConsumeEscaped(input: Units): (r: (Unit, Units))
    ensures |r.1| <= |input|
  {
    if input == [] then (REPLACEMENT, [])
    else if IsHexDigit(input[0]) then
      var (value, rest) := ConsumeHex(input, 6, 0);
      var code := if value == 0 || 0xD800 <= value <= 0xDFFF || value > 0x10FFFF then REPLACEMENT else value;
      (code, if rest != [] && IsWhitespace(rest[0]) then rest[1..] else rest)
    else (input[0], input[1..])
  }

  /** Section 4.3.11. */
  function ConsumeIdent(input: Units): (Units, Units)
    decreases |input|
  {
    if input == [] then ([], [])
    else if IsIdent(input[0]) then
      var (more, rest) := ConsumeIdent(input[1..]);
      ([input[0]] + more, rest)
    else if ValidEscape(input) then
      var (code, after) := ConsumeEscaped(input[1..]);
      var (more, rest) := ConsumeIdent(after);
      ([code] + more, rest)
    else ([], input)
  }

  /** Section 4.3.9: whether the input would start an identifier. */
  predicate StartsIdent(input: Units) {
    input != [] &&
    if input[0] == HYPHEN then |input| > 1 && (IsIdentStart(input[1]) || input[1] == HYPHEN || ValidEscape(input[1..]))
    else IsIdentStart(input[0]) || ValidEscape(input)
  }

  // ----- The round trip

  function WithoutNul(s: Units): (r: Units)
    ensures |r| == |s|
    ensures forall i :: 0 <= i < |s| ==> r[i] == if s[i] == 0 then REPLACEMENT else s[i]
  {
    seq(|s|, i requires 0 <= i < |s| => if s[i] == 0 then REPLACEMENT else s[i])
  }

  lemma HexDigitReads(n: nat)
    requires n < 16
    ensures IsHexDigit(HexDigit(n)) && HexValueOf(HexDigit(n)) == n
  {
  }

  lemma HexEscapeIsConsumed(code: Unit, rest: Units)
    requires 1 <= code < 0x80
    ensures ConsumeEscaped(Hex(code) + [SPACE] + rest) == (code, rest)
  {
    var input := Hex(code) + [SPACE] + rest;
    assert !IsHexDigit(SPACE) && IsWhitespace(SPACE);
    if code < 16 {
      HexDigitReads(code);
      assert input[0] == HexDigit(code) && input[1..] == [SPACE] + rest;
      assert ConsumeHex(input[1..], 5, code) == (code, [SPACE] + rest);
    } else {
      HexDigitReads(code / 16);
      HexDigitReads(code % 16);
      assert input[0] == HexDigit(code / 16) && input[1..] == [HexDigit(code % 16), SPACE] + rest;
      assert input[1..][0] == HexDigit(code % 16) && input[1..][1..] == [SPACE] + rest;
      assert ConsumeHex(input[1..][1..], 4, code) == (code, [SPACE] + rest);
      assert ConsumeHex(input[1..], 5, code / 16) == (code, [SPACE] + rest);
    }
    assert ConsumeHex(input, 6, 0) == (code, [SPACE] + rest);
    assert ([SPACE] + rest)[1..] == rest;
  }

  /** What one unit is escaped to is consumed as that unit, whatever follows. */
  lemma UnitIsConsumed(s: Units, i: nat, rest: Units)
    requires i < |s|
    ensures var (more, left) := ConsumeIdent(rest);
            ConsumeIdent(EscapeUnit(s, i) + rest) == ([WithoutNul(s)[i]] + more, left)
  {
    var c := s[i];
    var input := EscapeUnit(s, i) + rest;
    if c != 0 && NeedsHex(s, i) {
      assert input[1..] == Hex(c) + [SPACE] + rest;
      HexEscapeIsConsumed(c, rest);
      assert !IsNewline(input[1]);
    } else if |EscapeUnit(s, i)| == 1 {
      assert input[1..] == rest;
    } else {
      assert input[0] == BACKSLASH && input[1] == c && input[1..] == [c] + rest && input[1..][1..] == rest;
      assert !IsHexDigit(c) && !IsNewline(c);
    }
  }

  lemma {:induction false} SuffixIsConsumed(s: Units, i: nat)
    requires i <= |s|
    ensures ConsumeIdent(EscapeFrom(s, i)) == (WithoutNul(s)[i..], [])
    decreases |s| - i
  {
    assert ConsumeIdent([]) == ([], []);
    hide ConsumeIdent, EscapeUnit, WithoutNul;
    if i < |s| {
      SuffixIsConsumed(s, i + 1);
      UnitIsConsumed(s, i, EscapeFrom(s, i + 1));
      assert WithoutNul(s)[i..] == [WithoutNul(s)[i]] + WithoutNul(s)[i + 1..];
    } else {
      assert WithoutNul(s)[i..] == [];
    }
  }

  /** Any text, escaped, is consumed whole and gives itself back with each NUL replaced. */
  lemma EscapedIsConsumedWhole(s: Units)
    ensures ConsumeIdent(Escape(s)) == (WithoutNul(s), [])
  {
    SuffixIsConsumed(s, 0);
    assert WithoutNul(s)[0..] == WithoutNul(s);
  }

  /** Any text but the empty one starts an identifier once escaped, so the parser gets to consuming it. */
  lemma EscapedStartsIdent(s: Units)
    ensures StartsIdent(Escape(s)) <==> s != []
  {
    if s != [] {
      var first := EscapeUnit(s, 0);
      var escaped := Escape(s);
      assert escaped == first + EscapeFrom(s, 1);
      if s[0] == HYPHEN && |s| > 1 {
        var second := EscapeUnit(s, 1);
        assert EscapeFrom(s, 1) == second + EscapeFrom(s, 2);
        assert escaped[0] == HYPHEN && escaped[1] == second[0];
        SecondStarts(s, EscapeFrom(s, 2));
        assert escaped[1..] == second + EscapeFrom(s, 2);
      } else {
        assert escaped[0] == first[0] && (|first| > 1 ==> escaped[1] == first[1]);
        HexIsNoNewline(s[0]);
      }
    }
  }

  lemma HexIsNoNewline(c: Unit)
    ensures c < 0x100 ==> !IsNewline(Hex(c)[0])
  {
  }

  lemma SecondStarts(s: Units, rest: Units)
    requires |s| > 1 && s[0] == HYPHEN
    ensures var input := EscapeUnit(s, 1) + rest;
            IsIdentStart(input[0]) || input[0] == HYPHEN || ValidEscape(input)
  {
    HexIsNoNewline(s[1]);
    var second, input := EscapeUnit(s, 1), EscapeUnit(s, 1) + rest;
    assert input[0] == second[0] && (|second| > 1 ==> input[1] == second[1]);
  }

  /** Two texts are escaped alike exactly when they differ in nothing but NUL against U+FFFD; without NULs, never. */
  lemma EscapeInjective(s: Units, t: Units)
    ensures Escape(s) == Escape(t) <==> WithoutNul(s) == WithoutNul(t)
    ensures 0 !in s && 0 !in t ==> (Escape(s) == Escape(t) <==> s == t)
  {
    EscapedIsConsumedWhole(s);
    EscapedIsConsumedWhole(t);
    EscapeIgnoresNul(s, 0);
    EscapeIgnoresNul(t, 0);
    if 0 !in s { assert WithoutNul(s) == s; }
    if 0 !in t { assert WithoutNul(t) == t; }
  }

  lemma {:induction false} EscapeIgnoresNul(s: Units, i: nat)
    requires i <= |s|
    ensures EscapeFrom(s, i) == EscapeFrom(WithoutNul(s), i)
    decreases |s| - i
  {
    hide EscapeUnit, WithoutNul;
    if i < |s| {
      UnitIgnoresNul(s, i);
      EscapeIgnoresNul(s, i + 1);
    }
  }

  lemma UnitIgnoresNul(s: Units, i: nat)
    requires i < |s|
    ensures EscapeUnit(s, i) == EscapeUnit(WithoutNul(s), i)
  {
    hide Hex;
    var t := WithoutNul(s);
    assert s[0] == HYPHEN <==> t[0] == HYPHEN;
    assert s[i] != 0 ==> NeedsHex(s, i) == NeedsHex(t, i);
  }

  ghost predicate Plain(c: Unit) { c != 0 && c != 0x0C && c != 0x0D }

  lemma UnitIsPlain(s: Units, i: nat)
    requires i < |s|
    ensures forall k :: 0 <= k < |EscapeUnit(s, i)| ==> Plain(EscapeUnit(s, i)[k])
  {
  }

  /** Nothing the input preprocessing of section 3.3 would change is left: no NUL, form feed or carriage return. */
  lemma {:induction false} NothingToPreprocess(s: Units, i: nat)
    requires i <= |s|
    ensures forall k :: 0 <= k < |EscapeFrom(s, i)| ==> Plain(EscapeFrom(s, i)[k])
    decreases |s| - i
  {
    if i < |s| {
      NothingToPreprocess(s, i + 1);
      UnitIsPlain(s, i);
      hide EscapeUnit, Plain;
    }
  }
}
