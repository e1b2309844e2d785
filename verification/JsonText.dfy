/** Escaping a string for embedding in JSON, and undoing it, as chains of left-to-right replacements. */
module JsonText {

  /** `str::replace`: non-overlapping occurrences, left to right. */
  function Replace(s: string, pattern: string, into: string): string
    requires pattern != []
    decreases |s|
  {
    if |s| < |pattern| then s
    else if s[..|pattern|] == pattern then into + Replace(s[|pattern|..], pattern, into)
    else [s[0]] + Replace(s[1..], pattern, into)
  }

  function JsonEscape(v: string): string {
    var v := Replace(v, ['\\'], ['\\', '\\']);
    var v := Replace(v, ['\"'], ['\\', '\"']);
    var v := Replace(v, ['\n'], ['\\', 'n']);
    var v := Replace(v, ['\r'], ['\\', 'r']);
    Replace(v, ['\t'], ['\\', 't'])
  }

  function JsonUnescape(v: string): string {
    Replace(Replace(v, ['\\', '\"'], ['\"']), ['\\', '\\'], ['\\'])
  }

  // ---- the five passes are one character map ----

  function EscapeChar(c: char): string {
    if c == '\\' then ['\\', '\\']
    else if c == '\"' then ['\\', '\"']
    else if c == '\n' then ['\\', 'n']
    else if c == '\r' then ['\\', 'r']
    else if c == '\t' then ['\\', 't']
    else [c]
  }

  function Escaped(s: string): string {
    if s == [] then [] else EscapeChar(s[0]) + Escaped(s[1..])
  }

  /** The pattern and the replacement of each pass. */
  function Pattern(k: nat): char
    requires k < 5
  {
    ['\\', '\"', '\n', '\r', '\t'][k]
  }

  function By(k: nat): string
    requires k < 5
  {
    ['\\', ['\\', '\"', 'n', 'r', 't'][k]]
  }

  function Passes(k: nat, s: string): string
    requires k <= 5
  {
    if k == 0 then s else Replace(Passes(k - 1, s), [Pattern(k - 1)], By(k - 1))
  }

  /** What the first `k` passes make of one character: escaped if its turn has come. */
  function After(k: nat, c: char): string
    requires k <= 5
  {
    if exists j :: 0 <= j < k && c == Pattern(j) then EscapeChar(c) else [c]
  }

  function Mapped(k: nat, s: string): string
    requires k <= 5
  {
    if s == [] then [] else After(k, s[0]) + Mapped(k, s[1..])
  }

  lemma ReplaceHead(c: char, rest: string, pattern: char, into: string)
    ensures Replace([c] + rest, [pattern], into)
         == (if c == pattern then into else [c]) + Replace(rest, [pattern], into)
  {
    assert ([c] + rest)[1..] == rest && ([c] + rest)[..1] == [c];
  }

  /** No later pass touches what an earlier one wrote: the patterns still to come do not occur in it. */
  lemma OnePassOnOneChar(k: nat, c: char, rest: string)
    requires k < 5
    ensures Replace(After(k, c) + rest, [Pattern(k)], By(k)) == After(k + 1, c) + Replace(rest, [Pattern(k)], By(k))
  {
    hide Replace;
    var done := After(k, c);
    if |done| == 1 {
      ReplaceHead(c, rest, Pattern(k), By(k));
      if c == Pattern(k) {
        assert EscapeChar(c) == By(k);
      }
    } else {
      assert done == [done[0]] + [done[1]];
      assert done + rest == [done[0]] + ([done[1]] + rest);
      ReplaceHead(done[0], [done[1]] + rest, Pattern(k), By(k));
      ReplaceHead(done[1], rest, Pattern(k), By(k));
    }
  }

  lemma {:induction false} OnePass(k: nat, s: string)
    requires k < 5
    ensures Replace(Mapped(k, s), [Pattern(k)], By(k)) == Mapped(k + 1, s)
    decreases |s|
  {
    hide After;
    if s != [] {
      OnePass(k, s[1..]);
      OnePassOnOneChar(k, s[0], Mapped(k, s[1..]));
    }
  }

  lemma {:induction false} NoPass(s: string)
    ensures Mapped(0, s) == s
  {
    if s != [] { NoPass(s[1..]); }
  }

  lemma {:induction false} PassesAreMapped(k: nat, s: string)
    requires k <= 5
    ensures Passes(k, s) == Mapped(k, s)
  {
    hide Mapped, Replace;
    if k == 0 { NoPass(s); } else {
      PassesAreMapped(k - 1, s);
      OnePass(k - 1, s);
    }
  }

  lemma {:induction false} AllPasses(s: string)
    ensures Mapped(5, s) == Escaped(s)
  {
    if s != [] {
      AllPasses(s[1..]);
      var c := s[0];
      if c == '\\' { assert c == Pattern(0); }
      if c == '\"' { assert c == Pattern(1); }
      if c == '\n' { assert c == Pattern(2); }
      if c == '\r' { assert c == Pattern(3); }
      if c == '\t' { assert c == Pattern(4); }
    }
  }

  /** The five sequential passes equal one map over the characters. */
  lemma EscapeIsACharacterMap(s: string)
    ensures JsonEscape(s) == Escaped(s)
  {
    hide Replace, Mapped, Escaped;
    PassesAreMapped(5, s);
    AllPasses(s);
    FivePasses(s);
  }

  lemma FivePasses(s: string)
    ensures JsonEscape(s) == Passes(5, s)
  {
    hide Replace;
    assert Passes(1, s) == Replace(s, ['\\'], ['\\', '\\']);
    assert Passes(2, s) == Replace(Passes(1, s), ['\"'], ['\\', '\"']);
    assert Passes(3, s) == Replace(Passes(2, s), ['\n'], ['\\', 'n']);
    assert Passes(4, s) == Replace(Passes(3, s), ['\r'], ['\\', 'r']);
    assert Passes(5, s) == Replace(Passes(4, s), ['\t'], ['\\', 't']);
  }

  // ---- what unescaping undoes ----

  predicate Control(c: char) { c == '\n' || c == '\r' || c == '\t' }

  /** Line breaks and tabs stay escaped; every other character is itself. */
  function ControlsEscaped(s: string): string {
    if s == [] then [] else (if Control(s[0]) then EscapeChar(s[0]) else [s[0]]) + ControlsEscaped(s[1..])
  }

  /** After the first unescaping pass: quotes are bare, backslashes still doubled. */
  function QuotesBare(s: string): string {
    if s == [] then [] else (if s[0] == '\"' then ['\"'] else EscapeChar(s[0])) + QuotesBare(s[1..])
  }

  lemma ReplacePairHit(a: char, b: char, rest: string, into: string)
    ensures Replace([a, b] + rest, [a, b], into) == into + Replace(rest, [a, b], into)
  {
    assert ([a, b] + rest)[2..] == rest && ([a, b] + rest)[..2] == [a, b];
  }

  lemma ReplacePairMiss(c: char, rest: string, a: char, b: char, into: string)
    requires c != a || rest == [] || rest[0] != b
    ensures Replace([c] + rest, [a, b], into) == [c] + Replace(rest, [a, b], into)
  {
    assert ([c] + rest)[1..] == rest;
    if rest != [] { assert ([c] + rest)[..2] == [c, rest[0]]; }
  }

  lemma EscapedNeverStartsWithQuote(s: string)
    ensures Escaped(s) != [] ==> Escaped(s)[0] != '\"'
  {
  }

  /** A two-character escape that is not the pattern itself passes through. */
  lemma PairPassesThrough(d: char, rest: string, b: char, into: string)
    requires d != '\\' && d != b
    ensures Replace(['\\', d] + rest, ['\\', b], into) == ['\\', d] + Replace(rest, ['\\', b], into)
  {
    hide Replace;
    ReplacePairMiss(d, rest, '\\', b, into);
    ReplacePairMiss('\\', [d] + rest, '\\', b, into);
    assert ['\\', d] + rest == ['\\'] + ([d] + rest);
  }

  lemma FirstPassOnOneChar(c: char, rest: string)
    requires rest != [] ==> rest[0] != '\"'
    ensures Replace(EscapeChar(c) + rest, ['\\', '\"'], ['\"'])
         == (if c == '\"' then ['\"'] else EscapeChar(c)) + Replace(rest, ['\\', '\"'], ['\"'])
  {
    hide Replace;
    if c == '\"' {
      ReplacePairHit('\\', '\"', rest, ['\"']);
    } else if c == '\\' {
      ReplacePairMiss('\\', rest, '\\', '\"', ['\"']);
      ReplacePairMiss('\\', ['\\'] + rest, '\\', '\"', ['\"']);
      assert EscapeChar(c) + rest == ['\\'] + (['\\'] + rest);
    } else if Control(c) {
      PairPassesThrough(EscapeChar(c)[1], rest, '\"', ['\"']);
      assert EscapeChar(c) == ['\\', EscapeChar(c)[1]];
    } else {
      ReplacePairMiss(c, rest, '\\', '\"', ['\"']);
    }
  }

  lemma {:induction false} FirstPassBaresQuotes(s: string)
    ensures Replace(Escaped(s), ['\\', '\"'], ['\"']) == QuotesBare(s)
  {
    hide Replace, EscapeChar;
    if s == [] {
      EmptyReplace(['\\', '\"'], ['\"']);
    } else {
      FirstPassBaresQuotes(s[1..]);
      EscapedNeverStartsWithQuote(s[1..]);
      FirstPassOnOneChar(s[0], Escaped(s[1..]));
    }
  }

  lemma SecondPassOnOneChar(c: char, rest: string)
    ensures Replace((if c == '\"' then ['\"'] else EscapeChar(c)) + rest, ['\\', '\\'], ['\\'])
         == (if Control(c) then EscapeChar(c) else [c]) + Replace(rest, ['\\', '\\'], ['\\'])
  {
    hide Replace;
    if c == '\\' {
      ReplacePairHit('\\', '\\', rest, ['\\']);
    } else if Control(c) {
      PairPassesThrough(EscapeChar(c)[1], rest, '\\', ['\\']);
      assert EscapeChar(c) == ['\\', EscapeChar(c)[1]];
    } else {
      ReplacePairMiss(c, rest, '\\', '\\', ['\\']);
    }
  }

  lemma {:induction false} SecondPassHalvesBackslashes(s: string)
    ensures Replace(QuotesBare(s), ['\\', '\\'], ['\\']) == ControlsEscaped(s)
  {
    hide Replace, EscapeChar, Control;
    if s == [] {
      EmptyReplace(['\\', '\\'], ['\\']);
    } else {
      SecondPassHalvesBackslashes(s[1..]);
      SecondPassOnOneChar(s[0], QuotesBare(s[1..]));
    }
  }

  lemma EmptyReplace(pattern: string, into: string)
    requires pattern != []
    ensures Replace([], pattern, into) == []
  {
  }

  lemma {:induction false} ControlsMakeItLonger(s: string)
    ensures |ControlsEscaped(s)| >= |s|
    ensures ControlsEscaped(s) == s <==> forall i :: 0 <= i < |s| ==> !Control(s[i])
    ensures (exists i :: 0 <= i < |s| && Control(s[i])) ==> |ControlsEscaped(s)| > |s|
  {
    if s != [] {
      ControlsMakeItLonger(s[1..]);
      assert forall i :: 0 < i < |s| ==> s[i] == s[1..][i - 1];
      assert s == [s[0]] + s[1..];
      if Control(s[0]) {
        assert |ControlsEscaped(s)| > |s|;
      } else if exists i :: 0 <= i < |s| && Control(s[i]) {
        var i :| 0 <= i < |s| && Control(s[i]);
        assert Control(s[1..][i - 1]);
      }
    }
  }

  /** Unescaping undoes escaping exactly on strings without newline, carriage return and tab. */
  lemma UnescapeUndoesEscape(s: string)
    ensures JsonUnescape(JsonEscape(s)) == ControlsEscaped(s)
    ensures JsonUnescape(JsonEscape(s)) == s <==> forall i :: 0 <= i < |s| ==> !Control(s[i])
  {
    hide Replace, JsonEscape;
    EscapeIsACharacterMap(s);
    FirstPassBaresQuotes(s);
    SecondPassHalvesBackslashes(s);
    ControlsMakeItLonger(s);
  }
}
