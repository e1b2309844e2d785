/** Slug normalisation and the hexadecimal SQL text literal. */
module Slug {
  import opened Wrappers
  import opened Utf8

  predicate Lower(c: char) { 'a' <= c <= 'z' }
  predicate Upper(c: char) { 'A' <= c <= 'Z' }
  predicate Digit(c: char) { '0' <= c <= '9' }
  predicate Alphanumeric(c: char) { Lower(c) || Upper(c) || Digit(c) }

  function ToLower(c: char): char {
    if Upper(c) then (c as int + 32) as char else c
  }

  /** The White_Space characters that `trim` removes. */
  predicate Space(c: char) {
    var u := c as int;
    9 <= u <= 13 || u == 0x20 || u == 0x85 || u == 0xA0 || u == 0x1680 || 0x2000 <= u <= 0x200A
    || u == 0x2028 || u == 0x2029 || u == 0x202F || u == 0x205F || u == 0x3000
  }

  function Trim(s: string): string {
    if s != [] && Space(s[0]) then Trim(s[1..])
    else if s != [] && Space(s[|s| - 1]) then Trim(s[..|s| - 1])
    else s
  }

  predicate EndsWithDash(s: string) {
    s != [] && s[|s| - 1] == '-'
  }

  /** What the scan has built after reading `s`. */
  function Scan(s: string): string {
    if s == [] then []
    else
      var before, c := Scan(s[..|s| - 1]), ToLower(s[|s| - 1]);
      if Alphanumeric(c) then before + [c]
      else if before == [] || EndsWithDash(before) then before
      else before + ['-']
  }

  function DropDashes(s: string): string {
    if EndsWithDash(s) then DropDashes(s[..|s| - 1]) else s
  }

  function Normalized(s: string): string {
    DropDashes(Scan(Trim(s)))
  }

  method NormalizeSlug(input: string) returns (slug: string)
    ensures slug == Normalized(input)
    ensures slug == Join(Words(input))
    ensures IsSlug(slug) && Kept(slug) == Kept(input)
  {
    var text := Trim(input);
    slug := "";
    var previousDash := false;
    for i := 0 to |text|
      invariant slug == Scan(text[..i]) && previousDash == EndsWithDash(slug)
    {
      var ch := ToLower(text[i]);
      assert text[..i + 1][..i] == text[..i];
      if Alphanumeric(ch) {
        slug := slug + [ch];
        previousDash := false;
      } else if !previousDash && slug != "" {
        slug := slug + ['-'];
        previousDash := true;
      }
    }
    assert text[..|text|] == text;
    while EndsWithDash(slug)
      invariant DropDashes(slug) == Normalized(input)
      decreases |slug|
    {
      slug := slug[..|slug| - 1];
    }
    NormalizedIsSlug(input);
    NothingKeptIsLost(input);
    NormalizedJoinsWords(input);
  }

  /** Lower-case alphanumeric runs separated by single dashes. */
  predicate Dashed(s: string) {
    && (forall i :: 0 <= i < |s| ==> Lower(s[i]) || Digit(s[i]) || s[i] == '-')
    && (s != [] ==> s[0] != '-')
    && (forall i :: 0 < i < |s| && s[i] == '-' ==> s[i - 1] != '-')
  }

  predicate IsSlug(s: string) {
    Dashed(s) && !EndsWithDash(s)
  }

  /** The ASCII letters and digits of a text, in order, in lower case. */
  function Kept(s: string): string {
    if s == [] then []
    else Kept(s[..|s| - 1]) + (if Alphanumeric(s[|s| - 1]) then [ToLower(s[|s| - 1])] else [])
  }

  lemma {:induction false} ScanIsDashed(s: string)
    ensures Dashed(Scan(s))
  {
    if s != [] { ScanIsDashed(s[..|s| - 1]); }
  }

  lemma {:induction false} DroppingDashes(s: string)
    requires Dashed(s)
    ensures IsSlug(DropDashes(s)) && Kept(DropDashes(s)) == Kept(s)
  {
    if EndsWithDash(s) { DroppingDashes(s[..|s| - 1]); }
  }

  lemma NormalizedIsSlug(s: string)
    ensures IsSlug(Normalized(s))
  {
    ScanIsDashed(Trim(s));
    DroppingDashes(Scan(Trim(s)));
  }

  lemma {:induction false} ScanKeeps(s: string)
    ensures Kept(Scan(s)) == Kept(s)
  {
    if s != [] { ScanKeeps(s[..|s| - 1]); }
  }

  lemma {:induction false} KeptOfFront(c: char, s: string)
    ensures Kept([c] + s) == (if Alphanumeric(c) then [ToLower(c)] else []) + Kept(s)
  {
    if s == [] {
      assert [c] + s == [c];
      assert Kept([c][..0]) == [];
    } else {
      KeptOfFront(c, s[..|s| - 1]);
      assert ([c] + s)[..|s|] == [c] + s[..|s| - 1];
    }
  }

  lemma {:induction false} TrimKeeps(s: string)
    ensures Kept(Trim(s)) == Kept(s)
    decreases |s|
  {
    if s != [] && Space(s[0]) {
      KeptOfFront(s[0], s[1..]);
      assert [s[0]] + s[1..] == s;
      TrimKeeps(s[1..]);
    } else if s != [] && Space(s[|s| - 1]) {
      TrimKeeps(s[..|s| - 1]);
    }
  }

  /** Normalising keeps every ASCII letter and digit, in order, up to case. */
  lemma NothingKeptIsLost(s: string)
    ensures Kept(Normalized(s)) == Kept(s)
  {
    TrimKeeps(s);
    ScanKeeps(Trim(s));
    ScanIsDashed(Trim(s));
    DroppingDashes(Scan(Trim(s)));
  }

  lemma {:induction false} ScanOfDashed(s: string)
    requires Dashed(s)
    ensures Scan(s) == s
  {
    if s != [] {
      var before := s[..|s| - 1];
      assert Dashed(before);
      ScanOfDashed(before);
      assert s == before + [s[|s| - 1]];
    }
  }

  /** Slugs are exactly the fixed points, so normalising twice changes nothing. */
  lemma SlugsAreTheFixedPoints(s: string)
    ensures Normalized(s) == s <==> IsSlug(s)
    ensures Normalized(Normalized(s)) == Normalized(s)
  {
    NormalizedIsSlug(s);
    SlugIsFixed(Normalized(s));
    if IsSlug(s) { SlugIsFixed(s); }
  }

  lemma SlugIsFixed(s: string)
    requires IsSlug(s)
    ensures Normalized(s) == s
  {
    ScanOfDashed(s);
  }

  // ---- the words of a text ----

  predicate WordChar(c: char) {
    'a' <= c <= 'z' || 'A' <= c <= 'Z' || '0' <= c <= '9'
  }

  /** The letter in lower case: 'a' is as far from 'A' as any other small letter from its capital. */
  function SmallLetter(c: char): char {
    if 'A' <= c <= 'Z' then (c as int - 'A' as int + 'a' as int) as char else c
  }

  /** How long the run of letters and digits is that a text begins with. */
  function RunLength(s: string): (n: nat)
    ensures n <= |s| && forall i :: 0 <= i < n ==> WordChar(s[i])
    ensures n < |s| ==> !WordChar(s[n])
  {
    if s == [] || !WordChar(s[0]) then 0 else 1 + RunLength(s[1..])
  }

  function Small(s: string): (r: string)
    ensures |r| == |s| && forall i :: 0 <= i < |s| ==> r[i] == SmallLetter(s[i])
  {
    if s == [] then [] else [SmallLetter(s[0])] + Small(s[1..])
  }

  /** The maximal runs of ASCII letters and digits in a text, in lower case. */
  function Words(s: string): seq<string>
    decreases |s|
  {
    if s == [] then []
    else if !WordChar(s[0]) then Words(s[1..])
    else
      var n := RunLength(s);
      [Small(s[..n])] + Words(s[n..])
  }

  /** Words with single dashes between them. */
  function Join(words: seq<string>): string {
    if words == [] then []
    else if |words| == 1 then words[0]
    else words[0] + (['-'] + Join(words[1..]))
  }

  lemma CharsAgree(c: char)
    ensures Alphanumeric(ToLower(c)) <==> WordChar(c)
    ensures ToLower(c) == SmallLetter(c)
    ensures WordChar(c) ==> SmallLetter(c) != '-' && !Space(c)
  {
  }

  /** One character of the scan, from what is built already. */
  function Scanned(built: string, c: char): string {
    if WordChar(c) then built + [SmallLetter(c)]
    else if built == [] || EndsWithDash(built) then built
    else built + ['-']
  }

  /** The scan, continued from what is built already. */
  function ScanOn(built: string, s: string): string
    decreases |s|
  {
    if s == [] then built else ScanOn(Scanned(built, s[0]), s[1..])
  }

  lemma {:induction false} ScanGoesOn(a: string, b: string)
    ensures Scan(a + b) == ScanOn(Scan(a), b)
    decreases |b|
  {
    if b == [] {
      assert a + b == a;
    } else {
      var longer := a + [b[0]];
      assert longer[..|a|] == a;
      CharsAgree(b[0]);
      assert Scan(longer) == Scanned(Scan(a), b[0]);
      ScanGoesOn(longer, b[1..]);
      assert longer + b[1..] == a + b;
    }
  }

  lemma {:induction false} ScanOnRun(built: string, run: string, rest: string)
    requires forall i :: 0 <= i < |run| ==> WordChar(run[i])
    ensures ScanOn(built, run + rest) == ScanOn(built + Small(run), rest)
    decreases |run|
  {
    if run == [] {
      assert run + rest == rest && built + Small(run) == built;
    } else {
      assert (run + rest)[1..] == run[1..] + rest;
      ScanOnRun(built + [SmallLetter(run[0])], run[1..], rest);
      assert built + [SmallLetter(run[0])] + Small(run[1..]) == built + Small(run);
    }
  }

  lemma DropNoDash(s: string)
    requires !EndsWithDash(s)
    ensures DropDashes(s) == s && DropDashes(s + ['-']) == s
  {
    assert (s + ['-'])[..|s|] == s;
  }

  /** Between two words, the rest of the scan adds the words that are still to come. */
  lemma {:induction false} ScanOnJoins(built: string, s: string)
    requires built == [] || EndsWithDash(built)
    ensures Words(s) == [] ==> ScanOn(built, s) == built
    ensures Words(s) != [] ==> DropDashes(ScanOn(built, s)) == built + Join(Words(s))
    decreases |s|
  {
    if s != [] && !WordChar(s[0]) {
      ScanOnJoins(built, s[1..]);
    } else if s != [] {
      WordThenMore(built, s);
    }
  }

  lemma {:induction false} WordThenMore(built: string, s: string)
    requires s != [] && WordChar(s[0])
    ensures Words(s) != [] && DropDashes(ScanOn(built, s)) == built + Join(Words(s))
    decreases |s|, 0
  {
    hide ScanOn, DropDashes, Join, Words, EndsWithDash, Small, RunLength;
    var n := RunLength(s);
    var word, rest := Small(s[..n]), s[n..];
    assert s == s[..n] + rest;
    ScanOnRun(built, s[..n], rest);
    WordsOfRun(s);
    LetterEnds(s[..n]);
    EndOfSum(built, word);
    DropNoDash(built + word);
    if rest == [] {
      NothingMore(built + word, word);
    } else {
      NextWord(built + word, rest);
      ScanOnJoins(built + word + ['-'], rest[1..]);
      JoinMore(word, Words(rest[1..]));
      Regroup(built, word, Join(Words(rest[1..])));
    }
  }

  lemma Regroup(a: string, b: string, c: string)
    ensures a + b + ['-'] + c == a + (b + (['-'] + c))
  {
  }

  lemma WordsOfRun(s: string)
    requires s != [] && WordChar(s[0])
    ensures RunLength(s) > 0 && Words(s) == [Small(s[..RunLength(s)])] + Words(s[RunLength(s)..])
  {
  }

  lemma LetterEnds(run: string)
    requires run != [] && forall i :: 0 <= i < |run| ==> WordChar(run[i])
    ensures Small(run) != [] && !EndsWithDash(Small(run))
  {
    CharsAgree(run[|run| - 1]);
  }

  lemma EndOfSum(a: string, b: string)
    requires b != [] && !EndsWithDash(b)
    ensures !EndsWithDash(a + b)
  {
  }

  lemma NothingMore(built: string, word: string)
    ensures ScanOn(built, []) == built && Words([]) == [] && Join([word] + []) == word
  {
    assert [word] + [] == [word];
  }

  lemma NextWord(built: string, rest: string)
    requires rest != [] && !WordChar(rest[0]) && built != [] && !EndsWithDash(built)
    ensures ScanOn(built, rest) == ScanOn(built + ['-'], rest[1..]) && Words(rest) == Words(rest[1..])
    ensures EndsWithDash(built + ['-'])
  {
  }

  lemma JoinMore(word: string, words: seq<string>)
    ensures Join([word] + words) == if words == [] then word else word + (['-'] + Join(words))
  {
    assert ([word] + words)[1..] == words;
  }

  lemma {:induction false} TrailingSpaceIsNoWord(s: string, c: char)
    requires !WordChar(c)
    ensures Words(s + [c]) == Words(s)
    decreases |s|
  {
    if s == [] {
      assert (s + [c])[1..] == [];
    } else if !WordChar(s[0]) {
      assert (s + [c])[1..] == s[1..] + [c];
      TrailingSpaceIsNoWord(s[1..], c);
    } else {
      var n := RunLength(s);
      RunOfLonger(s, c);
      assert (s + [c])[..n] == s[..n] && (s + [c])[n..] == s[n..] + [c];
      WordsOfRun(s);
      WordsOfRun(s + [c]);
      TrailingSpaceIsNoWord(s[n..], c);
    }
  }

  lemma {:induction false} RunOfLonger(s: string, c: char)
    requires !WordChar(c)
    ensures RunLength(s + [c]) == RunLength(s)
  {
    if s != [] {
      assert (s + [c])[1..] == s[1..] + [c];
      RunOfLonger(s[1..], c);
    }
  }

  lemma {:induction false} TrimKeepsWords(s: string)
    ensures Words(Trim(s)) == Words(s)
    decreases |s|
  {
    if s != [] && Space(s[0]) {
      CharsAgree(s[0]);
      TrimKeepsWords(s[1..]);
    } else if s != [] && Space(s[|s| - 1]) {
      CharsAgree(s[|s| - 1]);
      assert s == s[..|s| - 1] + [s[|s| - 1]];
      TrailingSpaceIsNoWord(s[..|s| - 1], s[|s| - 1]);
      TrimKeepsWords(s[..|s| - 1]);
    }
  }

  /** The slug of a text is its words, in lower case, with one dash between neighbours. */
  lemma NormalizedJoinsWords(s: string)
    ensures Normalized(s) == Join(Words(s))
  {
    var text := Trim(s);
    TrimKeepsWords(s);
    ScanGoesOn([], text);
    assert [] + text == text;
    ScanOnJoins([], text);
  }

  // ---- hexadecimal SQL text ----

  const HEX := "0123456789abcdef"

  function Hex(bytes: Bytes): string {
    if bytes == [] then [] else Hex(bytes[..|bytes| - 1]) + [HEX[bytes[|bytes| - 1] / 16], HEX[bytes[|bytes| - 1] % 16]]
  }

  const SQL_HEAD := "convert_from(decode("
  const SQL_TAIL := ",'hex'),'UTF8')"

  function SqlText(bytes: Bytes): string {
    SQL_HEAD + ['\''] + Hex(bytes) + ['\''] + SQL_TAIL
  }

  method EncodeHex(bytes: Bytes) returns (encoded: string)
    ensures encoded == Hex(bytes)
  {
    encoded := "";
    for i := 0 to |bytes|
      invariant encoded == Hex(bytes[..i])
    {
      assert bytes[..i + 1][..i] == bytes[..i];
      encoded := encoded + [HEX[bytes[i] / 16]];
      encoded := encoded + [HEX[bytes[i] % 16]];
    }
    assert bytes[..|bytes|] == bytes;
  }

  function Nibble(c: char): Option<nat> {
    if '0' <= c <= '9' then Some(c as int - '0' as int)
    else if 'a' <= c <= 'f' then Some(c as int - 'a' as int + 10)
    else None
  }

  /** The database's `decode(..., 'hex')`. */
  function Decode(s: string): Option<Bytes> {
    if s == [] then Some([])
    else if |s| == 1 then None
    else
      match (Decode(s[..|s| - 2]), Nibble(s[|s| - 2]), Nibble(s[|s| - 1]))
      case (Some(b), Some(h), Some(l)) => if h < 16 && l < 16 then Some(b + [16 * h + l]) else None
      case _ => None
  }

  lemma HexDigit(n: nat)
    requires n < 16
    ensures Nibble(HEX[n]) == Some(n) && (Lower(HEX[n]) || Digit(HEX[n]))
  {
  }

  lemma DecodePair(s: string, h: nat, l: nat)
    requires h < 16 && l < 16
    ensures Decode(s + [HEX[h], HEX[l]])
         == match Decode(s) { case Some(b) => Some(b + [16 * h + l]) case None => None }
  {
    var pair := [HEX[h], HEX[l]];
    HexDigit(h);
    HexDigit(l);
    assert (s + pair)[..|s|] == s && (s + pair)[|s|..] == pair;
    assert (s + pair)[|s|] == pair[0] && (s + pair)[|s| + 1] == pair[1];
  }

  /** The body of the literal decodes to the exact bytes, and no character of it can end the literal. */
  lemma {:induction false} HexRoundTrip(bytes: Bytes)
    ensures Decode(Hex(bytes)) == Some(bytes)
    ensures |Hex(bytes)| == 2 * |bytes|
    ensures forall i :: 0 <= i < |Hex(bytes)| ==> Nibble(Hex(bytes)[i]).Some? && Hex(bytes)[i] != '\''
  {
    hide HEX, Decode, Nibble;
    if bytes == [] {
      EmptyDecodes();
    } else {
      var init, last := bytes[..|bytes| - 1], bytes[|bytes| - 1];
      HexRoundTrip(init);
      HexDigit(last / 16);
      HexDigit(last % 16);
      DecodePair(Hex(init), last / 16, last % 16);
      assert 16 * (last / 16) + last % 16 == last;
      assert init + [last] == bytes;
    }
  }

  lemma EmptyDecodes()
    ensures Decode([]) == Some([])
  {
  }

  /** What a database reads as the first quoted literal of an expression that has no doubled quotes. */
  function FirstLiteral(sql: string): Option<string> {
    if sql == [] then None else if sql[0] == '\'' then UpToQuote(sql[1..]) else FirstLiteral(sql[1..])
  }

  function UpToQuote(sql: string): Option<string> {
    if sql == [] then None
    else if sql[0] == '\'' then Some([])
    else
      match UpToQuote(sql[1..])
      case None => None
      case Some(s) => Some([sql[0]] + s)
  }

  lemma {:induction false} LiteralEnds(body: string, rest: string)
    requires forall i :: 0 <= i < |body| ==> body[i] != '\''
    ensures UpToQuote(body + (['\''] + rest)) == Some(body)
  {
    if body == [] {
      assert body + (['\''] + rest) == ['\''] + rest;
    } else {
      LiteralEnds(body[1..], rest);
      var sql := body + (['\''] + rest);
      assert sql[0] == body[0] && sql[1..] == body[1..] + (['\''] + rest);
      assert [body[0]] + body[1..] == body;
    }
  }

  lemma {:induction false} LiteralStarts(before: string, rest: string)
    requires forall i :: 0 <= i < |before| ==> before[i] != '\''
    ensures FirstLiteral(before + (['\''] + rest)) == UpToQuote(rest)
  {
    if before == [] {
      assert before + (['\''] + rest) == ['\''] + rest;
      assert (['\''] + rest)[1..] == rest;
    } else {
      LiteralStarts(before[1..], rest);
      var sql := before + (['\''] + rest);
      assert sql[0] == before[0] && sql[1..] == before[1..] + (['\''] + rest);
    }
  }

  /** The database decodes the expression's first literal to the exact bytes of the text. */
  lemma SqlTextCarriesBytes(bytes: Bytes)
    ensures FirstLiteral(SqlText(bytes)).Some? && Decode(FirstLiteral(SqlText(bytes)).value) == Some(bytes)
  {
    hide Hex, Decode, FirstLiteral, UpToQuote;
    HexRoundTrip(bytes);
    LiteralEnds(Hex(bytes), SQL_TAIL);
    LiteralStarts(SQL_HEAD, Hex(bytes) + (['\''] + SQL_TAIL));
    assert SqlText(bytes) == SQL_HEAD + (['\''] + (Hex(bytes) + (['\''] + SQL_TAIL)));
  }
}
