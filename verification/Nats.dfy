/** The incremental NATS frame parser of the JavaScript child, and the data loop around it. */
module Nats {
  import opened Wrappers
  import opened Utf8

  const CR: Byte := 13
  const LF: Byte := 10
  const SPACE: Byte := 32
  const PLUS: Byte := 43
  const MINUS: Byte := 45
  const OK: Bytes := [43, 79, 75]
  const INFO: Bytes := [73, 78, 70, 79]
  const PING: Bytes := [80, 73, 78, 71]
  const PONG: Bytes := [80, 79, 78, 71]
  const ERR: Bytes := [45, 69, 82, 82]
  const MSG: Bytes := [77, 83, 71, 32]

  // ---- lines ----

  /** The first position of CR LF, if any. */
  function Crlf(b: Bytes): (e: Option<nat>)
    ensures e.Some? ==> e.value + 2 <= |b| && b[e.value] == CR && b[e.value + 1] == LF
    ensures e.Some? ==> forall i :: 0 <= i < e.value ==> !(b[i] == CR && b[i + 1] == LF)
    ensures e.None? ==> forall i :: 0 <= i < |b| - 1 ==> !(b[i] == CR && b[i + 1] == LF)
  {
    if |b| < 2 then None
    else if b[0] == CR && b[1] == LF then Some(0)
    else
      assert forall i :: 0 < i < |b| - 1 ==> b[i] == b[1..][i - 1] && b[i + 1] == b[1..][i];
      match Crlf(b[1..])
      case None => None
      case Some(e) => Some(e + 1)
  }

  lemma CrlfIsUnique(b: Bytes, e: nat)
    requires e + 2 <= |b| && b[e] == CR && b[e + 1] == LF
    requires forall i :: 0 <= i < e ==> !(b[i] == CR && b[i + 1] == LF)
    ensures Crlf(b) == Some(e)
  {
  }

  /** What follows the last space. */
  function LastToken(line: Bytes): Bytes {
    if line == [] || line[|line| - 1] == SPACE then [] else LastToken(line[..|line| - 1]) + [line[|line| - 1]]
  }

  predicate Digit(b: Byte) { 48 <= b <= 57 }

  function Digits(b: Bytes, acc: nat): nat {
    if b == [] || !Digit(b[0]) then acc else Digits(b[1..], 10 * acc + (b[0] - 48))
  }

  function SkipBlanks(b: Bytes): Bytes {
    if b != [] && (9 <= b[0] <= 13 || b[0] == SPACE) then SkipBlanks(b[1..]) else b
  }

  /** `Number.parseInt(token, 10)`: None is not-a-number. */
  function ParseInt(token: Bytes): Option<int> {
    var b := SkipBlanks(token);
    var signed := b != [] && (b[0] == PLUS || b[0] == MINUS);
    var digits := if signed then b[1..] else b;
    if digits == [] || !Digit(digits[0]) then None
    else
      var value: int := Digits(digits, 0);
      Some(if signed && b[0] == MINUS then -value else value)
  }

  datatype Line = Ignored | Ping | ServerError | Msg(count: nat) | BadMsg

  function Classify(line: Bytes): Line {
    if line == [] || line == OK || INFO <= line || line == PONG then Ignored
    else if line == PING then Ping
    else if ERR <= line then ServerError
    else if MSG <= line then
      match ParseInt(LastToken(line))
      case None => BadMsg
      case Some(n) => if n < 0 then BadMsg else Msg(n)
    else Ignored
  }

  // ---- frames ----

  datatype Frame =
    | NeedMore(rest: Bytes)
    | PingFrame(rest: Bytes)
    | Payload(payload: Bytes, rest: Bytes)
    | Broken(line: Bytes)

  function ParseFrame(b: Bytes): Frame
    decreases |b|
  {
    match Crlf(b)
    case None => NeedMore(b)
    case Some(e) =>
      var line, after := b[..e], b[e + 2..];
      match Classify(line)
      case Ignored => ParseFrame(after)
      case Ping => PingFrame(after)
      case ServerError => Broken(line)
      case BadMsg => Broken(line)
      case Msg(n) =>
        if |after| < n + 2 then NeedMore(b[e - DecodedLength(line)..])
        else Payload(after[..n], after[n + 2..])
  }

  lemma {:induction false} ParsingShrinks(b: Bytes)
    ensures ParseFrame(b).PingFrame? ==> |ParseFrame(b).rest| < |b|
    ensures ParseFrame(b).NeedMore? ==> |ParseFrame(b).rest| <= |b|
    decreases |b|
  {
    if Crlf(b).Some? { ParsingShrinks(b[Crlf(b).value + 2..]); }
  }

  datatype Reply = Got(payload: Bytes) | Error(line: Bytes)

  datatype Conn = Conn(buffer: Bytes, pongs: nat, settled: Option<Reply>)

  const FRESH := Conn([], 0, None)

  function Drain(c: Conn): Conn
    decreases |c.buffer|
  {
    if c.buffer == [] then c
    else
      ParsingShrinks(c.buffer);
      match ParseFrame(c.buffer)
      case NeedMore(rest) => c.(buffer := rest)
      case PingFrame(rest) => Drain(c.(buffer := rest, pongs := c.pongs + 1))
      case Payload(payload, rest) => c.(buffer := rest, settled := Some(Got(payload)))
      case Broken(line) => c.(settled := Some(Error(line)))
  }

  /** One `data` event; a settled request has destroyed its socket and hears nothing more. */
  function OnData(c: Conn, chunk: Bytes): Conn {
    if c.settled.Some? then c else Drain(c.(buffer := c.buffer + chunk))
  }

  function Feed(chunks: seq<Bytes>): Conn {
    if chunks == [] then FRESH else OnData(Feed(chunks[..|chunks| - 1]), chunks[|chunks| - 1])
  }

  function Concat(chunks: seq<Bytes>): Bytes {
    if chunks == [] then [] else Concat(chunks[..|chunks| - 1]) + chunks[|chunks| - 1]
  }

  // ---- chunking does not matter, as long as message headers decode byte for byte ----

  /** The first MSG header that the parser meets, if any, has as many UTF-16 units as bytes. */
  predicate PlainHeader(b: Bytes)
    decreases |b|
  {
    match Crlf(b)
    case None => true
    case Some(e) =>
      match Classify(b[..e])
      case Msg(_) => DecodedLength(b[..e]) == e
      case ServerError => true
      case BadMsg => true
      case _ => PlainHeader(b[e + 2..])
  }

  lemma CrlfOfLonger(a: Bytes, b: Bytes)
    requires Crlf(a).Some?
    ensures Crlf(a + b) == Crlf(a)
    ensures var e := Crlf(a).value; (a + b)[..e] == a[..e] && (a + b)[e + 2..] == a[e + 2..] + b
  {
    var e := Crlf(a).value;
    assert forall i :: 0 <= i < e + 2 ==> (a + b)[i] == a[i];
    CrlfIsUnique(a + b, e);
  }

  function WithMore(f: Frame, b: Bytes): Frame {
    match f
    case NeedMore(rest) => ParseFrame(rest + b)
    case PingFrame(rest) => PingFrame(rest + b)
    case Payload(payload, rest) => Payload(payload, rest + b)
    case Broken(line) => f
  }

  /** Parsing a prefix first and resuming with what was kept is the same as parsing the whole. */
  lemma {:induction false} ParsingResumes(a: Bytes, b: Bytes)
    requires PlainHeader(a)
    ensures ParseFrame(a + b) == WithMore(ParseFrame(a), b)
    decreases |a|
  {
    hide Crlf, Classify, DecodedLength;
    if Crlf(a).Some? {
      CrlfOfLonger(a, b);
      var e := Crlf(a).value;
      match Classify(a[..e]) {
        case Ignored => ParsingResumes(a[e + 2..], b);
        case Msg(n) =>
          var after := a[e + 2..];
          if |after| >= n + 2 {
            assert (after + b)[..n] == after[..n];
            assert (after + b)[n + 2..] == after[n + 2..] + b;
          }
        case _ =>
      }
    }
  }

  lemma {:induction false} PlainAfterPing(b: Bytes)
    requires PlainHeader(b) && ParseFrame(b).PingFrame?
    ensures PlainHeader(ParseFrame(b).rest)
    decreases |b|
  {
    var e := Crlf(b).value;
    if Classify(b[..e]).Ignored? { PlainAfterPing(b[e + 2..]); }
  }

  lemma NothingNeedsMore()
    ensures ParseFrame([]) == NeedMore([])
  {
  }

  /** Same replies, same outcome, and while nothing is settled the same buffer. */
  predicate Same(c: Conn, d: Conn) {
    c.pongs == d.pongs && c.settled == d.settled && (c.settled.None? ==> c.buffer == d.buffer)
  }

  lemma {:induction false} DrainingResumes(c: Conn, more: Bytes)
    requires c.settled.None? && PlainHeader(c.buffer)
    ensures Same(Drain(c.(buffer := c.buffer + more)), OnData(Drain(c), more))
    decreases |c.buffer|
  {
    hide Crlf, Classify, PlainHeader, ParseFrame, DecodedLength;
    if c.buffer == [] {
      assert c.buffer + more == more;
    } else {
      ParsingShrinks(c.buffer);
      ParsingResumes(c.buffer, more);
      match ParseFrame(c.buffer) {
        case PingFrame(rest) =>
          PlainAfterPing(c.buffer);
          DrainingResumes(c.(buffer := rest, pongs := c.pongs + 1), more);
        case NeedMore(rest) =>
          NothingNeedsMore();
        case _ =>
      }
    }
  }

  lemma {:induction false} PlainPrefix(a: Bytes, b: Bytes)
    requires PlainHeader(a + b)
    ensures PlainHeader(a)
    decreases |a|
  {
    if Crlf(a).Some? {
      CrlfOfLonger(a, b);
      var e := Crlf(a).value;
      match Classify(a[..e]) {
        case Ignored => PlainPrefix(a[e + 2..], b);
        case Ping => PlainPrefix(a[e + 2..], b);
        case _ =>
      }
    }
  }

  /**
   * However a stream is cut into chunks, the data loop sends the same PONGs and settles on the same first
   * payload or error as when the whole stream arrives at once, if what came before the last chunk has a plain header.
   */
  lemma {:induction false} ChunkingDoesNotMatter(chunks: seq<Bytes>)
    requires chunks != [] ==> PlainHeader(Concat(chunks[..|chunks| - 1]))
    ensures Same(Feed(chunks), OnData(FRESH, Concat(chunks)))
  {
    if chunks != [] {
      var init, last := chunks[..|chunks| - 1], chunks[|chunks| - 1];
      if init != [] { PlainPrefix(Concat(init[..|init| - 1]), init[|init| - 1]); }
      ChunkingDoesNotMatter(init);
      assert [] + Concat(init) == Concat(init) && [] + (Concat(init) + last) == Concat(init) + last;
      DrainingResumes(Conn(Concat(init), 0, None), last);
    }
  }

  /** The first MSG header line that the parser meets, if any, is ASCII; payloads may be anything. */
  predicate AsciiHeader(b: Bytes)
    decreases |b|
  {
    match Crlf(b)
    case None => true
    case Some(e) =>
      match Classify(b[..e])
      case Msg(_) => forall i :: 0 <= i < e ==> b[i] < 128
      case ServerError => true
      case BadMsg => true
      case _ => AsciiHeader(b[e + 2..])
  }

  lemma {:induction false} AsciiHeaderIsPlain(b: Bytes)
    requires AsciiHeader(b)
    ensures PlainHeader(b)
    decreases |b|
  {
    hide Crlf, Classify;
    if Crlf(b).Some? {
      var e := Crlf(b).value;
      match Classify(b[..e]) {
        case Msg(_) => AsciiLength(b[..e]);
        case Ignored => AsciiHeaderIsPlain(b[e + 2..]);
        case Ping => AsciiHeaderIsPlain(b[e + 2..]);
        case _ =>
      }
    }
  }

  // ---- exactly which streams are kept on frame boundaries ----

  /** `rest` is what remains of `b` after some whole lines and whole messages. */
  predicate Boundary(b: Bytes, rest: Bytes)
    decreases |b|
  {
    b == rest
    || match Crlf(b) {
         case None => false
         case Some(e) =>
           var after := b[e + 2..];
           match Classify(b[..e])
           case ServerError => false
           case BadMsg => false
           case Msg(n) => n + 2 <= |after| && Boundary(after[n + 2..], rest)
           case _ => Boundary(after, rest)
       }
  }

  /** After any part of the stream, an unsettled connection has kept a suffix that starts on a frame boundary. */
  ghost predicate KeepsBoundaries(b: Bytes) {
    forall k :: 0 <= k <= |b| ==> var c := OnData(FRESH, b[..k]); c.settled.None? ==> Boundary(b[..k], c.buffer)
  }

  lemma {:induction false} ParsingKeepsBoundary(b: Bytes)
    requires PlainHeader(b)
    ensures ParseFrame(b).NeedMore? || ParseFrame(b).PingFrame? ==> Boundary(b, ParseFrame(b).rest)
    ensures ParseFrame(b).PingFrame? ==> PlainHeader(ParseFrame(b).rest)
    decreases |b|
  {
    hide Crlf, Classify, DecodedLength;
    if Crlf(b).Some? && Classify(b[..Crlf(b).value]).Ignored? {
      ParsingKeepsBoundary(b[Crlf(b).value + 2..]);
    }
  }

  lemma {:induction false} BoundariesChain(a: Bytes, b: Bytes, c: Bytes)
    requires Boundary(a, b) && Boundary(b, c)
    ensures Boundary(a, c)
    decreases |a|
  {
    hide Crlf, Classify;
    if a != b {
      var e := Crlf(a).value;
      match Classify(a[..e])
      case Msg(n) => BoundariesChain(a[e + 2..][n + 2..], b, c);
      case Ignored => BoundariesChain(a[e + 2..], b, c);
      case Ping => BoundariesChain(a[e + 2..], b, c);
      case ServerError =>
      case BadMsg =>
    }
  }

  lemma {:induction false} DrainingKeepsBoundary(c: Conn)
    requires c.settled.None? && PlainHeader(c.buffer)
    ensures Drain(c).settled.None? ==> Boundary(c.buffer, Drain(c).buffer)
    decreases |c.buffer|
  {
    hide Crlf, Classify, ParseFrame, PlainHeader, Boundary;
    if c.buffer == [] {
      EveryBufferIsItsBoundary(c.buffer);
    } else {
      ParsingShrinks(c.buffer);
      ParsingKeepsBoundary(c.buffer);
      if ParseFrame(c.buffer).PingFrame? {
        var d := c.(buffer := ParseFrame(c.buffer).rest, pongs := c.pongs + 1);
        DrainingKeepsBoundary(d);
        if Drain(d).settled.None? { BoundariesChain(c.buffer, d.buffer, Drain(d).buffer); }
      }
    }
  }

  lemma EveryBufferIsItsBoundary(b: Bytes)
    ensures Boundary(b, b)
  {
  }

  ghost predicate LosesBoundary(b: Bytes, c: Conn) {
    var d := Drain(c.(buffer := b));
    d.settled.None? && 0 < |d.buffer| < |b| && !Boundary(b, d.buffer)
  }

  /** A header that shrinks when decoded, cut right behind its line, leaves the parser inside that line. */
  lemma CutBehindHeader(b: Bytes, c: Conn)
    requires c.settled.None? && Crlf(b).Some? && |b| == Crlf(b).value + 2
    requires var line := b[..Crlf(b).value]; Classify(line).Msg? && DecodedLength(line) < |line|
    ensures LosesBoundary(b, c)
  {
    hide Crlf, Classify, DecodedLength;
    var e := Crlf(b).value;
    assert b[e + 2..] == [];
    assert ParseFrame(b) == NeedMore(b[e - DecodedLength(b[..e])..]);
  }

  lemma SameFrameSameDrain(c: Conn, a: Bytes, b: Bytes)
    requires a != [] && b != [] && ParseFrame(a) == ParseFrame(b)
    ensures !ParseFrame(a).Broken? ==> Drain(c.(buffer := a)) == Drain(c.(buffer := b))
    ensures ParseFrame(a).Broken? ==> Drain(c.(buffer := a)).settled.Some? && Drain(c.(buffer := b)).settled.Some?
  {
    hide ParseFrame;
    ParsingShrinks(a);
    ParsingShrinks(b);
  }

  lemma LosesBoundaryLater(b: Bytes, c: Conn, d: Conn)
    requires Crlf(b).Some? && c.settled.None?
    requires var after, line := b[Crlf(b).value + 2..], Classify(b[..Crlf(b).value]);
             && LosesBoundary(after, d)
             && ((line.Ignored? && d == c) || (line.Ping? && d == c.(pongs := c.pongs + 1)))
    ensures LosesBoundary(b, c)
  {
    hide Crlf, Classify, DecodedLength, Drain;
    var after := b[Crlf(b).value + 2..];
    var line := Classify(b[..Crlf(b).value]);
    if line.Ignored? {
      assert ParseFrame(b) == ParseFrame(after);
      SameFrameSameDrain(c, b, after);
    } else {
      PingThenDrain(b, after, c);
    }
  }

  lemma PingThenDrain(b: Bytes, rest: Bytes, c: Conn)
    requires b != [] && ParseFrame(b) == PingFrame(rest)
    ensures Drain(c.(buffer := b)) == Drain(c.(buffer := rest, pongs := c.pongs + 1))
  {
    hide ParseFrame;
    ParsingShrinks(b);
  }

  lemma {:induction false} ShrinkingHeaderLosesBoundary(b: Bytes, c: Conn) returns (k: nat)
    requires !PlainHeader(b) && c.settled.None?
    ensures k <= |b| && LosesBoundary(b[..k], c)
    decreases |b|
  {
    hide Crlf, Classify, DecodedLength, LosesBoundary;
    var e := Crlf(b).value;
    if Classify(b[..e]).Msg? {
      k := e + 2;
      LineAlone(b, k);
      CutBehindHeader(b[..k], c);
    } else {
      var d := if Classify(b[..e]).Ping? then c.(pongs := c.pongs + 1) else c;
      var j := ShrinkingHeaderLosesBoundary(b[e + 2..], d);
      k := e + 2 + j;
      LineAlone(b, k);
      assert b[..k][e + 2..] == b[e + 2..][..j];
      LosesBoundaryLater(b[..k], c, d);
    }
  }

  lemma LineAlone(b: Bytes, k: nat)
    requires Crlf(b).Some? && Crlf(b).value + 2 <= k <= |b|
    ensures Crlf(b[..k]) == Crlf(b) && b[..k][..Crlf(b).value] == b[..Crlf(b).value]
  {
    CrlfIsUnique(b[..k], Crlf(b).value);
  }

  /** The parser always resumes on a frame boundary exactly when the stream's message header is plain. */
  lemma BoundariesAreKeptExactlyForPlainHeaders(b: Bytes)
    ensures KeepsBoundaries(b) <==> PlainHeader(b)
  {
    hide Crlf, Classify, ParseFrame, PlainHeader, Boundary, Drain;
    if PlainHeader(b) {
      forall k | 0 <= k <= |b|
        ensures var c := OnData(FRESH, b[..k]); c.settled.None? ==> Boundary(b[..k], c.buffer)
      {
        assert b[..k] + b[k..] == b;
        PlainPrefix(b[..k], b[k..]);
        assert [] + b[..k] == b[..k];
        DrainingKeepsBoundary(Conn(b[..k], 0, None));
      }
    } else {
      var k := ShrinkingHeaderLosesBoundary(b, FRESH);
      assert [] + b[..k] == b[..k];
      assert !Boundary(b[..k], OnData(FRESH, b[..k]).buffer);
    }
  }

  // ---- exactly which headers may be cut anywhere ----

  const EOL: Bytes := [CR, LF]

  /** `line` is the first message header that the parser meets, and nothing has come behind it yet. */
  predicate EndsBehindHeader(b: Bytes, line: Bytes)
    decreases |b|
  {
    match Crlf(b)
    case None => false
    case Some(e) =>
      match Classify(b[..e])
      case Msg(_) => line == b[..e] && |b| == e + 2
      case ServerError => false
      case BadMsg => false
      case _ => EndsBehindHeader(b[e + 2..], line)
  }

  /** The PINGs before the header. */
  function Pings(b: Bytes): nat
    decreases |b|
  {
    match Crlf(b)
    case None => 0
    case Some(e) =>
      match Classify(b[..e])
      case Ignored => Pings(b[e + 2..])
      case Ping => 1 + Pings(b[e + 2..])
      case _ => 0
  }

  /** What the parser keeps of a header line: as many bytes from its end as it has UTF-16 units. */
  function Strip(line: Bytes): Bytes {
    line[|line| - DecodedLength(line)..]
  }

  function StripTimes(line: Bytes, times: nat): Bytes {
    if times == 0 then line else Strip(StripTimes(line, times - 1))
  }

  /** The line still reads as a message header after being stripped up to this many times. */
  predicate Survives(line: Bytes, times: nat) {
    Classify(StripTimes(line, times)).Msg? && (times > 0 ==> Survives(line, times - 1))
  }

  predicate SameOutcome(c: Conn, d: Conn) {
    c.pongs == d.pongs && c.settled == d.settled
  }

  /** Data events carry at least one byte. */
  predicate NonEmpty(chunks: seq<Bytes>) {
    forall chunk <- chunks :: chunk != []
  }

  /** Whatever follows `b` and however it all arrives, the PONGs and the outcome are those of one single data event. */
  ghost predicate Harmless(b: Bytes) {
    forall more, chunks | Concat(chunks) == b + more && NonEmpty(chunks) ::
      SameOutcome(Feed(chunks), OnData(FRESH, b + more))
  }

  // -- one header line and what has arrived behind it --

  predicate CleanLine(line: Bytes) {
    Crlf(line + EOL) == Some(|line|)
  }

  lemma SuffixIsClean(line: Bytes, k: nat)
    requires CleanLine(line) && k <= |line|
    ensures CleanLine(line[k..])
  {
    assert (line + EOL)[k..] == line[k..] + EOL;
    CrlfIsUnique(line[k..] + EOL, |line| - k);
  }

  lemma {:induction false} StripsAreSuffixes(line: Bytes, times: nat) returns (k: nat)
    ensures k <= |line| && StripTimes(line, times) == line[k..]
  {
    if times == 0 {
      k := 0;
    } else {
      hide DecodedLength, StripTimes;
      var j := StripsAreSuffixes(line, times - 1);
      OneMoreStrip(line, times);
      StripAt(line, j);
      k := j + (|line| - j - DecodedLength(line[j..]));
    }
  }

  lemma StripAt(line: Bytes, j: nat)
    requires j <= |line|
    ensures Strip(line[j..]) == line[j + (|line| - j - DecodedLength(line[j..]))..]
  {
    hide DecodedLength;
  }

  lemma OneMoreStrip(line: Bytes, times: nat)
    requires times > 0
    ensures StripTimes(line, times) == Strip(StripTimes(line, times - 1))
  {
    hide Strip;
  }

  lemma {:induction false} LastTokenOfSuffix(a: Bytes, b: Bytes)
    requires SPACE in b
    ensures LastToken(a + b) == LastToken(b)
    decreases |b|
  {
    assert (a + b)[..|a + b| - 1] == a + b[..|b| - 1];
    if b[|b| - 1] != SPACE {
      assert b == b[..|b| - 1] + [b[|b| - 1]];
      LastTokenOfSuffix(a, b[..|b| - 1]);
    }
  }

  lemma MsgLineIsHeader(line: Bytes)
    requires MSG <= line
    ensures SPACE in line
    ensures Classify(line) == match ParseInt(LastToken(line)) {
              case None => BadMsg
              case Some(n) => if n < 0 then BadMsg else Msg(n)
            }
  {
    hide ParseInt, LastToken;
    assert line[0] == 77 && line[3] == SPACE;
  }

  lemma OtherLineIsNoHeader(line: Bytes)
    requires !(MSG <= line)
    ensures Classify(line).Ignored? || Classify(line).Ping? || Classify(line).ServerError?
  {
  }

  lemma HeaderStartsWithMsg(line: Bytes)
    requires Classify(line).Msg?
    ensures MSG <= line
  {
  }

  /** What is left of a header announces the same size, or is no message header at all. */
  lemma SuffixAnnouncesTheSame(line: Bytes, k: nat, n: nat)
    requires Classify(line) == Msg(n) && k <= |line|
    ensures MSG <= line[k..] ==> Classify(line[k..]) == Msg(n)
    ensures !(MSG <= line[k..]) ==>
      Classify(line[k..]).Ignored? || Classify(line[k..]).Ping? || Classify(line[k..]).ServerError?
  {
    hide Classify, ParseInt, LastToken;
    HeaderStartsWithMsg(line);
    MsgLineIsHeader(line);
    if MSG <= line[k..] {
      MsgLineIsHeader(line[k..]);
      assert line == line[..k] + line[k..];
      LastTokenOfSuffix(line[..k], line[k..]);
    } else {
      OtherLineIsNoHeader(line[k..]);
    }
  }

  lemma LineThenMore(line: Bytes, more: Bytes)
    requires CleanLine(line)
    ensures var b := line + EOL + more;
            Crlf(b) == Some(|line|) && b[..|line|] == line && b[|line| + 2..] == more
            && b[|line| - DecodedLength(line)..] == Strip(line) + EOL + more
  {
    hide Crlf, DecodedLength;
    CrlfOfLonger(line + EOL, more);
    assert (line + EOL)[..|line|] == line && (line + EOL)[|line| + 2..] == [];
    assert [] + more == more;
  }

  lemma HeaderDrains(c: Conn, line: Bytes, n: nat, more: Bytes)
    requires CleanLine(line) && Classify(line) == Msg(n)
    ensures Drain(c.(buffer := line + EOL + more)) ==
      if |more| < n + 2 then c.(buffer := Strip(line) + EOL + more)
      else c.(buffer := more[n + 2..], settled := Some(Got(more[..n])))
  {
    hide Crlf, Classify, DecodedLength, CleanLine, Strip;
    LineThenMore(line, more);
  }

  // -- what comes before the header --

  lemma HeaderIsClean(b: Bytes, line: Bytes)
    requires EndsBehindHeader(b, line)
    ensures CleanLine(line) && Classify(line).Msg?
    decreases |b|
  {
    hide Classify;
    var e := Crlf(b).value;
    if Classify(b[..e]).Msg? {
      assert b == line + EOL;
    } else {
      HeaderIsClean(b[e + 2..], line);
    }
  }

  lemma {:induction false} NothingBreaksBefore(b: Bytes, line: Bytes, more: Bytes)
    requires EndsBehindHeader(b, line)
    ensures !ParseFrame(b + more).Broken?
    decreases |b|
  {
    hide Crlf, Classify, DecodedLength;
    CrlfOfLonger(b, more);
    var e := Crlf(b).value;
    if Classify(b[..e]).Ignored? { NothingBreaksBefore(b[e + 2..], line, more); }
  }

  lemma FirstLineBefore(b: Bytes, line: Bytes)
    requires EndsBehindHeader(b, line)
    ensures Crlf(b).Some?
    ensures var first := Classify(b[..Crlf(b).value]); first.Msg? || first.Ignored? || first.Ping?
  {
    hide Crlf, Classify;
  }

  lemma HeaderComesFirst(b: Bytes, line: Bytes)
    requires EndsBehindHeader(b, line) && Classify(b[..Crlf(b).value]).Msg?
    ensures b == line + EOL && Pings(b) == 0
  {
    hide Crlf, Classify;
    LastTwoBytes(b, line);
  }

  lemma IgnoredThenDrain(c: Conn, b: Bytes, line: Bytes, more: Bytes)
    requires EndsBehindHeader(b, line) && Classify(b[..Crlf(b).value]).Ignored?
    ensures var after := b[Crlf(b).value + 2..];
            && EndsBehindHeader(after, line) && Pings(b) == Pings(after)
            && Drain(c.(buffer := b + more)) == Drain(c.(buffer := after + more))
  {
    hide Crlf, Classify, DecodedLength, Drain;
    CrlfOfLonger(b, more);
    var after := b[Crlf(b).value + 2..];
    NothingBreaksBefore(after, line, more);
    assert ParseFrame(b + more) == ParseFrame(after + more);
    NoHeaderInNothing(after, line);
    SameFrameSameDrain(c, b + more, after + more);
  }

  lemma PingedThenDrain(c: Conn, b: Bytes, line: Bytes, more: Bytes)
    requires EndsBehindHeader(b, line) && Classify(b[..Crlf(b).value]).Ping?
    ensures var after := b[Crlf(b).value + 2..];
            && EndsBehindHeader(after, line) && Pings(b) == 1 + Pings(after)
            && Drain(c.(buffer := b + more)) == Drain(c.(buffer := after + more, pongs := c.pongs + 1))
  {
    hide Crlf, Classify, DecodedLength, Drain;
    CrlfOfLonger(b, more);
    var after := b[Crlf(b).value + 2..];
    assert ParseFrame(b + more) == PingFrame(after + more);
    PingThenDrain(b + more, after + more, c);
  }

  lemma {:induction false} PrefixDrains(c: Conn, b: Bytes, line: Bytes, more: Bytes)
    requires EndsBehindHeader(b, line) && c.settled.None?
    ensures Drain(c.(buffer := b + more))
         == Drain(c.(buffer := line + EOL + more, pongs := c.pongs + Pings(b)))
    decreases |b|
  {
    hide Crlf, Classify, DecodedLength, Drain, EndsBehindHeader, Pings;
    FirstLineBefore(b, line);
    var e := Crlf(b).value;
    match Classify(b[..e]) {
      case Msg(_) => HeaderComesFirst(b, line);
      case Ignored =>
        IgnoredThenDrain(c, b, line, more);
        PrefixDrains(c, b[e + 2..], line, more);
      case Ping =>
        PingedThenDrain(c, b, line, more);
        PrefixDrains(c.(pongs := c.pongs + 1), b[e + 2..], line, more);
      case _ =>
    }
  }

  lemma LastTwoBytes(b: Bytes, line: Bytes)
    requires Crlf(b).Some? && |b| == Crlf(b).value + 2 && line == b[..Crlf(b).value]
    ensures b == line + EOL
  {
  }

  lemma {:induction false} BeforeHeaderIsPlain(b: Bytes, line: Bytes, k: nat)
    requires EndsBehindHeader(b, line) && k < |b|
    ensures PlainHeader(b[..k])
    decreases |b|
  {
    hide Classify, DecodedLength;
    if Crlf(b[..k]).Some? {
      CrlfOfLonger(b[..k], b[k..]);
      assert b[..k] + b[k..] == b;
      var e := Crlf(b).value;
      assert !Classify(b[..e]).Msg?;
      assert b[..k][e + 2..] == b[e + 2..][..k - e - 2] && b[..k][..e] == b[..e];
      BeforeHeaderIsPlain(b[e + 2..], line, k - e - 2);
    }
  }

  /** The whole stream in one data event. */
  lemma WholeOutcome(b: Bytes, line: Bytes, n: nat, more: Bytes)
    requires EndsBehindHeader(b, line) && Classify(line) == Msg(n)
    ensures OnData(FRESH, b + more) ==
      if |more| < n + 2 then Conn(Strip(line) + EOL + more, Pings(b), None)
      else Conn(more[n + 2..], Pings(b), Some(Got(more[..n])))
  {
    hide Crlf, Classify, DecodedLength, Drain, EndsBehindHeader, Strip;
    assert [] + (b + more) == b + more;
    PrefixDrains(FRESH, b, line, more);
    HeaderIsClean(b, line);
    HeaderDrains(Conn([], Pings(b), None), line, n, more);
  }

  // -- any cutting, as long as the header survives it --

  /** A connection that has stripped its header some times, with `more` behind it. */
  function Stripped(b: Bytes, line: Bytes, times: nat, more: Bytes): Conn {
    Conn(StripTimes(line, times) + EOL + more, Pings(b), None)
  }

  /** One more data event behind the header. */
  lemma NextEvent(b: Bytes, line: Bytes, n: nat, times: nat, more: Bytes, chunk: Bytes)
    requires CleanLine(line) && Classify(line) == Msg(n) && Classify(StripTimes(line, times)).Msg?
    ensures var c := OnData(Stripped(b, line, times, more), chunk);
            if |more + chunk| < n + 2 then c == Stripped(b, line, times + 1, more + chunk)
            else c.pongs == Pings(b) && c.settled == Some(Got((more + chunk)[..n]))
  {
    hide Crlf, Classify, DecodedLength, CleanLine, Strip, Drain;
    var k := StripsAreSuffixes(line, times);
    var kept := StripTimes(line, times);
    SuffixIsClean(line, k);
    SuffixAnnouncesTheSame(line, k, n);
    HeaderStartsWithMsg(kept);
    assert kept + EOL + more + chunk == kept + EOL + (more + chunk);
    HeaderDrains(Conn([], Pings(b), None), kept, n, more + chunk);
  }

  lemma {:induction false} SurvivesLess(line: Bytes, times: nat, fewer: nat)
    requires Survives(line, times) && fewer <= times
    ensures Survives(line, fewer)
  {
    hide Classify, StripTimes;
    if fewer < times { SurvivesLess(line, times - 1, fewer); }
  }

  /** The state after any non-empty chunks that have completed the header, if the header survives n + 2 strips. */
  lemma {:induction false} FeedBehindHeader(chunks: seq<Bytes>, b: Bytes, line: Bytes, n: nat) returns (times: nat)
    requires EndsBehindHeader(b, line) && Classify(line) == Msg(n) && Survives(line, n + 2)
    requires NonEmpty(chunks) && b <= Concat(chunks)
    ensures var more := Concat(chunks)[|b|..];
            && (|more| < n + 2 ==> times <= |more| + 1 && Feed(chunks) == Stripped(b, line, times, more))
            && (|more| >= n + 2 ==> Feed(chunks).pongs == Pings(b) && Feed(chunks).settled == Some(Got(more[..n])))
    decreases |chunks|
  {
    hide Classify, DecodedLength, Drain, Survives, Strip, EndsBehindHeader, OnData;
    HeaderIsClean(b, line);
    if chunks == [] {
      times := 0;
      NoHeaderInNothing(b, line);
    } else {
      var init, last := chunks[..|chunks| - 1], chunks[|chunks| - 1];
      var all := Concat(chunks);
      if |Concat(init)| < |b| {
        times := 1;
        assert Concat(init) == b[..|Concat(init)|];
        BeforeHeaderIsPlain(b, line, |Concat(init)|);
        ChunkingDoesNotMatter(chunks);
        assert all == b + all[|b|..];
        WholeOutcome(b, line, n, all[|b|..]);
        assert StripTimes(line, 1) == Strip(StripTimes(line, 0));
      } else {
        assert b <= Concat(init) by { assert Concat(init) == all[..|Concat(init)|]; }
        assert forall chunk <- init :: chunk in chunks;
        times := FeedBehindHeader(init, b, line, n);
        assert last in chunks;
        BehindByOne(init, last, b, line, n, times);
        times := times + 1;
      }
    }
  }

  lemma NoHeaderInNothing(b: Bytes, line: Bytes)
    requires EndsBehindHeader(b, line)
    ensures |b| >= 2
  {
  }

  lemma BehindByOne(init: seq<Bytes>, last: Bytes, b: Bytes, line: Bytes, n: nat, times: nat)
    requires CleanLine(line) && Classify(line) == Msg(n) && Survives(line, n + 2) && b <= Concat(init) && last != []
    requires var more := Concat(init)[|b|..];
             && (|more| < n + 2 ==> times <= |more| + 1 && Feed(init) == Stripped(b, line, times, more))
             && (|more| >= n + 2 ==> Feed(init).pongs == Pings(b) && Feed(init).settled == Some(Got(more[..n])))
    ensures var more, c := (Concat(init) + last)[|b|..], OnData(Feed(init), last);
            && (|more| < n + 2 ==> times + 1 <= |more| + 1 && c == Stripped(b, line, times + 1, more))
            && (|more| >= n + 2 ==> c.pongs == Pings(b) && c.settled == Some(Got(more[..n])))
  {
    hide Classify, DecodedLength, Drain, Strip, CleanLine, Feed, StripTimes;
    var more := Concat(init)[|b|..];
    assert (Concat(init) + last)[|b|..] == more + last;
    if |more| >= n + 2 {
      assert (more + last)[..n] == more[..n];
    } else {
      SurvivesLess(line, n + 2, times);
      NextEvent(b, line, n, times, more, last);
    }
  }

  // -- a cutting that loses the message, if the header does not survive --

  function Xs(n: nat): Bytes {
    seq(n, _ => 88)
  }

  lemma XsAreIgnored(n: nat)
    ensures CleanLine(Xs(n)) && Classify(Xs(n)).Ignored? && ParseFrame(Xs(n) + EOL) == NeedMore([])
  {
    hide Crlf, DecodedLength, ParseInt, LastToken;
    CrlfIsUnique(Xs(n) + EOL, n);
    XsMeanNothing(n);
    assert (Xs(n) + EOL)[..n] == Xs(n) && (Xs(n) + EOL)[n + 2..] == [];
    NothingNeedsMore();
  }

  lemma XsMeanNothing(n: nat)
    ensures Classify(Xs(n)).Ignored?
  {
    hide ParseInt, LastToken;
    if n > 0 { assert Xs(n)[0] == 88; }
  }

  /** A line that is no header, and then a body of no meaning, never settle on a payload. */
  lemma MisreadLosesMessage(c: Conn, line: Bytes, n: nat)
    requires c.settled.None? && CleanLine(line)
    requires Classify(line).Ignored? || Classify(line).Ping? || Classify(line).ServerError?
    ensures var d := Drain(c.(buffer := line + EOL + (Xs(n) + EOL)));
            if Classify(line).ServerError? then d.settled == Some(Error(line)) else d.settled.None?
  {
    hide Crlf, Classify, DecodedLength, CleanLine, Drain, Xs;
    var body := Xs(n) + EOL;
    LineThenMore(line, body);
    XsAreIgnored(n);
    IgnoredDrains(c, body);
    IgnoredDrains(c.(pongs := c.pongs + 1), body);
    var b := line + EOL + body;
    match Classify(line) {
      case Ignored =>
        assert ParseFrame(b) == ParseFrame(body);
        SameFrameSameDrain(c, b, body);
      case Ping => PingThenDrain(b, body, c);
      case _ => BrokenDrains(c, b, line);
    }
  }

  lemma IgnoredDrains(c: Conn, body: Bytes)
    requires c.settled.None? && ParseFrame(body) == NeedMore([])
    ensures Drain(c.(buffer := body)).settled.None?
  {
    hide ParseFrame;
  }

  lemma BrokenDrains(c: Conn, b: Bytes, line: Bytes)
    requires b != [] && ParseFrame(b) == Broken(line)
    ensures Drain(c.(buffer := b)).settled == Some(Error(line))
  {
    hide ParseFrame;
  }

  lemma {:induction false} FeedCuts(b: Bytes, line: Bytes, n: nat, cuts: seq<Bytes>)
    requires EndsBehindHeader(b, line) && Classify(line) == Msg(n)
    requires Survives(line, |cuts|) && |Concat(cuts)| < n + 2
    ensures Feed([b] + cuts) == Stripped(b, line, |cuts| + 1, Concat(cuts)) && Concat([b] + cuts) == b + Concat(cuts)
    decreases |cuts|
  {
    hide Classify, DecodedLength, Drain, Strip, EndsBehindHeader, OnData;
    if cuts == [] {
      assert [b] + cuts == [b] && [b][..0] == [];
      assert b + [] == b;
      assert [] + b == b;
      WholeOutcome(b, line, n, []);
      assert StripTimes(line, 1) == Strip(StripTimes(line, 0));
    } else {
      var init, last := cuts[..|cuts| - 1], cuts[|cuts| - 1];
      assert ([b] + cuts)[..|cuts|] == [b] + init;
      FeedCuts(b, line, n, init);
      HeaderIsClean(b, line);
      NextEvent(b, line, n, |cuts|, Concat(init), last);
      assert b + Concat(init) + last == b + (Concat(init) + last);
    }
  }

  /** The rest of the body arrives at a header that has been stripped once too often. */
  lemma LastEventMisreads(b: Bytes, line: Bytes, n: nat, times: nat, some: Bytes, rest: Bytes)
    requires CleanLine(line) && Classify(line) == Msg(n) && !Classify(StripTimes(line, times)).Msg?
    requires some + rest == Xs(n) + EOL
    ensures var c := OnData(Stripped(b, line, times, some), rest);
            && c.settled != Some(Got(Xs(n)))
            && (Classify(StripTimes(line, times)).Ignored? ==> c.settled.None?)
  {
    hide Classify, DecodedLength, Drain, Strip, Xs, CleanLine, StripTimes;
    var kept := StripTimes(line, times);
    var k := StripsAreSuffixes(line, times);
    SuffixIsClean(line, k);
    SuffixAnnouncesTheSame(line, k, n);
    assert kept + EOL + some + rest == kept + EOL + (some + rest);
    MisreadLosesMessage(Conn([], Pings(b), None), kept, n);
  }

  lemma FeedLast(chunks: seq<Bytes>, last: Bytes)
    ensures Feed(chunks + [last]) == OnData(Feed(chunks), last) && Concat(chunks + [last]) == Concat(chunks) + last
  {
    assert (chunks + [last])[..|chunks|] == chunks;
  }

  /** Cut as often as it takes to make the header unreadable, and the message is lost. */
  lemma CutsLoseMessage(b: Bytes, line: Bytes, n: nat, cuts: seq<Bytes>)
    requires EndsBehindHeader(b, line) && Classify(line) == Msg(n)
    requires Survives(line, |cuts|) && !Classify(StripTimes(line, |cuts| + 1)).Msg?
    requires |Concat(cuts)| < n + 2 && Concat(cuts) == (Xs(n) + EOL)[..|Concat(cuts)|]
    ensures var body := Xs(n) + EOL;
            var chunks := [b] + cuts + [body[|Concat(cuts)|..]];
            && Concat(chunks) == b + body
            && OnData(FRESH, b + body).settled == Some(Got(Xs(n)))
            && Feed(chunks).settled != Some(Got(Xs(n)))
            && (Classify(StripTimes(line, |cuts| + 1)).Ignored? ==> Feed(chunks).settled.None?)
  {
    hide Classify, DecodedLength, Drain, Strip, EndsBehindHeader, Survives, Xs, CleanLine, StripTimes, Feed, Concat,
      OnData, Pings;
    var body := Xs(n) + EOL;
    XsHaveLength(n);
    var some, rest := Concat(cuts), body[|Concat(cuts)|..];
    assert some + rest == body && body[..n] == Xs(n) && b + some + rest == b + body;
    HeaderIsClean(b, line);
    WholeOutcome(b, line, n, body);
    FeedCuts(b, line, n, cuts);
    FeedLast([b] + cuts, rest);
    LastEventMisreads(b, line, n, |cuts| + 1, some, rest);
  }

  lemma XsHaveLength(n: nat)
    ensures |Xs(n)| == n
  {
  }

  lemma {:induction false} FirstFailure(line: Bytes, times: nat) returns (first: nat)
    requires Classify(line).Msg? && !Survives(line, times)
    ensures first < times && Survives(line, first) && !Classify(StripTimes(line, first + 1)).Msg?
  {
    hide Classify, DecodedLength, Strip;
    if Survives(line, times - 1) {
      first := times - 1;
    } else {
      first := FirstFailure(line, times - 1);
    }
  }

  function Singles(b: Bytes): seq<Bytes> {
    if b == [] then [] else Singles(b[..|b| - 1]) + [[b[|b| - 1]]]
  }

  lemma {:induction false} SinglesConcat(b: Bytes)
    ensures Concat(Singles(b)) == b && |Singles(b)| == |b| && NonEmpty(Singles(b))
  {
    if b != [] {
      SinglesConcat(b[..|b| - 1]);
      assert Singles(b)[..|Singles(b)| - 1] == Singles(b[..|b| - 1]);
      assert b == b[..|b| - 1] + [b[|b| - 1]];
    }
  }

  lemma SurvivingHeaderIsHarmless(b: Bytes, line: Bytes, n: nat, more: Bytes, chunks: seq<Bytes>)
    requires EndsBehindHeader(b, line) && Classify(line) == Msg(n) && Survives(line, n + 2)
    requires Concat(chunks) == b + more && NonEmpty(chunks)
    ensures SameOutcome(Feed(chunks), OnData(FRESH, b + more))
  {
    hide Classify, DecodedLength, Drain, Strip, EndsBehindHeader, Survives, OnData, Feed, NonEmpty, Concat, Pings;
    var _ := FeedBehindHeader(chunks, b, line, n);
    assert (b + more)[|b|..] == more;
    WholeOutcome(b, line, n, more);
  }

  lemma FailingHeaderIsHarmful(b: Bytes, line: Bytes, n: nat) returns (chunks: seq<Bytes>)
    requires EndsBehindHeader(b, line) && Classify(line) == Msg(n) && !Survives(line, n + 2)
    ensures Concat(chunks) == b + (Xs(n) + EOL) && NonEmpty(chunks)
    ensures !SameOutcome(Feed(chunks), OnData(FRESH, b + (Xs(n) + EOL)))
  {
    hide Classify, DecodedLength, Drain, Strip, EndsBehindHeader, Survives, OnData, Feed, Xs, Concat, Singles,
      StripTimes;
    var first := FirstFailure(line, n + 2);
    var body := Xs(n) + EOL;
    XsHaveLength(n);
    var cuts := Singles(body[..first]);
    SinglesConcat(body[..first]);
    CutsLoseMessage(b, line, n, cuts);
    chunks := [b] + cuts + [body[first..]];
    NoHeaderInNothing(b, line);
  }

  /**
   * A message may arrive in any pieces if and only if its header still reads as a message header after as many strips
   * as there can be data events before its body is complete: one for the header and one for each byte but the last.
   */
  lemma HarmlessExactlyIfHeaderSurvives(b: Bytes, line: Bytes, n: nat)
    requires EndsBehindHeader(b, line) && Classify(line) == Msg(n)
    ensures Harmless(b) <==> Survives(line, n + 2)
  {
    hide Classify, EndsBehindHeader, Survives, OnData, Feed, Xs, Concat, NonEmpty, SameOutcome;
    if Survives(line, n + 2) {
      forall more, chunks | Concat(chunks) == b + more && NonEmpty(chunks)
        ensures SameOutcome(Feed(chunks), OnData(FRESH, b + more))
      {
        SurvivingHeaderIsHarmless(b, line, n, more, chunks);
      }
    } else {
      var chunks := FailingHeaderIsHarmful(b, line, n);
    }
  }

  // -- plain headers survive, short ones that are not plain do not --

  lemma {:induction false} PlainLineSurvives(line: Bytes, times: nat)
    requires DecodedLength(line) == |line| && Classify(line).Msg?
    ensures StripTimes(line, times) == line && Survives(line, times)
  {
    hide Classify, DecodedLength;
    if times > 0 {
      PlainLineSurvives(line, times - 1);
      assert Strip(line) == line[0..];
    }
  }

  /** An ASCII byte is the start of a character. */
  lemma StripOfShrinking(line: Bytes)
    requires DecodedLength(line) < |line| && Classify(Strip(line)).Msg?
    ensures |Strip(line)| < |line| && DecodedLength(Strip(line)) < |Strip(line)|
  {
    hide Classify;
    var k := |line| - DecodedLength(line);
    HeaderStartsWithMsg(Strip(line));
    assert line[k] == Strip(line)[0] == 77;
    LengthSplits(line, k);
  }

  lemma {:induction false} StripsGetShorter(line: Bytes, times: nat)
    requires DecodedLength(line) < |line| && Survives(line, times)
    ensures DecodedLength(StripTimes(line, times)) < |StripTimes(line, times)| <= |line| - times
  {
    hide Classify, DecodedLength;
    if times > 0 {
      StripsGetShorter(line, times - 1);
      StripOfShrinking(StripTimes(line, times - 1));
    }
  }

  /** With a body at least about as long as its header, only a plain header is safe. */
  lemma HarmlessExactlyIfPlain(b: Bytes, line: Bytes, n: nat)
    requires EndsBehindHeader(b, line) && Classify(line) == Msg(n)
    ensures DecodedLength(line) == |line| ==> Harmless(b)
    ensures |line| < n + 6 ==> (Harmless(b) <==> DecodedLength(line) == |line|)
  {
    hide Classify, DecodedLength, Strip, EndsBehindHeader, Harmless, StripTimes;
    HarmlessExactlyIfHeaderSurvives(b, line, n);
    if DecodedLength(line) == |line| {
      PlainLineSurvives(line, n + 2);
    } else if Survives(line, n + 2) {
      assert DecodedLength(line) < |line|;
      StripsGetShorter(line, n + 2);
      HeaderStartsWithMsg(StripTimes(line, n + 2));
    }
  }

  /** If empty data events could happen too, only plain headers would be safe, whatever the size of the body. */
  lemma EmptyEventsLoseEveryOtherHeader(b: Bytes, line: Bytes, n: nat) returns (chunks: seq<Bytes>)
    requires EndsBehindHeader(b, line) && Classify(line) == Msg(n) && DecodedLength(line) < |line|
    ensures Concat(chunks) == b + (Xs(n) + EOL)
    ensures OnData(FRESH, Concat(chunks)).settled == Some(Got(Xs(n))) && Feed(chunks).settled != Some(Got(Xs(n)))
  {
    hide Classify, DecodedLength, Drain, Strip, EndsBehindHeader, Survives, OnData, Feed, Xs;
    if Survives(line, |line|) { StripsGetShorter(line, |line|); }
    var first := FirstFailure(line, |line|);
    var cuts: seq<Bytes> := seq(first, _ => []);
    NothingConcat(cuts);
    CutsLoseMessage(b, line, n, cuts);
    chunks := [b] + cuts + [(Xs(n) + EOL)[0..]];
  }

  lemma {:induction false} NothingConcat(cuts: seq<Bytes>)
    requires forall cut <- cuts :: cut == []
    ensures Concat(cuts) == []
  {
    if cuts != [] {
      var init := cuts[..|cuts| - 1];
      forall cut | cut in init ensures cut == [] { assert cut in cuts; }
      assert cuts[|cuts| - 1] in cuts;
      NothingConcat(init);
    }
  }

  // -- a header that is not plain and yet safe --

  /** The line "MSG MSG MSG éééé 0", for three levels: each strip takes off one "MSG ". */
  function Nested(levels: nat): Bytes {
    if levels == 0 then [195, 169, 195, 169, 195, 169, 195, 169, SPACE, 48] else MSG + Nested(levels - 1)
  }

  lemma TailShrinksByFour()
    ensures DecodedLength(Nested(0)) == 6 && |Nested(0)| == 10
  {
    hide DecodedLength;
    var tail := Nested(0);
    DecodesTwo(tail);
    DecodesTwo(tail[2..]);
    DecodesTwo(tail[4..]);
    DecodesTwo(tail[6..]);
    AsciiLength(tail[8..]);
    assert tail[2..][2..] == tail[4..] && tail[4..][2..] == tail[6..] && tail[6..][2..] == tail[8..];
  }

  lemma {:induction false} NestedShrinksByFour(levels: nat)
    ensures DecodedLength(Nested(levels)) == |Nested(levels)| - 4
    ensures levels > 0 ==> Strip(Nested(levels)) == Nested(levels - 1)
  {
    hide DecodedLength;
    if levels == 0 {
      TailShrinksByFour();
    } else {
      NestedShrinksByFour(levels - 1);
      AsciiPrefix(MSG, Nested(levels - 1));
    }
  }

  lemma {:induction false} NestedEndsInZero(levels: nat)
    ensures exists front :: Nested(levels) == front + [SPACE, 48]
    ensures forall i :: 0 <= i < |Nested(levels)| ==> Nested(levels)[i] != CR
  {
    if levels == 0 {
      assert Nested(0) == Nested(0)[..8] + [SPACE, 48];
    } else {
      NestedEndsInZero(levels - 1);
      var front :| Nested(levels - 1) == front + [SPACE, 48];
      assert Nested(levels) == (MSG + front) + [SPACE, 48];
    }
  }

  lemma ZeroParses()
    ensures LastToken([SPACE, 48]) == [48] && ParseInt([48]) == Some(0)
  {
    assert [SPACE, 48][..1] == [SPACE];
    assert LastToken([SPACE]) == [];
    assert Digits([48], 0) == 0;
  }

  lemma NestedIsMessageOfNone(levels: nat)
    requires levels > 0
    ensures Classify(Nested(levels)) == Msg(0) && CleanLine(Nested(levels))
  {
    hide LastToken, ParseInt, Classify, Crlf;
    NestedEndsInZero(levels);
    var front :| Nested(levels) == front + [SPACE, 48];
    LastTokenOfSuffix(front, [SPACE, 48]);
    ZeroParses();
    assert MSG <= Nested(levels);
    MsgLineIsHeader(Nested(levels));
    CrlfIsUnique(Nested(levels) + EOL, |Nested(levels)|);
  }

  lemma {:induction false} NestedSurvives(levels: nat, times: nat)
    requires times < levels
    ensures StripTimes(Nested(levels), times) == Nested(levels - times) && Survives(Nested(levels), times)
  {
    hide Classify, DecodedLength, Strip, Nested;
    NestedIsMessageOfNone(levels - times);
    if times > 0 {
      NestedSurvives(levels, times - 1);
      NestedShrinksByFour(levels - times + 1);
    }
  }

  /** A header need not be plain to be safe: this one announces no body and is over before it can be stripped up. */
  lemma NestedHeaderIsHarmless()
    ensures EndsBehindHeader(Nested(3) + EOL, Nested(3)) && Classify(Nested(3)) == Msg(0)
    ensures DecodedLength(Nested(3)) < |Nested(3)| && Harmless(Nested(3) + EOL)
  {
    hide Classify, Crlf, DecodedLength, Harmless, Strip, Nested;
    NestedIsMessageOfNone(3);
    NestedShrinksByFour(3);
    NestedSurvives(3, 2);
    assert (Nested(3) + EOL)[..|Nested(3)|] == Nested(3);
    HarmlessExactlyIfHeaderSurvives(Nested(3) + EOL, Nested(3), 0);
  }

  // -- a message that gets lost --

  /** The line "MSG _INBOX.a 1 é 1", a delivery that names a reply subject: 19 bytes, 18 UTF-16 units. */
  const LINE: Bytes := [77, 83, 71, 32, 95, 73, 78, 66, 79, 88, 46, 97, 32, 49, 32, 195, 169, 32, 49]

  lemma LineIsMessageOfOne()
    ensures Classify(LINE) == Msg(1)
  {
    hide LastToken, ParseInt, Classify;
    assert MSG <= LINE;
    MsgLineIsHeader(LINE);
    assert LINE == LINE[..17] + [SPACE, 49];
    LastTokenOfSuffix(LINE[..17], [SPACE, 49]);
    assert LastToken([SPACE, 49]) == [49] by { LastTokenOfTwo(); }
    assert ParseInt([49]) == Some(1) by { OneParses(); }
  }

  lemma LastTokenOfTwo()
    ensures LastToken([SPACE, 49]) == [49]
  {
    assert [SPACE, 49][..1] == [SPACE];
    assert LastToken([SPACE]) == [];
  }

  lemma OneParses()
    ensures ParseInt([49]) == Some(1)
  {
    assert Digits([49], 0) == 1;
  }

  lemma LineStartsAscii()
    ensures forall i :: 0 <= i < 15 ==> LINE[..15][i] < 128
  {
    assert forall i :: 0 <= i < 15 ==> LINE[..15][i] == LINE[i];
  }

  lemma LineShrinks()
    ensures DecodedLength(LINE) == 18 && Strip(LINE) == LINE[1..]
  {
    hide DecodedLength;
    assert LINE == LINE[..15] + LINE[15..];
    LineStartsAscii();
    AsciiPrefix(LINE[..15], LINE[15..]);
    assert LINE[15..][2..] == LINE[17..];
    DecodesTwo(LINE[15..]);
    AsciiLength(LINE[17..]);
  }

  lemma DecodesTwo(b: Bytes)
    requires |b| >= 2 && b[0] == 195 && b[1] == 169
    ensures DecodedLength(b) == 1 + DecodedLength(b[2..])
  {
    assert Taken(b) == 2;
  }

  lemma LineAloneEndsBehindHeader()
    ensures EndsBehindHeader(LINE + EOL, LINE)
  {
    hide Classify, Crlf, LINE;
    LineIsMessageOfOne();
    LineIsClean();
    assert (LINE + EOL)[..|LINE|] == LINE;
  }

  lemma LineIsClean()
    ensures CleanLine(LINE)
  {
    CrlfIsUnique(LINE + EOL, |LINE|);
  }

  lemma StrippedLineIsIgnored()
    ensures Classify(LINE[1..]).Ignored?
  {
    hide LastToken, ParseInt;
    assert LINE[1..][0] == 83;
  }

  /** "MSG _INBOX.a 1 é 1", cut behind its header line: the payload X is lost, though the whole stream delivers it. */
  lemma NonAsciiSubjectCutAfterHeader()
    ensures var header, body := LINE + EOL, [88] + EOL;
            && OnData(FRESH, Concat([header, body])).settled == Some(Got([88]))
            && Feed([header, body]).settled == None
  {
    hide Classify, DecodedLength, LINE, Strip, EndsBehindHeader, Drain, OnData, Feed;
    LineAloneEndsBehindHeader();
    LineIsMessageOfOne();
    LineShrinks();
    StrippedLineIsIgnored();
    assert StripTimes(LINE, 1) == Strip(StripTimes(LINE, 0));
    assert Survives(LINE, 0);
    CutsLoseMessage(LINE + EOL, LINE, 1, []);
    assert Xs(1) == [88];
    assert [LINE + EOL] + [] + [(Xs(1) + EOL)[0..]] == [LINE + EOL, [88] + EOL];
  }

  // ---- what the parser does with a text ----

  /** The decimal numeral of a number. */
  function Numeral(n: nat): Bytes {
    (if n < 10 then [] else Numeral(n / 10)) + [48 + n % 10]
  }

  predicate AllDigits(b: Bytes) {
    forall i :: 0 <= i < |b| ==> 48 <= b[i] <= 57
  }

  /** The number that a run of digits stands for: each place counts ten times the next. */
  function Value(digits: Bytes): nat
    requires AllDigits(digits)
  {
    if digits == [] then 0 else 10 * Value(digits[..|digits| - 1]) + (digits[|digits| - 1] - 48)
  }

  lemma {:induction false} NumeralMeans(n: nat)
    ensures Numeral(n) != [] && AllDigits(Numeral(n)) && Value(Numeral(n)) == n
  {
    if n >= 10 {
      NumeralMeans(n / 10);
      assert Numeral(n)[..|Numeral(n)| - 1] == Numeral(n / 10);
    } else {
      assert Numeral(n)[..0] == [];
    }
  }

  lemma {:induction false} DigitsMean(before: Bytes, digits: Bytes, rest: Bytes)
    requires AllDigits(before) && AllDigits(digits) && (rest == [] || !(48 <= rest[0] <= 57))
    ensures Digits(digits + rest, Value(before)) == Value(before + digits)
    decreases |digits|
  {
    if digits == [] {
      assert digits + rest == rest && before + digits == before;
    } else {
      var next := before + [digits[0]];
      assert next[..|before|] == before;
      assert (digits + rest)[1..] == digits[1..] + rest;
      assert before + digits == next + digits[1..];
      DigitsMean(next, digits[1..], rest);
    }
  }

  predicate AllBlank(b: Bytes) {
    forall i :: 0 <= i < |b| ==> 9 <= b[i] <= 13 || b[i] == 32
  }

  lemma {:induction false} BlanksAreSkipped(blanks: Bytes, rest: Bytes)
    requires AllBlank(blanks) && (rest == [] || !(9 <= rest[0] <= 13 || rest[0] == 32))
    ensures SkipBlanks(blanks + rest) == rest
  {
    if blanks == [] {
      assert blanks + rest == rest;
    } else {
      assert (blanks + rest)[1..] == blanks[1..] + rest;
      BlanksAreSkipped(blanks[1..], rest);
    }
  }

  lemma SignedNumber(token: Bytes, sign: Bytes, number: Bytes)
    requires SkipBlanks(token) == sign + number && (sign == [] || sign == [43] || sign == [45])
    requires number != [] && 48 <= number[0] <= 57
    ensures ParseInt(token).Some?
    ensures ParseInt(token).value == if sign == [45] then -1 * Digits(number, 0) else Digits(number, 0)
  {
    hide Digits, SkipBlanks;
    if sign == [] {
      assert sign + number == number;
    } else {
      assert (sign + number)[0] == sign[0] && (sign + number)[1..] == number;
    }
  }

  /** Blanks, a sign, digits and anything else read as the number of the digits, under the sign. */
  lemma ParseIntReads(blanks: Bytes, sign: Bytes, digits: Bytes, rest: Bytes)
    requires AllBlank(blanks) && (sign == [] || sign == [43] || sign == [45])
    requires AllDigits(digits) && digits != [] && (rest == [] || !(48 <= rest[0] <= 57))
    ensures sign != [45] ==> ParseInt(blanks + (sign + (digits + rest))) == Some(Value(digits))
    ensures sign == [45] ==> ParseInt(blanks + (sign + (digits + rest))) == Some(-1 * Value(digits))
  {
    hide Digits, SkipBlanks, Value, ParseInt;
    var number := digits + rest;
    assert number[0] == digits[0];
    assert sign != [] ==> (sign + number)[0] == sign[0];
    assert sign == [] ==> sign + number == number;
    BlanksAreSkipped(blanks, sign + number);
    SignedNumber(blanks + (sign + number), sign, number);
    DigitsMean([], digits, rest);
    assert [] + digits == digits && Value([]) == 0 by { NothingIsZero(); }
  }

  lemma NothingIsZero()
    ensures Value([]) == 0
  {
  }

  /** Without a digit right behind the blanks and the sign there is no number. */
  lemma ParseIntRefuses(blanks: Bytes, sign: Bytes, rest: Bytes)
    requires AllBlank(blanks) && (sign == [] || sign == [43] || sign == [45])
    requires rest == [] || !(48 <= rest[0] <= 57)
    requires sign == [] && rest != [] ==> rest[0] != 43 && rest[0] != 45 && !(9 <= rest[0] <= 13 || rest[0] == 32)
    ensures ParseInt(blanks + (sign + rest)).None?
  {
    hide Digits;
    var text := sign + rest;
    if sign == [] { assert text == rest; } else { assert text[1..] == rest; }
    BlanksAreSkipped(blanks, text);
  }

  lemma LastTokenOfOneMore(line: Bytes, b: Byte)
    ensures LastToken(line + [b]) == if b == 32 then [] else LastToken(line) + [b]
  {
    assert (line + [b])[..|line|] == line;
  }

  lemma {:induction false} LastTokenIs(before: Bytes, token: Bytes)
    requires 32 !in token
    ensures LastToken(token) == token && LastToken(before + ([32] + token)) == token
  {
    hide LastToken;
    if token == [] {
      assert before + ([32] + token) == before + [32];
      LastTokenOfOneMore(before, 32);
      LastTokenOfNothing();
    } else {
      var init, last := token[..|token| - 1], token[|token| - 1];
      WithoutLast(token, init, last);
      LastTokenIs(before, init);
      LastTokenOfOneMore(init, last);
      LastTokenOfOneMore(before + ([32] + init), last);
      assert before + ([32] + token) == before + ([32] + init) + [last];
    }
  }

  lemma LastTokenOfNothing()
    ensures LastToken([]) == []
  {
  }

  lemma WithoutLast(token: Bytes, init: Bytes, last: Byte)
    requires 32 !in token && token != [] && init == token[..|token| - 1] && last == token[|token| - 1]
    ensures token == init + [last] && 32 !in init && last != 32
  {
    assert last in token;
    forall b | b in init ensures b != 32 { assert b in token; }
  }

  predicate NoLineEnd(b: Bytes) {
    forall i :: 0 <= i < |b| - 1 ==> !(b[i] == 13 && b[i + 1] == 10)
  }

  /** A line without a line end inside is the first line of what begins with it and a line end. */
  lemma LineComesFirst(line: Bytes, rest: Bytes)
    requires NoLineEnd(line)
    ensures var b := line + [13, 10] + rest;
            Crlf(b) == Some(|line|) && b[..|line|] == line && b[|line| + 2..] == rest
  {
    CrlfIsUnique(line + [13, 10] + rest, |line|);
  }

  /** "PING" alone on a line asks for a PONG. */
  lemma PingLine(rest: Bytes)
    ensures ParseFrame([80, 73, 78, 71] + [13, 10] + rest) == PingFrame(rest)
  {
    hide Crlf, ParseInt, LastToken;
    var line: Bytes := [80, 73, 78, 71];
    LineComesFirst(line, rest);
    assert line == PING && line[0] == 80 && line[1] == 73;
    assert Classify(line) == Ping;
  }

  /** Empty lines, "+OK", "PONG" and whatever begins with "INFO" are skipped. */
  lemma SkippedLine(line: Bytes, rest: Bytes)
    requires NoLineEnd(line)
    requires line == [] || line == [43, 79, 75] || line == [80, 79, 78, 71] || [73, 78, 70, 79] <= line
    ensures ParseFrame(line + [13, 10] + rest) == ParseFrame(rest)
  {
    hide Crlf, ParseInt, LastToken;
    LineComesFirst(line, rest);
  }

  /** A line that begins with "-ERR" is an error. */
  lemma ErrorLine(line: Bytes, rest: Bytes)
    requires NoLineEnd(line) && [45, 69, 82, 82] <= line
    ensures ParseFrame(line + [13, 10] + rest) == Broken(line)
  {
    hide Crlf, ParseInt, LastToken;
    LineComesFirst(line, rest);
    assert line[0] == 45;
  }

  /** Any other line that does not begin with "MSG " is skipped too. */
  lemma OtherLine(line: Bytes, rest: Bytes)
    requires NoLineEnd(line) && line != [80, 73, 78, 71]
    requires !([45, 69, 82, 82] <= line) && !([77, 83, 71, 32] <= line)
    ensures ParseFrame(line + [13, 10] + rest) == ParseFrame(rest)
  {
    hide Crlf, ParseInt, LastToken;
    LineComesFirst(line, rest);
  }

  /** What stands last on a "MSG " line is the payload's size; if it is no number, or negative, that is an error. */
  lemma MessageLine(before: Bytes, token: Bytes, rest: Bytes)
    requires 32 !in token && [77, 83, 71, 32] <= before + [32] && NoLineEnd(before + ([32] + token))
    ensures var line := before + ([32] + token); var b := line + [13, 10] + rest;
            ParseFrame(b) ==
              if ParseInt(token).None? || ParseInt(token).value < 0 then Broken(line)
              else if |rest| < ParseInt(token).value + 2 then NeedMore(b[|line| - DecodedLength(line)..])
              else Payload(rest[..ParseInt(token).value], rest[ParseInt(token).value + 2..])
  {
    hide Crlf, ParseInt, LastToken, Classify, DecodedLength;
    var line := before + ([32] + token);
    LineComesFirst(line, rest);
    LastTokenIs(before, token);
    assert line == before + [32] + token;
    assert MSG <= line;
    MsgLineIsHeader(line);
  }

  /** A message as a server writes it: the subject part may be anything without a line end. */
  function Message(subject: Bytes, payload: Bytes): Bytes {
    [77, 83, 71, 32] + subject + ([32] + Numeral(|payload|)) + [13, 10] + (payload + [13, 10])
  }

  lemma NoLineEndInHeader(subject: Bytes, token: Bytes)
    requires NoLineEnd(subject) && AllDigits(token)
    ensures NoLineEnd([77, 83, 71, 32] + subject + ([32] + token))
  {
    var line := [77, 83, 71, 32] + subject + ([32] + token);
    forall i | 0 <= i < |line| - 1 ensures !(line[i] == 13 && line[i + 1] == 10) {
      if 4 <= i < 3 + |subject| {
        assert line[i] == subject[i - 4] && line[i + 1] == subject[i - 3];
      } else if i == 3 + |subject| {
        assert line[i + 1] == 32;
      }
    }
  }

  /** Reading a message gives its payload, whatever the payload contains, and leaves what follows. */
  lemma MessageRoundTrip(subject: Bytes, payload: Bytes, rest: Bytes)
    requires NoLineEnd(subject)
    ensures ParseFrame(Message(subject, payload) + rest) == Payload(payload, rest)
  {
    hide Crlf, ParseInt, LastToken, Classify, DecodedLength, ParseFrame, NoLineEnd, AllDigits, Numeral, Value;
    var token := Numeral(|payload|);
    var before := [77, 83, 71, 32] + subject;
    var line := before + ([32] + token);
    var tail := payload + [13, 10] + rest;
    NumeralMeans(|payload|);
    ParseIntReads([], [], token, []);
    assert [] + ([] + (token + [])) == token;
    NoLineEndInHeader(subject, token);
    NoSpaceInDigits(token);
    assert before + [32] == [77, 83, 71, 32] + (subject + [32]);
    MessageLine(before, token, tail);
    LastPieces(line + [13, 10], payload, rest);
  }

  lemma NoSpaceInDigits(token: Bytes)
    requires AllDigits(token)
    ensures 32 !in token
  {
  }

  lemma LastPieces(line: Bytes, payload: Bytes, rest: Bytes)
    ensures var tail := payload + [13, 10] + rest;
            && line + (payload + [13, 10]) + rest == line + tail
            && tail[..|payload|] == payload && tail[|payload| + 2..] == rest
  {
  }

  /** A request that receives PINGs and then a message answers the PINGs and settles on the payload. */
  lemma {:induction false} RequestReceivesMessage(pings: nat, subject: Bytes, payload: Bytes, rest: Bytes, c: Conn)
    requires NoLineEnd(subject) && c.settled.None?
    ensures Drain(c.(buffer := Repeated(pings) + (Message(subject, payload) + rest)))
         == Conn(rest, c.pongs + pings, Some(Got(payload)))
    decreases pings
  {
    hide ParseFrame, Message, NoLineEnd;
    var message := Message(subject, payload) + rest;
    if pings == 0 {
      MessageRoundTrip(subject, payload, rest);
      MessageIsNotEmpty(subject, payload, rest);
      assert Repeated(0) + message == message;
    } else {
      var more := Repeated(pings - 1) + message;
      PingLine(more);
      assert Repeated(pings) + message == [80, 73, 78, 71] + [13, 10] + more;
      PingThenDrain(Repeated(pings) + message, more, c);
      RequestReceivesMessage(pings - 1, subject, payload, rest, c.(pongs := c.pongs + 1));
    }
  }

  function Repeated(pings: nat): Bytes {
    if pings == 0 then [] else [80, 73, 78, 71] + [13, 10] + Repeated(pings - 1)
  }

  lemma MessageIsNotEmpty(subject: Bytes, payload: Bytes, rest: Bytes)
    ensures Message(subject, payload) + rest != []
  {
    assert |Message(subject, payload) + rest| >= 4;
  }

  // ---- the loops themselves ----

  class Request {
    var buffer: Bytes
    var pongs: nat
    var settled: Option<Reply>

    constructor ()
      ensures State() == FRESH
    {
      buffer, pongs, settled := [], 0, None;
    }

    function State(): Conn
      reads this
    {
      Conn(buffer, pongs, settled)
    }

    /** Scan line by line from an advancing offset. */
    static method ParseNatsFrame(buffer: Bytes) returns (frame: Frame)
      ensures frame == ParseFrame(buffer)
    {
      hide Classify, DecodedLength, Crlf, ParseFrame;
      var offset := 0;
      assert buffer[0..] == buffer;
      while offset < |buffer|
        invariant offset <= |buffer|
        invariant ParseFrame(buffer) == ParseFrame(buffer[offset..])
      {
        var lineEnd := IndexOfCrlf(buffer, offset);
        FrameAt(buffer, offset, lineEnd);
        if lineEnd.None? {
          return NeedMore(buffer[offset..]);
        }
        var line := buffer[offset..lineEnd.value];
        offset := lineEnd.value + 2;
        match Classify(line)
        case Ignored =>
        case Ping => return PingFrame(buffer[offset..]);
        case ServerError => return Broken(line);
        case BadMsg => return Broken(line);
        case Msg(byteCount) =>
          if |buffer| < offset + byteCount + 2 {
            return NeedMore(buffer[lineEnd.value - DecodedLength(line)..]);
          }
          return Payload(buffer[offset..offset + byteCount], buffer[offset + byteCount + 2..]);
      }
      assert buffer[offset..] == [];
      NothingNeedsMore();
      frame := NeedMore([]);
    }

    /** The first frame of `b`, given its first line and what comes after it. */
    static function FirstFrame(b: Bytes, line: Bytes, after: Bytes): Frame
      requires |line| <= |b|
    {
      match Classify(line)
      case Ignored => ParseFrame(after)
      case Ping => PingFrame(after)
      case Msg(n) =>
        if |after| < n + 2 then NeedMore(b[|line| - DecodedLength(line)..]) else Payload(after[..n], after[n + 2..])
      case _ => Broken(line)
    }

    static lemma FirstFrameIsParsed(b: Bytes, line: Bytes, after: Bytes)
      requires Crlf(b).Some? && line == b[..Crlf(b).value] && after == b[Crlf(b).value + 2..]
      ensures ParseFrame(b) == FirstFrame(b, line, after)
    {
      hide Classify, DecodedLength, Crlf;
    }

    /** The next frame from `offset` on, in positions of the whole buffer. */
    static lemma FrameAt(buffer: Bytes, offset: nat, lineEnd: Option<nat>)
      requires offset <= |buffer|
      requires lineEnd.Some? ==> offset <= lineEnd.value
      requires Crlf(buffer[offset..]) == if lineEnd.Some? then Some(lineEnd.value - offset) else None
      ensures lineEnd.None? ==> ParseFrame(buffer[offset..]) == NeedMore(buffer[offset..])
      ensures lineEnd.Some? ==>
        var line, next := buffer[offset..lineEnd.value], lineEnd.value + 2;
        ParseFrame(buffer[offset..]) ==
          match Classify(line) {
            case Ignored => ParseFrame(buffer[next..])
            case Ping => PingFrame(buffer[next..])
            case Msg(n) => MessageAt(buffer, lineEnd.value, |line|, DecodedLength(line), n)
            case _ => Broken(line)
          }
    {
      hide Classify, DecodedLength, Crlf, MessageAt, ParseFrame;
      if lineEnd.None? {
        NoFrame(buffer[offset..]);
      } else {
        var line, next := buffer[offset..lineEnd.value], lineEnd.value + 2;
        SlicesAgree(buffer, offset, |line|);
        SlicesAgree(buffer, offset, |line| + 2);
        FirstFrameIsParsed(buffer[offset..], line, buffer[next..]);
        if Classify(line).Msg? {
          MessageSlices(buffer, offset, |line|, DecodedLength(line), Classify(line).count);
        }
      }
    }

    static lemma NoFrame(b: Bytes)
      requires Crlf(b).None?
      ensures ParseFrame(b) == NeedMore(b)
    {
    }

    static function MessageAt(buffer: Bytes, lineEnd: nat, lineLength: nat, kept: nat, n: nat): Frame
      requires kept <= lineLength <= lineEnd && lineEnd + 2 <= |buffer|
    {
      if |buffer| < lineEnd + 2 + n + 2 then NeedMore(buffer[lineEnd - kept..])
      else Payload(buffer[lineEnd + 2..lineEnd + 2 + n], buffer[lineEnd + 2 + n + 2..])
    }

    static lemma MessageSlices(buffer: Bytes, offset: nat, lineLength: nat, kept: nat, n: nat)
      requires kept <= lineLength && offset + lineLength + 2 <= |buffer|
      ensures var b := buffer[offset..]; var after := b[lineLength + 2..];
              MessageAt(buffer, offset + lineLength, lineLength, kept, n)
              == if |after| < n + 2 then NeedMore(b[lineLength - kept..]) else Payload(after[..n], after[n + 2..])
    {
      SlicesAgree(buffer, offset, lineLength - kept);
      SlicesAgree(buffer, offset, lineLength + 2);
      if offset + lineLength + 2 + n + 2 <= |buffer| {
        SlicesAgree(buffer, offset + lineLength + 2, n);
        SlicesAgree(buffer, offset + lineLength + 2, n + 2);
      }
    }

    static lemma SlicesAgree(buffer: Bytes, offset: nat, k: nat)
      requires offset + k <= |buffer|
      ensures buffer[offset..][..k] == buffer[offset..offset + k] && buffer[offset..][k..] == buffer[offset + k..]
    {
    }

    static method IndexOfCrlf(buffer: Bytes, from: nat) returns (found: Option<nat>)
      requires from <= |buffer|
      ensures found.None? ==> Crlf(buffer[from..]).None?
      ensures found.Some? ==> from <= found.value && Crlf(buffer[from..]) == Some(found.value - from)
    {
      var b := buffer[from..];
      for i := 0 to |b|
        invariant forall k :: 0 <= k < i && k + 1 < |b| ==> !(b[k] == CR && b[k + 1] == LF)
      {
        if i + 1 < |b| && b[i] == CR && b[i + 1] == LF {
          CrlfIsUnique(b, i);
          return Some(from + i);
        }
      }
      found := None;
    }

    /** The `data` handler: append the chunk, then take frames until none is complete or the request settles. */
    method HandleData(chunk: Bytes)
      modifies this
      ensures State() == OnData(old(State()), chunk)
    {
      hide ParseFrame;
      if settled.Some? {
        return;
      }
      buffer := buffer + chunk;
      ghost var start := State();
      while buffer != []
        invariant settled.None? && Drain(start) == Drain(State())
        decreases |buffer|
      {
        ParsingShrinks(buffer);
        var frame := ParseNatsFrame(buffer);
        match frame
        case PingFrame(rest) =>
          buffer := rest;
          pongs := pongs + 1;
        case Payload(payload, rest) =>
          buffer := rest;
          settled := Some(Got(payload));
          return;
        case NeedMore(rest) =>
          buffer := rest;
          return;
        case Broken(line) =>
          settled := Some(Error(line));
          return;
      }
    }
  }
}
