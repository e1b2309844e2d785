/** Newline framing between the runner and a child, with a byte cap on what is read back. */
module LineReader {
  import opened Utf8
  import opened Arith

  const LF: Byte := 10
  const CR: Byte := 13

  datatype LineRead = Line(text: Bytes) | Eof | TooLong | NotUtf8

  /** The bytes of `b` up to and including its first newline; all of them if there is none. */
  function FirstLine(b: Bytes): (line: Bytes)
    ensures |line| <= |b| && line == b[..|line|]
  {
    if b == [] then [] else if b[0] == LF then [LF] else [b[0]] + FirstLine(b[1..])
  }

  /** What one capped read takes off the stream: at most one line, at most `cap + 1` bytes. */
  function Chunk(stream: Bytes, cap: nat): (chunk: Bytes)
    ensures |chunk| <= cap + 1 && |chunk| <= |stream| && chunk == stream[..|chunk|]
  {
    FirstLine(stream[..Min(|stream|, cap + 1)])
  }

  function TrimEnd(b: Bytes): Bytes {
    if b != [] && (b[|b| - 1] == LF || b[|b| - 1] == CR) then TrimEnd(b[..|b| - 1]) else b
  }

  function Outcome(chunk: Bytes, cap: nat): LineRead {
    if chunk == [] then Eof
    else if !Valid(chunk) then NotUtf8
    else if |chunk| > cap then TooLong
    else Line(TrimEnd(chunk))
  }

  function ReadCapped(stream: Bytes, cap: nat): LineRead {
    Outcome(Chunk(stream, cap), cap)
  }

  function Rest(stream: Bytes, cap: nat): Bytes {
    stream[|Chunk(stream, cap)|..]
  }

  /** Trimming takes off all carriage returns and newlines at the end, and nothing else. */
  lemma {:induction false} TrimMeans(b: Bytes)
    ensures TrimEnd(b) <= b
    ensures forall i :: |TrimEnd(b)| <= i < |b| ==> b[i] == 10 || b[i] == 13
    ensures TrimEnd(b) != [] ==> TrimEnd(b)[|TrimEnd(b)| - 1] != 10 && TrimEnd(b)[|TrimEnd(b)| - 1] != 13
  {
    if b != [] { TrimMeans(b[..|b| - 1]); }
  }

  /**
   * One read, off the stream: it takes `k` bytes, up to a newline, the end, or one byte beyond the cap, whichever comes
   * first; nothing taken is the end, then ill-formed text is refused, then anything beyond the cap.
   */
  lemma ReadMeans(stream: Bytes, cap: nat, k: nat)
    requires k <= |stream| && k <= cap + 1 && forall i :: 0 <= i < k - 1 ==> stream[i] != 10
    requires k == cap + 1 || k == |stream| || (k > 0 && stream[k - 1] == 10)
    ensures Rest(stream, cap) == stream[k..]
    ensures ReadCapped(stream, cap) ==
      if k == 0 then Eof
      else if !Valid(stream[..k]) then NotUtf8
      else if k > cap then TooLong
      else Line(TrimEnd(stream[..k]))
  {
    hide Valid, TrimEnd, FirstLine;
    var view := stream[..Min(|stream|, cap + 1)];
    assert forall i :: 0 <= i < k ==> view[i] == stream[i];
    FirstLineIs(view, k);
    assert view[..k] == stream[..k];
  }

  predicate NewlineFree(b: Bytes) {
    forall i :: 0 <= i < |b| ==> b[i] != LF
  }

  lemma {:induction false} FirstLineOfFrame(line: Bytes, rest: Bytes)
    requires NewlineFree(line)
    ensures FirstLine(line + [LF] + rest) == line + [LF]
  {
    if line == [] {
      assert line + [LF] + rest == [LF] + rest;
    } else {
      FirstLineOfFrame(line[1..], rest);
      assert (line + [LF] + rest)[1..] == line[1..] + [LF] + rest;
    }
  }

  lemma {:induction false} FirstLineWithoutNewline(b: Bytes)
    requires NewlineFree(b)
    ensures FirstLine(b) == b
  {
    if b != [] { FirstLineWithoutNewline(b[1..]); }
  }

  lemma {:induction false} FirstLineIs(b: Bytes, k: nat)
    requires k <= |b| && (forall i :: 0 <= i < k - 1 ==> b[i] != LF)
    requires k == |b| || (k > 0 && b[k - 1] == LF)
    ensures FirstLine(b) == b[..k]
  {
    if b != [] && b[0] != LF {
      FirstLineIs(b[1..], k - 1);
      assert b[..k] == [b[0]] + b[1..][..k - 1];
    }
  }

  /** A line of at most `cap` framed bytes is taken whole; a longer one is cut at `cap + 1` bytes. */
  lemma ChunkOfFrame(line: Bytes, rest: Bytes, cap: nat)
    requires NewlineFree(line)
    ensures |line| + 1 <= cap + 1 ==> Chunk(line + [LF] + rest, cap) == line + [LF]
    ensures |line| + 1 > cap + 1 ==> Chunk(line + [LF] + rest, cap) == line[..cap + 1]
  {
    var stream := line + [LF] + rest;
    var n := Min(|stream|, cap + 1);
    if |line| + 1 <= cap + 1 {
      assert stream[..n] == line + [LF] + rest[..n - |line| - 1];
      FirstLineOfFrame(line, rest[..n - |line| - 1]);
    } else {
      assert stream[..n] == line[..cap + 1];
      FirstLineWithoutNewline(line[..cap + 1]);
    }
  }

  lemma TrimmingFrame(line: Bytes)
    requires NewlineFree(line)
    ensures TrimEnd(line + [LF]) == TrimEnd(line)
    ensures TrimEnd(line) == line <==> !(line != [] && line[|line| - 1] == CR)
  {
    assert (line + [LF])[..|line|] == line;
    if line != [] && line[|line| - 1] == CR { TrimShrinks(line[..|line| - 1]); }
  }

  lemma {:induction false} TrimShrinks(b: Bytes)
    ensures |TrimEnd(b)| <= |b|
  {
    if b != [] { TrimShrinks(b[..|b| - 1]); }
  }

  /** A valid UTF-8 line is accepted exactly when it fits the cap together with its newline. */
  lemma AcceptedExactlyUpToCap(line: Bytes, rest: Bytes, cap: nat)
    requires NewlineFree(line) && Valid(line)
    ensures ReadCapped(line + [LF] + rest, cap).Line? <==> |line| + 1 <= cap
    ensures |line| + 1 <= cap ==>
      ReadCapped(line + [LF] + rest, cap) == Line(TrimEnd(line)) && Rest(line + [LF] + rest, cap) == rest
  {
    hide Valid, FirstLine, Chunk;
    ChunkOfFrame(line, rest, cap);
    ValidThenAscii(line, LF);
    TrimmingFrame(line);
  }

  /**
   * Reading back one framed payload returns it, and leaves the rest, exactly when it does not end in a carriage
   * return.
   */
  lemma FrameRoundTrip(payload: Bytes, rest: Bytes, cap: nat)
    requires NewlineFree(payload) && Valid(payload) && |payload| < cap
    ensures (ReadCapped(payload + [LF] + rest, cap) == Line(payload) && Rest(payload + [LF] + rest, cap) == rest)
        <==> !(payload != [] && payload[|payload| - 1] == CR)
  {
    hide Valid, FirstLine, Chunk;
    AcceptedExactlyUpToCap(payload, rest, cap);
    TrimmingFrame(payload);
  }

  // ---- the child's own cap ----

  /**
   * What the child writes for a result: a short fixed error instead of one over its cap, which does not count the
   * newline.
   */
  function WriteResult(encoded: Bytes, tooLong: Bytes, cap: nat): Bytes {
    (if |encoded| > cap then tooLong else encoded) + [LF]
  }

  /**
   * With one cap on both sides, the runner reads back what the child wrote except when the result is exactly as long
   * as the cap: the child lets it through and the runner, which counts the newline, refuses it.
   */
  lemma ResultsAreReadExceptAtTheCap(encoded: Bytes, tooLong: Bytes, rest: Bytes, cap: nat)
    requires Frameable(encoded, |encoded| + 1) && Frameable(tooLong, cap)
    ensures var read := ReadCapped(WriteResult(encoded, tooLong, cap) + rest, cap);
            && (read == Line(if |encoded| > cap then tooLong else encoded) <==> |encoded| != cap)
            && (read == TooLong <==> |encoded| == cap)
  {
    hide Valid, FirstLine, ReadCapped;
    if |encoded| > cap {
      FrameRoundTrip(tooLong, rest, cap);
    } else if |encoded| < cap {
      FrameRoundTrip(encoded, rest, cap);
    } else {
      OverlongIsRefused(encoded, rest, cap);
    }
  }

  lemma OverlongIsRefused(line: Bytes, rest: Bytes, cap: nat)
    requires NewlineFree(line) && Valid(line) && |line| == cap
    ensures ReadCapped(line + [LF] + rest, cap) == TooLong
  {
    hide Valid, FirstLine, Chunk;
    ChunkOfFrame(line, rest, cap);
    ValidThenAscii(line, LF);
  }

  // ---- one driver serving a queue of invocations ----

  datatype Reply = Ok(text: Bytes) | Failed

  /** The replies to the next `n` invocations: one line each, until the first read that is not a line. */
  function Replies(n: nat, stream: Bytes, cap: nat): seq<Reply> {
    if n == 0 then []
    else
      match ReadCapped(stream, cap)
      case Line(text) => [Ok(text)] + Replies(n - 1, Rest(stream, cap), cap)
      case _ => [Failed]
  }

  function Framed(payloads: seq<Bytes>): Bytes {
    if payloads == [] then [] else payloads[0] + [LF] + Framed(payloads[1..])
  }

  predicate Frameable(p: Bytes, cap: nat) {
    NewlineFree(p) && Valid(p) && |p| < cap && !(p != [] && p[|p| - 1] == CR)
  }

  /** Framed reads undo framed writes: the k-th invocation gets exactly the k-th line that the child wrote. */
  lemma {:induction false} RepliesAreTheLinesWritten(lines: seq<Bytes>, extra: Bytes, cap: nat)
    requires forall l <- lines :: Frameable(l, cap)
    ensures Replies(|lines|, Framed(lines) + extra, cap) == seq(|lines|, i requires 0 <= i < |lines| => Ok(lines[i]))
  {
    hide ReadCapped, Rest, Valid;
    if lines != [] {
      var tail := Framed(lines[1..]) + extra;
      assert lines[0] in lines;
      FrameRoundTrip(lines[0], tail, cap);
      assert Framed(lines) + extra == lines[0] + [LF] + tail;
      RepliesAreTheLinesWritten(lines[1..], extra, cap);
    }
  }

  class Reader {
    var stream: Bytes

    constructor (stream: Bytes)
      ensures this.stream == stream
    {
      this.stream := stream;
    }

    /** Fill a line byte by byte, giving up after `cap + 1` of them. */
    method ReadCappedLine(cap: nat) returns (r: LineRead)
      modifies this
      ensures r == ReadCapped(old(stream), cap) && stream == Rest(old(stream), cap)
      ensures |old(stream)| - |stream| <= cap + 1
    {
      hide Valid, TrimEnd, FirstLine;
      var line: Bytes := [];
      while |line| < cap + 1 && |line| < |stream| && (line == [] || line[|line| - 1] != LF)
        invariant |line| <= cap + 1 && |line| <= |stream| && line == stream[..|line|]
        invariant forall i :: 0 <= i < |line| - 1 ==> line[i] != LF
      {
        line := line + [stream[|line|]];
      }
      ghost var view := stream[..Min(|stream|, cap + 1)];
      assert line == view[..|line|];
      FirstLineIs(view, |line|);
      stream := stream[|line|..];
      if line == [] {
        r := Eof;
      } else if !Valid(line) {
        r := NotUtf8;
      } else if |line| > cap {
        r := TooLong;
      } else {
        r := Line(TrimEnd(line));
      }
    }

    /** The reading side of a driver: one reply per invocation, stopping at the first failed read. */
    method Serve(n: nat, cap: nat) returns (replies: seq<Reply>)
      modifies this
      ensures replies == Replies(n, old(stream), cap)
    {
      hide ReadCapped, Rest;
      replies := [];
      var served := 0;
      while served < n
        invariant served <= n
        invariant Replies(n, old(stream), cap) == replies + Replies(n - served, stream, cap)
        decreases n - served
      {
        var read := ReadCappedLine(cap);
        match read
        case Line(text) =>
          replies := replies + [Ok(text)];
          served := served + 1;
        case _ =>
          replies := replies + [Failed];
          return;
      }
    }
  }
}
