/** The AI client's HTTP/1.1 response reader, over the mail crate's byte
    transport: lines, headers, bodies by length and by chunk. */
module HttpReader {
  import opened Results
  import opened Wrappers
  import opened Splitting
  import opened Trimming
  import opened Whitespace
  import opened Decimal
  import opened Letters
  import opened Utf8

  const MAX_LINE_BYTES: nat := 1_048_576
  const MAX_BODY_BYTES: nat := 8_388_608
  const USIZE_MAX: nat := 0xFFFF_FFFF_FFFF_FFFF

  type bytes = seq<byte>

  const LF: byte := 10
  const CR: byte := 13
  const SEMICOLON: byte := 59

  datatype TransportError = NotConnected | Closed | TimedOut | Io | LineTooLong

  datatype HttpError = Unreachable(cause: TransportError) | Malformed(reason: string)

  // ------------------------------------------------------------ transport --

  /** A session's read side: what the peer sent and is still unread, and what a
      read meets after that (the close, or a failure). */
  datatype Wire = Wire(connected: bool, unread: bytes, ending: TransportError)

  function LineFeedAt(s: bytes): (i: nat)
    ensures i <= |s| && (i < |s| ==> s[i] == LF)
    ensures forall j :: 0 <= j < i ==> s[j] != LF
  {
    if s == [] || s[0] == LF then 0 else 1 + LineFeedAt(s[1..])
  }

  function StripCr(line: bytes): bytes {
    if line != [] && line[|line| - 1] == CR then line[..|line| - 1] else line
  }

  /** Everything through the next line feed, without it and one carriage return. */
  function TakeLine(w: Wire): (Result<bytes, TransportError>, Wire) {
    var i := LineFeedAt(w.unread);
    if !w.connected then (Err(NotConnected), w)
    else if i > MAX_LINE_BYTES then (Err(LineTooLong), w.(unread := w.unread[MAX_LINE_BYTES + 1..]))
    else if i == |w.unread| then (Err(w.ending), w.(unread := []))
    else (Ok(StripCr(w.unread[..i])), w.(unread := w.unread[i + 1..]))
  }

  function TakeExact(w: Wire, count: nat): (Result<bytes, TransportError>, Wire) {
    if !w.connected then (Err(NotConnected), w)
    else if |w.unread| < count then (Err(w.ending), w.(unread := []))
    else (Ok(w.unread[..count]), w.(unread := w.unread[count..]))
  }

  class TlsTransport {
    var connected: bool
    var incoming: bytes
    var ending: TransportError

    ghost function View(): Wire
      reads this
    {
      Wire(connected, incoming, ending)
    }

    method ReadLine() returns (r: Result<string, TransportError>)
      modifies this`incoming
      ensures View() == TakeLine(old(View())).1
      ensures match TakeLine(old(View())).0
              case Ok(line) => r == Ok(Lossy(line))
              case Err(e) => r == Err(e)
    {
      if !connected {
        return Err(NotConnected);
      }
      hide TakeLine, Lossy;
      var line: bytes := [];
      ghost var before := View();
      while true
        invariant before.unread == line + incoming
        invariant LF !in line && |line| <= MAX_LINE_BYTES
        decreases |incoming|
      {
        if incoming == [] {
          NoLineTaken(before, line, []);
          return Err(ending);
        }
        var b := incoming[0];
        OneMore(line, incoming);
        incoming := incoming[1..];
        if b == LF {
          break;
        }
        line := line + [b];
        if |line| > MAX_LINE_BYTES {
          NoLineTaken(before, line, incoming);
          return Err(LineTooLong);
        }
      }
      LineTaken(before, line, incoming);
      if line != [] && line[|line| - 1] == CR {
        line := line[..|line| - 1];
      }
      return Ok(Lossy(line));
    }

    method ReadExact(count: nat) returns (r: Result<bytes, TransportError>)
      modifies this`incoming
      ensures (r, View()) == TakeExact(old(View()), count)
    {
      if !connected {
        return Err(NotConnected);
      }
      if |incoming| < count {
        incoming := [];
        return Err(ending);
      }
      r := Ok(incoming[..count]);
      incoming := incoming[count..];
    }
  }

  lemma OneMore(a: bytes, b: bytes)
    requires b != []
    ensures a + b == a + [b[0]] + b[1..]
  {
  }

  /** More than a line's worth of bytes without a line feed, or no line feed at
      all before the wire ends. */
  lemma NoLineTaken(w: Wire, line: bytes, rest: bytes)
    requires w.connected && w.unread == line + rest && LF !in line
    ensures |line| == MAX_LINE_BYTES + 1 ==> TakeLine(w) == (Err(LineTooLong), w.(unread := rest))
    ensures rest == [] && |line| <= MAX_LINE_BYTES ==> TakeLine(w) == (Err(w.ending), w.(unread := []))
  {
    assert w.unread[..|line|] == line && w.unread[|line|..] == rest;
    NoLineFeedBefore(w.unread, |line|);
  }

  lemma LineTaken(w: Wire, line: bytes, rest: bytes)
    requires w.connected && w.unread == line + [LF] + rest
    requires LF !in line && |line| <= MAX_LINE_BYTES
    ensures TakeLine(w) == (Ok(StripCr(line)), w.(unread := rest))
  {
    assert w.unread[..|line|] == line && w.unread[|line| + 1..] == rest;
    NoLineFeedBefore(w.unread, |line|);
  }

  /** The first line feed is not before `k` when none of the first `k` bytes is
      one, and is at `k` when that byte is. */
  lemma NoLineFeedBefore(s: bytes, k: nat)
    requires k <= |s| && LF !in s[..k]
    ensures LineFeedAt(s) >= k
    ensures k < |s| && s[k] == LF ==> LineFeedAt(s) == k
  {
    LineFeedAfter(s[..k], s[k..]);
    assert s == s[..k] + s[k..];
  }

  lemma {:induction false} LineFeedAfter(a: bytes, b: bytes)
    requires LF !in a
    ensures LineFeedAt(a + b) == |a| + LineFeedAt(b)
  {
    if a == [] {
      assert a + b == b;
    } else {
      assert (a + b)[1..] == a[1..] + b;
      LineFeedAfter(a[1..], b);
    }
  }

  // ---------------------------------------------------------- chunk sizes --

  predicate AllHex(s: string) { forall i :: 0 <= i < |s| ==> HexValue(s[i]).Some? }

  function HexNumber(s: string): nat
    requires AllHex(s)
  {
    if s == "" then 0 else 16 * HexNumber(s[..|s| - 1]) + HexValue(s[|s| - 1]).value
  }

  /** `usize::from_str_radix(s, 16)`. */
  function ParseHex(s: string): Option<nat> {
    var digits := if s != "" && s[0] == '+' then s[1..] else s;
    if digits != "" && AllHex(digits) && HexNumber(digits) <= USIZE_MAX then Some(HexNumber(digits)) else None
  }

  /** The size a chunk line announces: the text before any extension. */
  function SizeOf(line: string): Option<nat> {
    ParseHex(Trim(SplitOn(line, ';')[0], Rust))
  }

  // -------------------------------------------------------------- chunked --

  /** Skip trailer lines through the empty one. */
  function SkipTrailers(w: Wire): (Result<bool, HttpError>, Wire)
    decreases |w.unread|
  {
    match TakeLine(w)
    case (Err(e), w1) => (Err(Unreachable(e)), w1)
    case (Ok(line), w1) => if line == [] then (Ok(true), w1) else SkipTrailers(w1)
  }

  /** What `read_chunked` computes, with `body` already read. */
  function ChunkedFrom(w: Wire, body: bytes): (Result<bytes, HttpError>, Wire)
    decreases |w.unread|
  {
    match TakeLine(w)
    case (Err(e), w1) => (Err(Unreachable(e)), w1)
    case (Ok(line), w1) =>
      match SizeOf(Lossy(line))
      case None => (Err(Malformed("chunk size is not hex")), w1)
      case Some(size) =>
        if size == 0 then
          (match SkipTrailers(w1)
           case (Err(e), w2) => (Err(e), w2)
           case (Ok(_), w2) => (Ok(body), w2))
        else if |body| + size > MAX_BODY_BYTES then (Err(Malformed("chunked body too large")), w1)
        else
          match TakeExact(w1, size)
          case (Err(e), w2) => (Err(Unreachable(e)), w2)
          case (Ok(chunk), w2) =>
            match TakeExact(w2, 2)
            case (Err(e), w3) => (Err(Unreachable(e)), w3)
            case (Ok(end), w3) =>
              if end != [CR, LF] then (Err(Malformed("chunk is not CRLF terminated")), w3)
              else ChunkedFrom(w3, body + chunk)
  }

  method ReadTrailers(t: TlsTransport) returns (r: Result<bool, HttpError>)
    modifies t`incoming
    ensures (r, t.View()) == SkipTrailers(old(t.View()))
  {
    while true
      invariant SkipTrailers(t.View()) == SkipTrailers(old(t.View()))
      decreases |t.incoming|
    {
      LossyOfNothing(match TakeLine(t.View()).0 case Ok(line) => line case Err(_) => []);
      var trailer := t.ReadLine();
      match trailer {
        case Err(e) => return Err(Unreachable(e));
        case Ok(line) => if line == "" { return Ok(true); }
      }
    }
  }

  /** `most` is the largest the accumulated body ever was. */
  method ReadChunked(t: TlsTransport) returns (r: Result<bytes, HttpError>, ghost most: nat)
    modifies t`incoming
    ensures (r, t.View()) == ChunkedFrom(old(t.View()), [])
    ensures most <= MAX_BODY_BYTES
  {
    hide LineFeedAt, SplitOn, Trim, ParseHex, SkipTrailers, Lossy;
    var body: bytes := [];
    most := 0;
    while true
      invariant ChunkedFrom(t.View(), body) == ChunkedFrom(old(t.View()), [])
      invariant |body| <= most <= MAX_BODY_BYTES
      decreases |t.incoming|
    {
      var line := t.ReadLine();
      if line.Err? {
        r := Err(Unreachable(line.error));
        return;
      }
      var sizeText := Trim(SplitOn(line.value, ';')[0], Rust);
      var size := ParseHex(sizeText);
      if size == None {
        r := Err(Malformed("chunk size is not hex"));
        return;
      }
      if size.value == 0 {
        var trailers := ReadTrailers(t);
        r := if trailers.Err? then Err(trailers.error) else Ok(body);
        return;
      }
      if |body| + size.value > MAX_BODY_BYTES {
        r := Err(Malformed("chunked body too large"));
        return;
      }
      var chunk := t.ReadExact(size.value);
      if chunk.Err? {
        r := Err(Unreachable(chunk.error));
        return;
      }
      body := body + chunk.value;
      most := |body|;
      var terminator := t.ReadExact(2);
      if terminator.Err? {
        r := Err(Unreachable(terminator.error));
        return;
      }
      if terminator.value != [CR, LF] {
        r := Err(Malformed("chunk is not CRLF terminated"));
        return;
      }
    }
  }

  // ---------------------------------------------- which messages it reads --

  /** A chunk as it stands on the wire: its size line, without the line feed,
      and its data. */
  datatype Frame = Frame(line: bytes, data: bytes)

  /** A chunked body: the chunks, the zero-size line, the trailer lines and the
      empty line (a lone carriage return, or nothing at all). */
  datatype Message = Message(frames: seq<Frame>, last: bytes, trailers: seq<bytes>, end: bytes)

  predicate ValidLine(line: bytes) { LF !in line && |line| <= MAX_LINE_BYTES }

  predicate Announces(line: bytes, size: nat) {
    ValidLine(line) && SizeOf(Lossy(StripCr(line))) == Some(size)
  }

  predicate ValidFrame(f: Frame) { f.data != [] && Announces(f.line, |f.data|) }

  predicate ValidTrailer(line: bytes) { ValidLine(line) && StripCr(line) != [] }

  predicate ValidMessage(m: Message) {
    && (forall i :: 0 <= i < |m.frames| ==> ValidFrame(m.frames[i]))
    && Announces(m.last, 0)
    && (forall i :: 0 <= i < |m.trailers| ==> ValidTrailer(m.trailers[i]))
    && ValidLine(m.end) && StripCr(m.end) == []
  }

  function Body(frames: seq<Frame>): bytes {
    if frames == [] then [] else frames[0].data + Body(frames[1..])
  }

  function FramesText(frames: seq<Frame>): bytes {
    if frames == [] then []
    else frames[0].line + [LF] + (frames[0].data + ([CR, LF] + FramesText(frames[1..])))
  }

  function LinesText(lines: seq<bytes>): bytes {
    if lines == [] then [] else lines[0] + [LF] + LinesText(lines[1..])
  }

  /** The bytes of a message, followed by whatever comes after it. */
  function Sent(m: Message, after: bytes): bytes {
    FramesText(m.frames) + (m.last + [LF] + (LinesText(m.trailers) + (m.end + [LF] + after)))
  }

  lemma TakeValidLine(w: Wire, line: bytes, rest: bytes)
    requires w.connected && ValidLine(line) && w.unread == line + [LF] + rest
    ensures TakeLine(w) == (Ok(StripCr(line)), w.(unread := rest))
  {
    LineTaken(w, line, rest);
  }

  lemma TakePrefix(w: Wire, a: bytes, rest: bytes)
    requires w.connected && w.unread == a + rest
    ensures TakeExact(w, |a|) == (Ok(a), w.(unread := rest))
  {
    assert w.unread[..|a|] == a && w.unread[|a|..] == rest;
  }

  lemma {:induction false} TrailersSkipped(w: Wire, trailers: seq<bytes>, end: bytes, after: bytes)
    requires w.connected && w.unread == LinesText(trailers) + (end + [LF] + after)
    requires forall i :: 0 <= i < |trailers| ==> ValidTrailer(trailers[i])
    requires ValidLine(end) && StripCr(end) == []
    ensures SkipTrailers(w) == (Ok(true), w.(unread := after))
    decreases |trailers|
  {
    if trailers == [] {
      assert w.unread == end + [LF] + after;
      TakeValidLine(w, end, after);
    } else {
      var rest := LinesText(trailers[1..]) + (end + [LF] + after);
      assert w.unread == trailers[0] + [LF] + rest;
      TakeValidLine(w, trailers[0], rest);
      hide TakeLine;
      TrailersSkipped(w.(unread := rest), trailers[1..], end, after);
    }
  }

  lemma LastIsRead(w: Wire, m: Message, after: bytes, body: bytes)
    requires w.connected && ValidMessage(m) && m.frames == [] && w.unread == Sent(m, after)
    ensures ChunkedFrom(w, body) == (Ok(body), w.(unread := after))
  {
    hide TakeLine, TakeExact, SizeOf, Lossy, LinesText;
    var rest := LinesText(m.trailers) + (m.end + [LF] + after);
    assert w.unread == m.last + [LF] + rest;
    TakeValidLine(w, m.last, rest);
    TrailersSkipped(w.(unread := rest), m.trailers, m.end, after);
  }

  /** Every well-formed message is read to its exact body, and the wire is left
      at the first byte after it. */
  lemma {:induction false} MessageIsRead(w: Wire, m: Message, after: bytes, body: bytes)
    requires w.connected && ValidMessage(m) && w.unread == Sent(m, after)
    requires |body| + |Body(m.frames)| <= MAX_BODY_BYTES
    ensures ChunkedFrom(w, body) == (Ok(body + Body(m.frames)), w.(unread := after))
    decreases |m.frames|
  {
    hide ChunkedFrom, Sent, SizeOf, Lossy, ValidFrame;
    if m.frames == [] {
      LastIsRead(w, m, after, body);
      assert body + [] == body;
    } else {
      var f, m1 := m.frames[0], m.(frames := m.frames[1..]);
      SentFirst(m, after);
      FrameIsRead(w, f, Sent(m1, after), body);
      MessageIsRead(w.(unread := Sent(m1, after)), m1, after, body + f.data);
      assert body + f.data + Body(m1.frames) == body + Body(m.frames);
    }
  }

  lemma SentFirst(m: Message, after: bytes)
    requires m.frames != []
    ensures var f, m1 := m.frames[0], m.(frames := m.frames[1..]);
            Sent(m, after) == f.line + [LF] + (f.data + ([CR, LF] + Sent(m1, after)))
  {
    var f, t := m.frames[0], FramesText(m.frames[1..]);
    var tail := m.last + [LF] + (LinesText(m.trailers) + (m.end + [LF] + after));
    assert f.line + [LF] + (f.data + ([CR, LF] + t)) + tail == f.line + [LF] + (f.data + ([CR, LF] + (t + tail)));
  }

  lemma FrameIsRead(w: Wire, f: Frame, rest: bytes, body: bytes)
    requires w.connected && ValidFrame(f) && w.unread == f.line + [LF] + (f.data + ([CR, LF] + rest))
    requires |body| + |f.data| <= MAX_BODY_BYTES
    ensures ChunkedFrom(w, body) == ChunkedFrom(w.(unread := rest), body + f.data)
  {
    hide TakeLine, TakeExact, SizeOf, Lossy;
    var s1, s2 := f.data + ([CR, LF] + rest), [CR, LF] + rest;
    TakeValidLine(w, f.line, s1);
    TakePrefix(w.(unread := s1), f.data, s2);
    TakePrefix(w.(unread := s2), [CR, LF], rest);
  }

  // ------------------------------------------------ and nothing but those --

  lemma LineWasTaken(w: Wire) returns (line: bytes)
    requires TakeLine(w).0.Ok?
    ensures w.connected && ValidLine(line)
    ensures TakeLine(w).0 == Ok(StripCr(line)) && TakeLine(w).1.connected
    ensures w.unread == line + [LF] + TakeLine(w).1.unread
    ensures TakeLine(w).1 == w.(unread := TakeLine(w).1.unread)
  {
    line := w.unread[..LineFeedAt(w.unread)];
  }

  lemma ExactWasTaken(w: Wire, count: nat)
    requires TakeExact(w, count).0.Ok?
    ensures var (r, w1) := TakeExact(w, count);
            w.connected && |r.value| == count && w.unread == r.value + w1.unread && w1 == w.(unread := w1.unread)
  {
  }

  lemma LinesFirst(line: bytes, lines: seq<bytes>, tail: bytes)
    ensures LinesText([line] + lines) + tail == line + [LF] + (LinesText(lines) + tail)
  {
    assert ([line] + lines)[1..] == lines;
  }

  lemma {:induction false} TrailerWasSkipped(w: Wire) returns (line: bytes, rest: bytes)
    requires SkipTrailers(w).0.Ok?
    ensures w.connected && ValidLine(line) && w.unread == line + [LF] + rest
    ensures StripCr(line) == [] ==> SkipTrailers(w) == (Ok(true), w.(unread := rest))
    ensures StripCr(line) != [] ==> SkipTrailers(w) == SkipTrailers(w.(unread := rest))
  {
    line := LineWasTaken(w);
    rest := TakeLine(w).1.unread;
  }

  lemma {:induction false} TrailersWereSkipped(w: Wire) returns (trailers: seq<bytes>, end: bytes)
    requires SkipTrailers(w).0.Ok?
    ensures w.connected && w.unread == LinesText(trailers) + (end + [LF] + SkipTrailers(w).1.unread)
    ensures SkipTrailers(w).1 == w.(unread := SkipTrailers(w).1.unread)
    ensures forall i :: 0 <= i < |trailers| ==> ValidTrailer(trailers[i])
    ensures ValidLine(end) && StripCr(end) == []
    decreases |w.unread|
  {
    hide SkipTrailers, StripCr, ValidLine, LinesText;
    var line, rest := TrailerWasSkipped(w);
    var after := SkipTrailers(w).1.unread;
    if StripCr(line) == [] {
      trailers, end := [], line;
      NoLines(end + [LF] + after);
    } else {
      trailers, end := TrailersWereSkipped(w.(unread := rest));
      LinesFirst(line, trailers, end + [LF] + after);
      trailers := [line] + trailers;
    }
  }

  lemma NoLines(tail: bytes)
    ensures LinesText([]) + tail == tail
  {
  }

  /** The first step of an accepted read: the last line, or one frame. */
  lemma FrameWasRead(w: Wire, body: bytes) returns (line: bytes, data: bytes, rest: bytes)
    requires ChunkedFrom(w, body).0.Ok?
    ensures w.connected && Announces(line, |data|)
    ensures data == [] ==>
              && w.unread == line + [LF] + rest
              && SkipTrailers(w.(unread := rest)).0.Ok?
              && ChunkedFrom(w, body) == (Ok(body), SkipTrailers(w.(unread := rest)).1)
    ensures data != [] ==>
              && w.unread == line + [LF] + (data + ([CR, LF] + rest))
              && |body| + |data| <= MAX_BODY_BYTES
              && ChunkedFrom(w, body) == ChunkedFrom(w.(unread := rest), body + data)
  {
    hide SizeOf, Lossy, SkipTrailers;
    line := LineWasTaken(w);
    hide TakeLine;
    var w1 := TakeLine(w).1;
    var size := SizeOf(Lossy(StripCr(line))).value;
    if size == 0 {
      data, rest := [], w1.unread;
    } else {
      ExactWasTaken(w1, size);
      var (chunk, w2) := TakeExact(w1, size);
      ExactWasTaken(w2, 2);
      hide TakeExact;
      data, rest := chunk.value, TakeExact(w2, 2).1.unread;
    }
  }

  /** Whatever is accepted was such a message: no other framing yields a body. */
  lemma {:induction false} ReadWasMessage(w: Wire, body: bytes) returns (m: Message)
    requires ChunkedFrom(w, body).0.Ok? && |body| <= MAX_BODY_BYTES
    ensures w.connected && ValidMessage(m)
    ensures w.unread == Sent(m, ChunkedFrom(w, body).1.unread)
    ensures ChunkedFrom(w, body).1 == w.(unread := ChunkedFrom(w, body).1.unread)
    ensures ChunkedFrom(w, body).0 == Ok(body + Body(m.frames))
    ensures |body| + |Body(m.frames)| <= MAX_BODY_BYTES
    decreases |w.unread|
  {
    hide ChunkedFrom, Announces, Sent, ValidMessage, Body;
    var line, data, rest := FrameWasRead(w, body);
    var after := ChunkedFrom(w, body).1.unread;
    if data == [] {
      m := LastWasRead(w.(unread := rest), line);
      assert body + [] == body;
    } else {
      var m1 := ReadWasMessage(w.(unread := rest), body + data);
      m := AddFrame(line, data, m1, after);
      assert body + data + Body(m1.frames) == body + (data + Body(m1.frames));
    }
  }

  lemma {:induction false} LastWasRead(w: Wire, line: bytes) returns (m: Message)
    requires SkipTrailers(w).0.Ok? && Announces(line, 0)
    ensures ValidMessage(m) && Body(m.frames) == []
    ensures Sent(m, SkipTrailers(w).1.unread) == line + [LF] + w.unread
    ensures SkipTrailers(w).1 == w.(unread := SkipTrailers(w).1.unread)
  {
    hide Announces, StripCr, LinesText, SkipTrailers;
    var trailers, end := TrailersWereSkipped(w);
    m := Message([], line, trailers, end);
  }

  lemma AddFrame(line: bytes, data: bytes, m1: Message, after: bytes) returns (m: Message)
    requires ValidMessage(m1) && Announces(line, |data|) && data != []
    ensures ValidMessage(m) && Body(m.frames) == data + Body(m1.frames)
    ensures Sent(m, after) == line + [LF] + (data + ([CR, LF] + Sent(m1, after)))
  {
    hide Announces, Sent, StripCr, ValidLine;
    m := m1.(frames := [Frame(line, data)] + m1.frames);
    assert m.frames[1..] == m1.frames;
    assert m.(frames := m.frames[1..]) == m1;
    SentFirst(m, after);
  }

  ghost predicate Carries(w: Wire, m: Message, body: bytes, after: bytes) {
    w.connected && ValidMessage(m) && w.unread == Sent(m, after) && body == Body(m.frames)
  }

  /** `read_chunked` answers a body exactly when the wire carries a well-formed
      chunked message of at most 8 MiB with that body, and then leaves the
      cursor right behind it. */
  lemma ChunkedExactly(w: Wire, body: bytes, after: bytes)
    ensures ChunkedFrom(w, []) == (Ok(body), w.(unread := after))
       <==> |body| <= MAX_BODY_BYTES && exists m :: Carries(w, m, body, after)
  {
    hide ChunkedFrom, Sent, ValidMessage;
    if ChunkedFrom(w, []) == (Ok(body), w.(unread := after)) {
      var m := ReadWasMessage(w, []);
      assert [] + Body(m.frames) == Body(m.frames);
      assert Carries(w, m, body, after);
    }
    if |body| <= MAX_BODY_BYTES && exists m :: Carries(w, m, body, after) {
      var m :| Carries(w, m, body, after);
      MessageIsRead(w, m, after, []);
      assert [] + body == body;
    }
  }

  // ------------------------------------- the grammar of section 7.1 --

  const SPACE: byte := 32
  const TAB: byte := 9

  /** A chunk-size line of RFC 9112, section 7.1: hexadecimal digits, optional
      blanks, and an optional extension opened by a semicolon. */
  datatype SizeLine = SizeLine(digits: bytes, blanks: bytes, extension: bytes) {
    predicate Valid() {
      && digits != [] && IsAscii(digits) && AllHex(Chars(digits)) && HexNumber(Chars(digits)) <= USIZE_MAX
      && (forall i :: 0 <= i < |blanks| ==> blanks[i] in {SPACE, TAB})
      && (extension != [] ==> extension[0] == SEMICOLON)
      && LF !in extension
      && |Text()| <= MAX_LINE_BYTES
    }

    /** The line as sent, up to its line feed. */
    function Text(): bytes { digits + blanks + extension + [CR] }
  }

  lemma {:induction false} FirstOfSplit(a: string, tail: string)
    requires ';' !in a && (tail != "" ==> tail[0] == ';')
    ensures SplitOn(a + tail, ';')[0] == a
  {
    if tail == "" {
      assert a + tail == a;
      SplitNone(a, ';');
    } else {
      assert a + tail == a + [';'] + tail[1..];
      SplitFirst(a, ';', tail[1..]);
    }
  }

  lemma SizeOfSpelling(digits: string, blanks: string, tail: string)
    requires digits != "" && AllHex(digits) && HexNumber(digits) <= USIZE_MAX
    requires AllBlank(blanks, Rust) && ';' !in blanks
    requires tail != "" ==> tail[0] == ';'
    ensures SizeOf(digits + blanks + tail) == Some(HexNumber(digits))
  {
    HexIsTrimmed(digits);
    FirstOfSplit(digits + blanks, tail);
    hide HexNumber, SplitOn, Trim;
    assert "" + digits + blanks == digits + blanks;
    TrimOfPadded("", digits, blanks, Rust);
  }

  /** Any spelling of the size the standard allows announces that size. */
  lemma SizeLineAnnounces(line: SizeLine)
    requires line.Valid()
    ensures Announces(line.Text(), HexNumber(Chars(line.digits)))
  {
    hide HexNumber, Lossy, SizeOf;
    var digits, blanks := Chars(line.digits), Chars(line.blanks);
    var head := line.digits + line.blanks;
    assert StripCr(line.Text()) == head + line.extension;
    LossyAsciiPrefix(head, line.extension);
    assert Chars(head) == digits + blanks;
    ExtensionStartsWithSemicolon(line.extension);
    SizeOfSpelling(digits, blanks, Lossy(line.extension));
    NoLineFeedInSize(line);
  }

  lemma NoLineFeedInSize(line: SizeLine)
    requires line.Valid()
    ensures LF !in line.Text()
  {
    forall i | 0 <= i < |line.digits| ensures line.digits[i] != LF {
      assert Chars(line.digits)[i] == line.digits[i] as char;
    }
  }

  lemma ExtensionStartsWithSemicolon(ext: bytes)
    requires ext != [] ==> ext[0] == SEMICOLON
    ensures Lossy(ext) != "" ==> Lossy(ext)[0] == ';'
  {
    if ext != [] {
      LossyAscii(ext);
    }
  }

  lemma HexIsTrimmed(digits: string)
    requires digits != "" && AllHex(digits)
    ensures Trimmed(digits, Rust) && digits[0] != '+' && ';' !in digits
  {
  }

  datatype Chunk = Chunk(size: SizeLine, data: bytes) {
    predicate Valid() { size.Valid() && data != [] && HexNumber(Chars(size.digits)) == |data| }
  }

  function FramesOf(chunks: seq<Chunk>): (frames: seq<Frame>)
    ensures |frames| == |chunks|
    ensures forall i :: 0 <= i < |chunks| ==> frames[i] == Frame(chunks[i].size.Text(), chunks[i].data)
  {
    if chunks == [] then [] else [Frame(chunks[0].size.Text(), chunks[0].data)] + FramesOf(chunks[1..])
  }

  /** Every chunking, extension and trailer choice the standard allows for a
      body of at most 8 MiB reads as exactly that body. */
  lemma ChunkedBodyIsRead(w: Wire, chunks: seq<Chunk>, last: SizeLine, trailers: seq<bytes>, after: bytes)
    requires w.connected && |Body(FramesOf(chunks))| <= MAX_BODY_BYTES
    requires forall i :: 0 <= i < |chunks| ==> chunks[i].Valid()
    requires last.Valid() && HexNumber(Chars(last.digits)) == 0
    requires forall i :: 0 <= i < |trailers| ==> ValidTrailer(trailers[i])
    requires w.unread == Sent(Message(FramesOf(chunks), last.Text(), trailers, [CR]), after)
    ensures ChunkedFrom(w, []) == (Ok(Body(FramesOf(chunks))), w.(unread := after))
  {
    hide Announces, SizeLine.Valid, ChunkedFrom, Sent;
    SizeLineAnnounces(last);
    forall i | 0 <= i < |chunks| ensures ValidFrame(FramesOf(chunks)[i]) {
      SizeLineAnnounces(chunks[i].size);
    }
    var m := Message(FramesOf(chunks), last.Text(), trailers, [CR]);
    MessageIsRead(w, m, after, []);
    assert [] + Body(m.frames) == Body(m.frames);
  }

  // ---------------------------------------------------- a whole response --

  datatype Response = Response(status: nat, body: bytes)

  type Headers = seq<(string, string)>

  /** `HTTP/1.1 200 OK` is 200: the second word, when the first is HTTP's. */
  function ParseStatus(line: string): Result<nat, HttpError> {
    var words := Words(line);
    if |words| == 0 || !("HTTP/" <= words[0]) then Err(Malformed("status line is not HTTP"))
    else if |words| == 1 then Err(Malformed("status line has no code"))
    else match ParseUnsigned(words[1], 0xFFFF)
      case None => Err(Malformed("status code is not a number"))
      case Some(code) => Ok(code)
  }

  function AsciiLower(s: string): (r: string)
    ensures |r| == |s|
  {
    seq(|s|, i requires 0 <= i < |s| => Lower(s[i]))
  }

  function ParseHeader(line: string): Option<(string, string)> {
    var (name, value) :- SplitOnce(line, ':');
    Some((AsciiLower(Trim(name, Rust)), Trim(value, Rust)))
  }

  /** Header lines through the empty one, after those already in `headers`. */
  function HeadersFrom(w: Wire, headers: Headers): (Result<Headers, HttpError>, Wire)
    decreases |w.unread|
  {
    match TakeLine(w)
    case (Err(e), w1) => (Err(Unreachable(e)), w1)
    case (Ok(line), w1) =>
      if line == [] then (Ok(headers), w1)
      else match ParseHeader(Lossy(line))
        case None => (Err(Malformed("header has no colon")), w1)
        case Some(header) => HeadersFrom(w1, headers + [header])
  }

  /** The first value of a header. */
  function Header(headers: Headers, name: string): Option<string> {
    if headers == [] then None
    else if headers[0].0 == name then Some(headers[0].1)
    else Header(headers[1..], name)
  }

  predicate Contains(s: string, part: string) {
    part <= s || (s != "" && Contains(s[1..], part))
  }

  /** Lines, each with a line feed put back, until the peer closes. */
  function ToEndFrom(w: Wire, body: bytes): (Result<bytes, HttpError>, Wire)
    decreases |w.unread|
  {
    match TakeLine(w)
    case (Err(e), w1) => (if e == Closed then Ok(body) else Err(Unreachable(e)), w1)
    case (Ok(line), w1) =>
      if |body| + |LossyBytes(line)| > MAX_BODY_BYTES then (Err(Malformed("body too large")), w1)
      else ToEndFrom(w1, body + LossyBytes(line) + [LF])
  }

  function BodyFrom(w: Wire, headers: Headers): (Result<bytes, HttpError>, Wire) {
    match Header(headers, "content-length")
    case Some(text) =>
      (match ParseUnsigned(text, USIZE_MAX)
       case None => (Err(Malformed("content-length is not a number")), w)
       case Some(length) =>
         if length > MAX_BODY_BYTES then (Err(Malformed("body too large")), w)
         else match TakeExact(w, length)
           case (Err(e), w1) => (Err(Unreachable(e)), w1)
           case (Ok(body), w1) => (Ok(body), w1))
    case None =>
      match Header(headers, "transfer-encoding")
      case Some(coding) => if Contains(AsciiLower(coding), "chunked") then ChunkedFrom(w, []) else ToEndFrom(w, [])
      case None => ToEndFrom(w, [])
  }

  /** The reading half of `exchange`. */
  function ResponseFrom(w: Wire): (Result<Response, HttpError>, Wire) {
    match TakeLine(w)
    case (Err(e), w1) => (Err(Unreachable(e)), w1)
    case (Ok(line), w1) =>
      match ParseStatus(Lossy(line))
      case Err(e) => (Err(e), w1)
      case Ok(status) =>
        match HeadersFrom(w1, [])
        case (Err(e), w2) => (Err(e), w2)
        case (Ok(headers), w2) =>
          match BodyFrom(w2, headers)
          case (Err(e), w3) => (Err(e), w3)
          case (Ok(body), w3) => (Ok(Response(status, body)), w3)
  }

  method ReadHeaders(t: TlsTransport) returns (r: Result<Headers, HttpError>)
    modifies t`incoming
    ensures (r, t.View()) == HeadersFrom(old(t.View()), [])
  {
    hide LineFeedAt, ParseHeader;
    var headers: Headers := [];
    while true
      invariant HeadersFrom(t.View(), headers) == HeadersFrom(old(t.View()), [])
      decreases |t.incoming|
    {
      LossyOfNothing(match TakeLine(t.View()).0 case Ok(line) => line case Err(_) => []);
      hide Lossy;
      var line := t.ReadLine();
      if line.Err? {
        return Err(Unreachable(line.error));
      }
      if line.value == "" {
        return Ok(headers);
      }
      match ParseHeader(line.value) {
        case None => return Err(Malformed("header has no colon"));
        case Some(header) => headers := headers + [header];
      }
    }
  }

  method ReadToEnd(t: TlsTransport) returns (r: Result<bytes, HttpError>)
    modifies t`incoming
    ensures (r, t.View()) == ToEndFrom(old(t.View()), [])
  {
    hide LineFeedAt, Lossy, Encode;
    var body: bytes := [];
    while true
      invariant ToEndFrom(t.View(), body) == ToEndFrom(old(t.View()), [])
      decreases |t.incoming|
    {
      var line := t.ReadLine();
      if line.Err? {
        r := if line.error == Closed then Ok(body) else Err(Unreachable(line.error));
        return;
      }
      var text := Encode(line.value);
      if |body| + |text| > MAX_BODY_BYTES {
        return Err(Malformed("body too large"));
      }
      body := body + text + [LF];
    }
  }

  method ReadBody(t: TlsTransport, headers: Headers) returns (r: Result<bytes, HttpError>)
    modifies t`incoming
    ensures (r, t.View()) == BodyFrom(old(t.View()), headers)
  {
    var lengthText := Header(headers, "content-length");
    if lengthText.Some? {
      var length := ParseUnsigned(lengthText.value, USIZE_MAX);
      if length == None {
        return Err(Malformed("content-length is not a number"));
      }
      if length.value > MAX_BODY_BYTES {
        return Err(Malformed("body too large"));
      }
      var body := t.ReadExact(length.value);
      r := if body.Err? then Err(Unreachable(body.error)) else Ok(body.value);
      return;
    }
    var coding := Header(headers, "transfer-encoding");
    if coding.Some? && Contains(AsciiLower(coding.value), "chunked") {
      ghost var most;
      r, most := ReadChunked(t);
      return;
    }
    r := ReadToEnd(t);
  }

  method ReadResponse(t: TlsTransport) returns (r: Result<Response, HttpError>)
    modifies t`incoming
    ensures (r, t.View()) == ResponseFrom(old(t.View()))
  {
    hide LineFeedAt, Lossy, HeadersFrom, BodyFrom, ParseStatus;
    var line := t.ReadLine();
    if line.Err? {
      return Err(Unreachable(line.error));
    }
    var status := ParseStatus(line.value);
    if status.Err? {
      return Err(status.error);
    }
    var headers := ReadHeaders(t);
    if headers.Err? {
      return Err(headers.error);
    }
    var body := ReadBody(t, headers.value);
    r := if body.Err? then Err(body.error) else Ok(Response(status.value, body.value));
  }

  // ------------------------------------------------ reading a response --

  predicate HeaderLine(line: bytes, header: (string, string)) {
    ValidLine(line) && StripCr(line) != [] && ParseHeader(Lossy(StripCr(line))) == Some(header)
  }

  lemma {:induction false} HeadersAreRead(w: Wire, lines: seq<bytes>, headers: Headers, end: bytes, rest: bytes, seen: Headers)
    requires w.connected && w.unread == LinesText(lines) + (end + [LF] + rest)
    requires |lines| == |headers| && forall i :: 0 <= i < |lines| ==> HeaderLine(lines[i], headers[i])
    requires ValidLine(end) && StripCr(end) == []
    ensures HeadersFrom(w, seen) == (Ok(seen + headers), w.(unread := rest))
    decreases |lines|
  {
    hide TakeLine, ParseHeader, Lossy, StripCr, ValidLine;
    if lines == [] {
      NoLines(end + [LF] + rest);
      TakeValidLine(w, end, rest);
      assert seen + [] == seen;
    } else {
      var tail := LinesText(lines[1..]) + (end + [LF] + rest);
      assert w.unread == lines[0] + [LF] + tail by {
        assert [lines[0]] + lines[1..] == lines;
        LinesFirst(lines[0], lines[1..], end + [LF] + rest);
      }
      TakeValidLine(w, lines[0], tail);
      HeadersAreRead(w.(unread := tail), lines[1..], headers[1..], end, rest, seen + [headers[0]]);
      assert seen + [headers[0]] + headers[1..] == seen + headers;
    }
  }

  // ---------------------------------------------- bodies until the close --

  /** Without framing the bound can be passed by the one line feed put back. */
  lemma {:induction false} ToEndIsBounded(w: Wire, body: bytes)
    requires |body| <= MAX_BODY_BYTES + 1
    ensures ToEndFrom(w, body).0.Ok? ==> |ToEndFrom(w, body).0.value| <= MAX_BODY_BYTES + 1
    decreases |w.unread|
  {
    hide Lossy, LineFeedAt, Encode;
    var (line, w1) := TakeLine(w);
    if line.Ok? && |body| + |LossyBytes(line.value)| <= MAX_BODY_BYTES {
      ToEndIsBounded(w1, body + LossyBytes(line.value) + [LF]);
    }
  }

  /** What complete lines become: each decoded lossily without one carriage
      return, a line feed put back. */
  function Emitted(lines: seq<bytes>): bytes {
    if lines == [] then [] else LossyBytes(StripCr(lines[0])) + [LF] + Emitted(lines[1..])
  }

  predicate ValidLines(lines: seq<bytes>) { forall i :: 0 <= i < |lines| ==> ValidLine(lines[i]) }

  /** The peer sends these lines and an unterminated tail, then closes. */
  predicate ClosesAfter(w: Wire, lines: seq<bytes>, tail: bytes) {
    && w.connected && w.ending == Closed && w.unread == LinesText(lines) + tail
    && ValidLines(lines) && ValidLine(tail)
  }

  lemma TailEnds(w: Wire)
    requires w.connected && ValidLine(w.unread)
    ensures TakeLine(w) == (Err(w.ending), w.(unread := []))
  {
    NoLineTaken(w, w.unread, []);
    assert w.unread + [] == w.unread;
  }

  /** One line through the loop: it goes on exactly when the line fits. */
  lemma ToEndFirst(w: Wire, body: bytes, first: bytes)
    requires TakeLine(w).0 == Ok(StripCr(first))
    ensures var line := LossyBytes(StripCr(first));
            if |body| + |line| <= MAX_BODY_BYTES then ToEndFrom(w, body) == ToEndFrom(TakeLine(w).1, body + line + [LF])
            else ToEndFrom(w, body).0.Err?
  {
    hide TakeLine, LossyBytes, StripCr;
  }

  lemma ClosedFirst(w: Wire, lines: seq<bytes>, tail: bytes)
    requires lines != [] && ClosesAfter(w, lines, tail)
    ensures TakeLine(w).0 == Ok(StripCr(lines[0])) && ClosesAfter(TakeLine(w).1, lines[1..], tail)
  {
    hide TakeLine, StripCr, ValidLine;
    var rest := LinesText(lines[1..]) + tail;
    assert w.unread == lines[0] + [LF] + rest;
    TakeValidLine(w, lines[0], rest);
  }

  lemma ClosedTail(w: Wire, tail: bytes, body: bytes)
    requires ClosesAfter(w, [], tail)
    ensures ToEndFrom(w, body).0 == Ok(body)
  {
    assert [] + tail == tail;
    TailEnds(w);
    hide TakeLine;
  }

  lemma {:induction false} LinesAreReadToEnd(w: Wire, lines: seq<bytes>, tail: bytes, body: bytes)
    requires ClosesAfter(w, lines, tail) && |body| + |Emitted(lines)| <= MAX_BODY_BYTES + 1
    ensures ToEndFrom(w, body).0 == Ok(body + Emitted(lines))
    decreases |lines|
  {
    hide Lossy, Encode, StripCr, TakeLine, ToEndFrom, LossyBytes, ClosesAfter;
    if lines == [] {
      ClosedTail(w, tail, body);
      assert body + [] == body;
    } else {
      var line := LossyBytes(StripCr(lines[0]));
      ClosedFirst(w, lines, tail);
      ToEndFirst(w, body, lines[0]);
      LinesAreReadToEnd(TakeLine(w).1, lines[1..], tail, body + line + [LF]);
      assert body + line + [LF] + Emitted(lines[1..]) == body + (line + [LF] + Emitted(lines[1..]));
    }
  }

  lemma ToEndStops(w: Wire, body: bytes)
    requires ToEndFrom(w, body).0.Ok? && TakeLine(w).0.Err?
    ensures ToEndFrom(w, body).0 == Ok(body) && TakeLine(w).0 == Err(Closed)
  {
    hide TakeLine;
  }

  lemma ClosesFirst(w: Wire, first: bytes, rest: seq<bytes>, tail: bytes)
    requires w.connected && ValidLine(first) && TakeLine(w).1 == w.(unread := TakeLine(w).1.unread)
    requires w.unread == first + [LF] + TakeLine(w).1.unread && ClosesAfter(TakeLine(w).1, rest, tail)
    ensures ClosesAfter(w, [first] + rest, tail)
  {
    hide TakeLine, ValidLine;
    LinesFirst(first, rest, tail);
  }

  lemma {:induction false} ReadToEndWasLines(w: Wire, body: bytes) returns (lines: seq<bytes>, tail: bytes)
    requires ToEndFrom(w, body).0.Ok? && |body| <= MAX_BODY_BYTES + 1
    ensures ClosesAfter(w, lines, tail)
    ensures ToEndFrom(w, body).0 == Ok(body + Emitted(lines)) && |body| + |Emitted(lines)| <= MAX_BODY_BYTES + 1
    decreases |w.unread|
  {
    hide Lossy, Encode, StripCr, ValidLine, TakeLine, ToEndFrom, LossyBytes;
    if TakeLine(w).0.Err? {
      lines, tail := [], w.unread;
      ToEndStops(w, body);
      UnfinishedIsValid(w);
      assert [] + tail == tail && body + [] == body;
    } else {
      var first := LineWasTaken(w);
      var w1, line := TakeLine(w).1, LossyBytes(StripCr(first));
      ToEndFirst(w, body, first);
      var rest;
      rest, tail := ReadToEndWasLines(w1, body + line + [LF]);
      lines := [first] + rest;
      assert lines[1..] == rest;
      assert body + line + [LF] + Emitted(rest) == body + (line + [LF] + Emitted(rest));
      ClosesFirst(w, first, rest, tail);
    }
  }

  lemma UnfinishedIsValid(w: Wire)
    requires TakeLine(w).0 == Err(Closed)
    ensures w.connected && w.ending == Closed && ValidLine(w.unread)
  {
  }

  /** An unframed body comes back exactly when the peer sends lines and an
      unterminated tail within the line limit and closes; it is the lines'
      emission, without the tail, of at most one byte over the body limit. */
  lemma UnframedExactly(w: Wire, out: bytes)
    ensures ToEndFrom(w, []).0 == Ok(out)
       <==> |out| <= MAX_BODY_BYTES + 1 && exists lines, tail :: ClosesAfter(w, lines, tail) && out == Emitted(lines)
  {
    hide ToEndFrom, ClosesAfter, Emitted;
    if ToEndFrom(w, []).0 == Ok(out) {
      var lines, tail := ReadToEndWasLines(w, []);
      assert [] + Emitted(lines) == Emitted(lines);
    }
    if lines, tail :| |out| <= MAX_BODY_BYTES + 1 && ClosesAfter(w, lines, tail) && out == Emitted(lines) {
      LinesAreReadToEnd(w, lines, tail, []);
      assert [] + Emitted(lines) == Emitted(lines);
    }
  }

  /** A line the reader gives back as it came. */
  predicate PlainLine(line: bytes) { ValidLine(line) && ValidUtf8(line) && StripCr(line) == line }

  predicate PlainText(text: bytes, lines: seq<bytes>) {
    text == LinesText(lines) && forall i :: 0 <= i < |lines| ==> PlainLine(lines[i])
  }

  lemma {:induction false} PlainIsEmitted(lines: seq<bytes>)
    requires forall i :: 0 <= i < |lines| ==> PlainLine(lines[i])
    ensures Emitted(lines) == LinesText(lines)
    decreases |lines|
  {
    if lines != [] {
      assert PlainLine(lines[0]);
      LossyKeepsValid(lines[0]);
      PlainIsEmitted(lines[1..]);
    }
  }

  lemma SameFirstLine(a: bytes, x: bytes, b: bytes, y: bytes)
    requires LF !in a && LF !in b && a + [LF] + x == b + [LF] + y
    ensures a == b && x == y
  {
    var s := a + [LF] + x;
    LineFeedAfter(a, [LF] + x);
    LineFeedAfter(b, [LF] + y);
    assert s == a + ([LF] + x) == b + ([LF] + y);
    assert s[..|a|] == a && s[..|b|] == b && s[|a| + 1..] == x && s[|b| + 1..] == y;
  }

  lemma EmittedLine(line: bytes)
    requires ValidLine(line)
    ensures LF !in LossyBytes(StripCr(line))
    ensures LossyBytes(StripCr(line)) == line ==> PlainLine(line)
  {
    var s := StripCr(line);
    var more := line[|s|..];
    assert s + more == line;
    LossyAddsNo(s, LF);
    if LossyBytes(s) == line {
      LossyKeepsOnlyValid(s, more);
    }
  }

  lemma {:induction false} EmittedIsPlain(lines: seq<bytes>, tail: bytes)
    requires ValidLines(lines) && LinesText(lines) + tail == Emitted(lines) && LF !in tail
    ensures tail == [] && forall i :: 0 <= i < |lines| ==> PlainLine(lines[i])
    decreases |lines|
  {
    hide LossyBytes, StripCr, PlainLine;
    if lines != [] {
      assert ValidLine(lines[0]);
      EmittedLine(lines[0]);
      assert LinesText(lines) + tail == lines[0] + [LF] + (LinesText(lines[1..]) + tail);
      SameFirstLine(lines[0], LinesText(lines[1..]) + tail, LossyBytes(StripCr(lines[0])), Emitted(lines[1..]));
      EmittedIsPlain(lines[1..], tail);
    }
  }

  /** An unframed body comes through unchanged exactly when it is at most one
      byte over the limit and consists of complete lines of valid UTF-8 within
      the line limit, none ending in a carriage return. */
  lemma UnframedIsKeptIff(w: Wire)
    ensures ToEndFrom(w, []).0 == Ok(w.unread)
       <==> w.connected && w.ending == Closed && |w.unread| <= MAX_BODY_BYTES + 1
            && exists lines :: PlainText(w.unread, lines)
  {
    UnframedExactly(w, w.unread);
    hide PlainLine, ToEndFrom, Emitted, LinesText;
    if lines, tail :| ClosesAfter(w, lines, tail) && w.unread == Emitted(lines) {
      EmittedIsPlain(lines, tail);
      assert LinesText(lines) + [] == LinesText(lines);
      assert PlainText(w.unread, lines);
    }
    if lines :| w.connected && w.ending == Closed && PlainText(w.unread, lines) {
      PlainIsEmitted(lines);
      assert LinesText(lines) + [] == LinesText(lines);
      assert ClosesAfter(w, lines, []) by { PlainIsValid(lines); }
    }
  }

  lemma PlainIsValid(lines: seq<bytes>)
    requires forall i :: 0 <= i < |lines| ==> PlainLine(lines[i])
    ensures ValidLines(lines) && ValidLine([])
  {
  }

  lemma {:induction false} EmptyLines(n: nat) returns (lines: seq<bytes>)
    ensures |LinesText(lines)| == n && forall i :: 0 <= i < |lines| ==> PlainLine(lines[i])
    decreases n
  {
    if n == 0 {
      lines := [];
    } else {
      var rest := EmptyLines(n - 1);
      lines := [[]] + rest;
      assert lines[1..] == rest;
    }
  }

  /** The one byte over the limit is reached. */
  lemma LimitIsPassed()
    ensures exists w :: ToEndFrom(w, []).0 == Ok(w.unread) && |w.unread| == MAX_BODY_BYTES + 1
  {
    hide ToEndFrom, LinesText, PlainLine;
    var lines := EmptyLines(MAX_BODY_BYTES + 1);
    var w := Wire(true, LinesText(lines), Closed);
    assert PlainText(w.unread, lines);
    UnframedIsKeptIff(w);
  }
}
