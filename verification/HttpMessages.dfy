/** HTTP/1.1 responses from their bytes: status line, fields in any letter case,
    and the framing they declare. */
module HttpMessages {
  import opened Results
  import opened Wrappers
  import opened Splitting
  import opened Trimming
  import opened Whitespace
  import opened Decimal
  import opened Letters
  import opened Utf8
  import opened HttpReader

  const COLON: byte := 58
  const ZERO: byte := 48

  predicate Visible(b: byte) { 33 <= b < 127 }

  predicate AllVisible(s: bytes) { forall i :: 0 <= i < |s| ==> Visible(s[i]) }

  predicate AllDigitBytes(s: bytes) { forall i :: 0 <= i < |s| ==> ZERO <= s[i] <= 57 }

  predicate Blanks(s: bytes) { forall i :: 0 <= i < |s| ==> s[i] == SPACE || s[i] == TAB }

  /** `HTTP/1.1 200 OK`: a version, three digits, any reason. */
  datatype StatusLine = StatusLine(version: bytes, code: bytes, reason: bytes) {
    predicate Valid() {
      && |version| >= 5 && version[..5] == [72, 84, 84, 80, 47] && AllVisible(version)
      && |code| == 3 && AllDigitBytes(code)
      && LF !in reason && |Text()| <= MAX_LINE_BYTES
    }

    function Text(): bytes { version + [SPACE] + code + [SPACE] + reason }

    function Number(): int
      requires |code| == 3
    {
      100 * (code[0] - ZERO) + 10 * (code[1] - ZERO) + (code[2] - ZERO)
    }
  }

  /** `Name: value`, as sent. */
  datatype Field = Field(name: bytes, rest: bytes) {
    predicate Valid() {
      name != [] && AllVisible(name) && COLON !in name && LF !in rest && |Text()| <= MAX_LINE_BYTES
    }

    function Text(): bytes { name + [COLON] + rest }
  }

  /** The same letter, the byte in either case. */
  predicate SameLetter(b: byte, c: char) { b == c as int || (65 <= b <= 90 && b + 32 == c as int) }

  predicate Spells(s: bytes, lower: string) { |s| == |lower| && forall i :: 0 <= i < |s| ==> SameLetter(s[i], lower[i]) }

  /** The first field of this name. */
  predicate FirstAt(fields: seq<Field>, lower: string, i: nat) {
    i < |fields| && Spells(fields[i].name, lower) && forall j :: 0 <= j < i ==> !Spells(fields[j].name, lower)
  }

  predicate Absent(fields: seq<Field>, lower: string) { forall j :: 0 <= j < |fields| ==> !Spells(fields[j].name, lower) }

  /** The field's value: what is left of blanks on both sides and of a carriage
      return. */
  ghost predicate HasValue(f: Field, value: bytes) {
    && value != [] && IsAscii(value) && Visible(value[0]) && Visible(value[|value| - 1])
    && exists lead, trail, cr :: Blanks(lead) && Blanks(trail) && cr in [[], [CR]] && f.rest == Around(lead, value, trail, cr)
  }

  function Around(lead: bytes, value: bytes, trail: bytes, cr: bytes): bytes { lead + value + trail + cr }

  // -------------------------------------------------------- the status line --

  lemma StripAfter(head: bytes, tail: bytes)
    requires head != [] && head[|head| - 1] != CR
    ensures StripCr(head + tail) == head + StripCr(tail)
  {
    if tail == [] {
      assert head + tail == head;
    }
  }

  lemma CharsConcat(a: bytes, b: bytes)
    requires IsAscii(a) && IsAscii(b)
    ensures IsAscii(a + b) && Chars(a + b) == Chars(a) + Chars(b)
  {
  }

  lemma VisibleIsWord(s: bytes)
    requires AllVisible(s)
    ensures IsAscii(s) && NoWhitespace(Chars(s))
  {
  }

  lemma CodeIsNumber(code: bytes)
    requires |code| == 3 && AllDigitBytes(code)
    ensures IsAscii(code) && ParseUnsigned(Chars(code), 0xFFFF) == Some(100 * (code[0] - ZERO) + 10 * (code[1] - ZERO) + (code[2] - ZERO))
  {
    var c := Chars(code);
    var one, two := [c[0]], [c[0], c[1]];
    assert AllDigits(c) && c[..2] == two && two[..1] == one && one[..0] == "";
    assert ValueOf(one) == DigitValue(c[0]);
    assert ValueOf(two) == 10 * DigitValue(c[0]) + DigitValue(c[1]);
  }

  lemma WordsOfStatus(version: string, code: string, reason: string)
    requires version != "" && code != "" && NoWhitespace(version) && NoWhitespace(code)
    ensures var words := Words(version + " " + code + " " + reason);
            |words| >= 2 && words[0] == version && words[1] == code
  {
    hide Words;
    var rest := code + (" " + reason);
    FirstWord(code, " " + reason);
    FirstWord(version, " " + rest);
    AfterSpace(rest);
    assert version + " " + code + " " + reason == version + (" " + (code + (" " + reason)));
  }

  lemma StatusHead(version: bytes, code: bytes)
    requires AllVisible(version) && AllVisible(code)
    ensures var head := version + [SPACE] + code + [SPACE];
            && IsAscii(version) && IsAscii(code) && IsAscii(head) && LF !in head
            && Chars(head) == Chars(version) + " " + Chars(code) + " "
  {
    VisibleIsWord(version);
    VisibleIsWord(code);
  }

  lemma StatusText(version: bytes, code: bytes, reason: bytes)
    requires AllVisible(version) && AllVisible(code)
    ensures IsAscii(version) && IsAscii(code)
    ensures Lossy(StripCr(version + [SPACE] + code + [SPACE] + reason))
         == Chars(version) + " " + Chars(code) + " " + Lossy(StripCr(reason))
  {
    var head := version + [SPACE] + code + [SPACE];
    StatusHead(version, code);
    hide Lossy, StripCr, AllVisible;
    StripAfter(head, reason);
    LossyAsciiPrefix(head, StripCr(reason));
  }

  lemma StatusOfWords(version: string, code: string, reason: string, n: nat)
    requires |version| >= 5 && version[..5] == "HTTP/" && NoWhitespace(version)
    requires code != "" && NoWhitespace(code) && ParseUnsigned(code, 0xFFFF) == Some(n)
    ensures ParseStatus(version + " " + code + " " + reason) == Ok(n)
  {
    hide Words, ParseUnsigned, NoWhitespace;
    WordsOfStatus(version, code, reason);
  }

  lemma StatusLineIsValid(l: StatusLine)
    requires l.Valid()
    ensures ValidLine(l.Text())
  {
    StatusHead(l.version, l.code);
  }

  /** The status is the number its three digits spell. */
  lemma StatusIsRead(l: StatusLine)
    requires l.Valid()
    ensures ValidLine(l.Text()) && l.Number() >= 0 && ParseStatus(Lossy(StripCr(l.Text()))) == Ok(l.Number())
  {
    assert AllVisible(l.code);
    StatusLineIsValid(l);
    VisibleIsWord(l.version);
    VisibleIsWord(l.code);
    CodeIsNumber(l.code);
    assert Chars(l.version)[..5] == Chars(l.version[..5]) == "HTTP/";
    hide Lossy, Words, ParseUnsigned, StripCr, NoWhitespace, AllVisible, ParseStatus, ValidLine, AllDigitBytes;
    StatusText(l.version, l.code, l.reason);
    StatusOfWords(Chars(l.version), Chars(l.code), Lossy(StripCr(l.reason)), l.Number());
  }

  // ------------------------------------------------------------- one field --

  predicate NoCapitals(s: string) { forall i :: 0 <= i < |s| ==> !('A' <= s[i] <= 'Z') }

  lemma LowerSpells(s: bytes, lower: string)
    requires IsAscii(s) && NoCapitals(lower)
    ensures AsciiLower(Chars(s)) == lower <==> Spells(s, lower)
  {
    var t := AsciiLower(Chars(s));
    if t == lower {
      forall i | 0 <= i < |s| ensures SameLetter(s[i], lower[i]) {
        assert t[i] == lower[i];
      }
    }
  }

  function HeaderOf(f: Field): (string, string)
    requires IsAscii(f.name)
  {
    (AsciiLower(Chars(f.name)), Trim(Lossy(StripCr(f.rest)), Rust))
  }

  lemma FieldIsRead(f: Field)
    requires f.Valid()
    ensures IsAscii(f.name) && HeaderLine(f.Text(), HeaderOf(f))
  {
    VisibleIsWord(f.name);
    var head, rest := f.name + [COLON], StripCr(f.rest);
    StripAfter(head, f.rest);
    LossyAsciiPrefix(head, rest);
    var name := Chars(f.name);
    assert Chars(head) == name + ":";
    hide Lossy, StripCr, Trim;
    assert ':' !in name;
    SplitFirst(name, ':', Lossy(rest));
    assert name + [':'] + Lossy(rest) == name + ":" + Lossy(rest);
    assert "" + name + "" == name;
    TrimOfPadded("", name, "", Rust);
    assert LF !in f.Text();
  }

  lemma StripsReturn(text: bytes, cr: bytes)
    requires text != [] && text[|text| - 1] != CR && cr in [[], [CR]]
    ensures StripCr(text + cr) == text
  {
    StripAfter(text, cr);
    assert StripCr(cr) == [] && text + [] == text;
  }

  lemma BlanksAreBlank(s: bytes)
    requires Blanks(s)
    ensures IsAscii(s) && AllBlank(Chars(s), Rust) && CR !in s
  {
  }

  lemma VisibleEnds(value: bytes)
    requires value != [] && IsAscii(value) && Visible(value[0]) && Visible(value[|value| - 1])
    ensures Chars(value) != "" && Trimmed(Chars(value), Rust) && value[|value| - 1] != CR
  {
  }

  lemma LastOfThree(a: bytes, b: bytes, c: bytes)
    requires b != [] && b[|b| - 1] != CR && CR !in c
    ensures (a + b + c)[|a + b + c| - 1] != CR
  {
    assert (a + b + c)[|a + b + c| - 1] == if c == [] then b[|b| - 1] else c[|c| - 1];
  }

  lemma LossyOfAscii(s: bytes)
    requires IsAscii(s)
    ensures Lossy(s) == Chars(s)
  {
    LossyAsciiPrefix(s, []);
    assert s + [] == s && Chars(s) + "" == Chars(s) && Lossy([]) == "";
  }

  lemma ValueBetweenBlanks(lead: bytes, value: bytes, trail: bytes)
    requires Blanks(lead) && Blanks(trail)
    requires value != [] && IsAscii(value) && Visible(value[0]) && Visible(value[|value| - 1])
    ensures Trim(Lossy(lead + value + trail), Rust) == Chars(value)
    ensures (lead + value + trail)[|lead + value + trail| - 1] != CR
  {
    BlanksAreBlank(lead);
    BlanksAreBlank(trail);
    VisibleEnds(value);
    LastOfThree(lead, value, trail);
    hide Blanks, Lossy, Trim, Trimmed, AllBlank;
    CharsConcat(lead, value);
    CharsConcat(lead + value, trail);
    LossyOfAscii(lead + value + trail);
    TrimOfPadded(Chars(lead), Chars(value), Chars(trail), Rust);
  }

  /** The value of a field is what stands between the blanks. */
  lemma ValueIsRead(f: Field, value: bytes)
    requires HasValue(f, value)
    ensures Trim(Lossy(StripCr(f.rest)), Rust) == Chars(value)
  {
    var lead, trail, cr :| Blanks(lead) && Blanks(trail) && cr in [[], [CR]] && f.rest == Around(lead, value, trail, cr);
    ValueBetweenBlanks(lead, value, trail);
    hide Lossy, Trim, StripCr, Blanks;
    StripsReturn(lead + value + trail, cr);
  }

  // ------------------------------------------------------------ all fields --

  function Texts(fields: seq<Field>): seq<bytes> { seq(|fields|, i requires 0 <= i < |fields| => fields[i].Text()) }

  predicate AllValid(fields: seq<Field>) { forall i :: 0 <= i < |fields| ==> fields[i].Valid() }

  predicate ReadFrom(headers: Headers, fields: seq<Field>) {
    |headers| == |fields| && forall i :: 0 <= i < |fields| ==> IsAscii(fields[i].name) && headers[i] == HeaderOf(fields[i])
  }

  lemma FieldsAreRead(fields: seq<Field>) returns (headers: Headers)
    requires AllValid(fields)
    ensures ReadFrom(headers, fields)
    ensures |Texts(fields)| == |headers| && forall i :: 0 <= i < |headers| ==> HeaderLine(Texts(fields)[i], headers[i])
  {
    forall i | 0 <= i < |fields| ensures IsAscii(fields[i].name) && HeaderLine(fields[i].Text(), HeaderOf(fields[i])) {
      FieldIsRead(fields[i]);
    }
    hide HeaderLine, HeaderOf;
    headers := seq(|fields|, i requires 0 <= i < |fields| => HeaderOf(fields[i]));
  }

  /** The first field of a name decides, whatever case it is in. */
  lemma {:induction false} FirstDecides(headers: Headers, fields: seq<Field>, lower: string, i: nat)
    requires ReadFrom(headers, fields) && NoCapitals(lower) && FirstAt(fields, lower, i)
    ensures Header(headers, lower) == Some(headers[i].1)
    decreases |headers|
  {
    hide Trim, Lossy, StripCr, Spells;
    LowerSpells(fields[0].name, lower);
    hide AsciiLower;
    if i > 0 {
      FirstDecides(headers[1..], fields[1..], lower, i - 1);
    }
  }

  lemma {:induction false} AbsentIsNone(headers: Headers, fields: seq<Field>, lower: string)
    requires ReadFrom(headers, fields) && NoCapitals(lower) && Absent(fields, lower)
    ensures Header(headers, lower) == None
    decreases |headers|
  {
    hide Trim, Lossy, StripCr, Spells;
    if headers != [] {
      LowerSpells(fields[0].name, lower);
      hide AsciiLower;
      AbsentIsNone(headers[1..], fields[1..], lower);
    }
  }

  // --------------------------------------------------------------- framing --

  /** The first Content-Length field holds these digits, spelling this number. */
  ghost predicate Counted(fields: seq<Field>, n: nat) {
    exists i: nat, digits :: FirstAt(fields, "content-length", i) && HasValue(fields[i], digits) && Spelt(digits, n)
  }

  predicate Spelt(digits: bytes, n: nat) { AllDigitBytes(digits) && IsAscii(digits) && ValueOfBytes(digits) == n }

  /** Decimal digits, most significant first. */
  function ValueOfBytes(digits: bytes): int
  {
    if digits == [] then 0 else 10 * ValueOfBytes(digits[..|digits| - 1]) + (digits[|digits| - 1] - ZERO)
  }

  /** There is no Content-Length field, and the first Transfer-Encoding field
      holds `chunked` somewhere, in any case. */
  ghost predicate Chunked(fields: seq<Field>) {
    && Absent(fields, "content-length")
    && exists i: nat, before, word, behind ::
         FirstAt(fields, "transfer-encoding", i) && Spells(word, "chunked") && HasValue(fields[i], Around([], before, word, behind))
  }

  /** These bytes are a chunked message by section 7.1 of RFC 9112, then `after`. */
  ghost predicate SentInChunks(text: bytes, body: bytes, after: bytes) {
    exists chunks, last, trailers :: Chunking(chunks, last, trailers)
      && body == Body(FramesOf(chunks)) && text == Sent(Message(FramesOf(chunks), last.Text(), trailers, [CR]), after)
  }

  ghost predicate Chunking(chunks: seq<Chunk>, last: SizeLine, trailers: seq<bytes>) {
    && (forall i :: 0 <= i < |chunks| ==> chunks[i].Valid())
    && last.Valid() && HexNumber(Chars(last.digits)) == 0
    && (forall i :: 0 <= i < |trailers| ==> ValidTrailer(trailers[i]))
  }

  lemma {:induction false} DigitsAreNumber(digits: bytes)
    requires AllDigitBytes(digits) && IsAscii(digits)
    ensures AllDigits(Chars(digits)) && ValueOf(Chars(digits)) == ValueOfBytes(digits)
    decreases |digits|
  {
    if digits != [] {
      var n := |digits| - 1;
      DigitsAreNumber(digits[..n]);
      assert Chars(digits)[..n] == Chars(digits[..n]);
    }
  }

  lemma DigitsAreLength(digits: bytes, n: nat)
    requires digits != [] && Spelt(digits, n) && n <= USIZE_MAX
    ensures ParseUnsigned(Chars(digits), USIZE_MAX) == Some(n)
  {
    DigitsAreNumber(digits);
    hide ValueOf, ValueOfBytes;
    assert Chars(digits)[0] != '+';
  }

  lemma FirstValue(headers: Headers, fields: seq<Field>, lower: string, i: nat, value: bytes)
    requires ReadFrom(headers, fields) && NoCapitals(lower) && FirstAt(fields, lower, i) && HasValue(fields[i], value)
    ensures value != [] && IsAscii(value) && Header(headers, lower) == Some(Chars(value))
  {
    hide Trim, Lossy, StripCr, Spells, Header;
    FirstDecides(headers, fields, lower, i);
    ValueIsRead(fields[i], value);
  }

  lemma LengthIsRead(headers: Headers, fields: seq<Field>, n: nat)
    requires ReadFrom(headers, fields) && Counted(fields, n) && n <= USIZE_MAX
    ensures Header(headers, "content-length").Some?
    ensures ParseUnsigned(Header(headers, "content-length").value, USIZE_MAX) == Some(n)
  {
    hide ParseUnsigned, Spelt, HasValue, Spells, Header, ReadFrom;
    var i: nat, digits :| FirstAt(fields, "content-length", i) && HasValue(fields[i], digits) && Spelt(digits, n);
    FirstValue(headers, fields, "content-length", i, digits);
    DigitsAreLength(digits, n);
  }

  lemma CountedBodyIsRead(w: Wire, headers: Headers, fields: seq<Field>, body: bytes, after: bytes)
    requires w.connected && ReadFrom(headers, fields) && Counted(fields, |body|)
    requires w.unread == body + after && |body| <= MAX_BODY_BYTES
    ensures BodyFrom(w, headers) == (Ok(body), w.(unread := after))
  {
    hide ReadFrom, Counted, ParseUnsigned, Header, TakeExact;
    LengthIsRead(headers, fields, |body|);
    TakePrefix(w, body, after);
  }

  lemma {:induction false} ContainsAt(before: string, word: string, behind: string)
    ensures Contains(before + word + behind, word)
    decreases |before|
  {
    var s := before + word + behind;
    if before == "" {
      assert s[..|word|] == word;
    } else {
      assert s[1..] == before[1..] + word + behind;
      ContainsAt(before[1..], word, behind);
    }
  }

  lemma LowerConcat(a: string, b: string)
    ensures AsciiLower(a + b) == AsciiLower(a) + AsciiLower(b)
  {
  }

  /** `chunked` is found at any place of the coding, in any case. */
  lemma ChunkedIsFound(before: bytes, word: bytes, behind: bytes)
    requires Spells(word, "chunked") && IsAscii(before + word + behind)
    ensures Contains(AsciiLower(Chars(before + word + behind)), "chunked")
  {
    assert forall i :: 0 <= i < |before| ==> before[i] == (before + word + behind)[i];
    assert forall i :: 0 <= i < |word| ==> word[i] == (before + word + behind)[|before| + i];
    assert forall i :: 0 <= i < |behind| ==> behind[i] == (before + word + behind)[|before + word| + i];
    var a, b, c := Chars(before), Chars(word), Chars(behind);
    assert Chars(before + word + behind) == a + b + c;
    LowerSpells(word, "chunked");
    LowerConcat(a + b, c);
    LowerConcat(a, b);
    hide AsciiLower;
    ContainsAt(AsciiLower(a), "chunked", AsciiLower(c));
  }

  lemma CodingIsRead(headers: Headers, fields: seq<Field>)
    requires ReadFrom(headers, fields) && Chunked(fields)
    ensures Header(headers, "transfer-encoding").Some?
    ensures Contains(AsciiLower(Header(headers, "transfer-encoding").value), "chunked")
  {
    hide Spells, Header, Contains, AsciiLower, HasValue, ReadFrom;
    var i: nat, before, word, behind :| FirstAt(fields, "transfer-encoding", i) && Spells(word, "chunked")
      && HasValue(fields[i], Around([], before, word, behind));
    assert Around([], before, word, behind) == before + word + behind;
    FirstValue(headers, fields, "transfer-encoding", i, before + word + behind);
    ChunkedIsFound(before, word, behind);
  }

  lemma ChunkedBodyIsSelected(w: Wire, headers: Headers, fields: seq<Field>)
    requires ReadFrom(headers, fields) && Chunked(fields)
    ensures BodyFrom(w, headers) == ChunkedFrom(w, [])
  {
    AbsentIsNone(headers, fields, "content-length");
    hide ReadFrom, Chunked, Header, ChunkedFrom, Contains, AsciiLower;
    CodingIsRead(headers, fields);
  }

  ghost predicate Framed(fields: seq<Field>, text: bytes, body: bytes, after: bytes) {
    (Counted(fields, |body|) && text == body + after) || (Chunked(fields) && SentInChunks(text, body, after))
  }

  lemma FramedBodyIsRead(w: Wire, headers: Headers, fields: seq<Field>, body: bytes, after: bytes)
    requires w.connected && ReadFrom(headers, fields) && Framed(fields, w.unread, body, after) && |body| <= MAX_BODY_BYTES
    ensures BodyFrom(w, headers) == (Ok(body), w.(unread := after))
  {
    hide ReadFrom, Counted, Chunked, BodyFrom, ChunkedFrom, Chunking, Sent, Body;
    if Counted(fields, |body|) && w.unread == body + after {
      CountedBodyIsRead(w, headers, fields, body, after);
    } else {
      var chunks, last, trailers :| Chunking(chunks, last, trailers) && body == Body(FramesOf(chunks))
        && w.unread == Sent(Message(FramesOf(chunks), last.Text(), trailers, [CR]), after);
      ChunkedBodyIsSelected(w, headers, fields);
      ChunkingIsRead(w, chunks, last, trailers, after);
    }
  }

  lemma ChunkingIsRead(w: Wire, chunks: seq<Chunk>, last: SizeLine, trailers: seq<bytes>, after: bytes)
    requires w.connected && Chunking(chunks, last, trailers) && |Body(FramesOf(chunks))| <= MAX_BODY_BYTES
    requires w.unread == Sent(Message(FramesOf(chunks), last.Text(), trailers, [CR]), after)
    ensures ChunkedFrom(w, []) == (Ok(Body(FramesOf(chunks))), w.(unread := after))
  {
    hide Sent, ChunkedFrom, SizeLine.Valid, Chunk.Valid, ValidTrailer;
    ChunkedBodyIsRead(w, chunks, last, trailers, after);
  }

  /** The bytes of a whole response, up to the body. */
  function Opening(status: StatusLine, fields: seq<Field>, end: bytes, text: bytes): bytes {
    status.Text() + [LF] + (LinesText(Texts(fields)) + (end + [LF] + text))
  }

  lemma OpeningIsRead(w: Wire, status: StatusLine, fields: seq<Field>, end: bytes, text: bytes) returns (headers: Headers)
    requires w.connected && w.unread == Opening(status, fields, end, text)
    requires status.Valid() && AllValid(fields) && end in [[], [CR]]
    ensures ReadFrom(headers, fields) && status.Number() >= 0
    ensures ResponseFrom(w) ==
              match BodyFrom(w.(unread := text), headers)
              case (Err(e), w1) => (Err(e), w1)
              case (Ok(body), w1) => (Ok(Response(status.Number(), body)), w1)
  {
    headers := FieldsAreRead(fields);
    StatusIsRead(status);
    assert ValidLine(end) && StripCr(end) == [];
    hide TakeLine, HeadersFrom, BodyFrom, ParseStatus, Lossy, StripCr, HeaderLine, ValidLine, LinesText, Texts, ReadFrom;
    var rest := LinesText(Texts(fields)) + (end + [LF] + text);
    TakeValidLine(w, status.Text(), rest);
    HeadersAreRead(w.(unread := rest), Texts(fields), headers, end, text, []);
    assert [] + headers == headers;
  }

  /** A response whose body is framed by length or by chunk is read to its
      status and its exact body, and nothing past it is consumed. */
  lemma ResponseIsRead(w: Wire, status: StatusLine, fields: seq<Field>, end: bytes, text: bytes, body: bytes, after: bytes)
    requires w.connected && w.unread == Opening(status, fields, end, text)
    requires status.Valid() && AllValid(fields) && end in [[], [CR]]
    requires Framed(fields, text, body, after) && |body| <= MAX_BODY_BYTES
    ensures status.Number() >= 0 && ResponseFrom(w) == (Ok(Response(status.Number(), body)), w.(unread := after))
  {
    hide Opening, ResponseFrom, BodyFrom, Framed, ReadFrom, StatusLine.Valid, AllValid;
    var headers := OpeningIsRead(w, status, fields, end, text);
    FramedBodyIsRead(w.(unread := text), headers, fields, body, after);
  }

  lemma UnframedIsSelected(w: Wire, headers: Headers, fields: seq<Field>)
    requires ReadFrom(headers, fields) && Absent(fields, "content-length") && Absent(fields, "transfer-encoding")
    ensures BodyFrom(w, headers) == ToEndFrom(w, [])
  {
    hide ReadFrom, Absent, ToEndFrom, Header;
    AbsentIsNone(headers, fields, "content-length");
    AbsentIsNone(headers, fields, "transfer-encoding");
  }

  /** A response that declares no framing is read to the close. */
  lemma UnframedResponseIsRead(w: Wire, status: StatusLine, fields: seq<Field>, end: bytes, lines: seq<bytes>, tail: bytes)
    requires w.connected && w.ending == Closed && w.unread == Opening(status, fields, end, LinesText(lines) + tail)
    requires status.Valid() && AllValid(fields) && end in [[], [CR]]
    requires Absent(fields, "content-length") && Absent(fields, "transfer-encoding")
    requires ValidLines(lines) && ValidLine(tail) && |Emitted(lines)| <= MAX_BODY_BYTES + 1
    ensures status.Number() >= 0 && ResponseFrom(w).0 == Ok(Response(status.Number(), Emitted(lines)))
  {
    hide Opening, ResponseFrom, BodyFrom, ReadFrom, StatusLine.Valid, AllValid, Absent, ToEndFrom, Emitted, LinesText,
         ValidLines, ValidLine, ClosesAfter;
    var text := LinesText(lines) + tail;
    var headers := OpeningIsRead(w, status, fields, end, text);
    UnframedIsSelected(w.(unread := text), headers, fields);
    ClosesAfterLines(w.(unread := text), lines, tail);
    UnframedExactly(w.(unread := text), Emitted(lines));
  }

  lemma ClosesAfterLines(w: Wire, lines: seq<bytes>, tail: bytes)
    requires w.connected && w.ending == Closed && w.unread == LinesText(lines) + tail && ValidLines(lines) && ValidLine(tail)
    ensures ClosesAfter(w, lines, tail)
  {
  }

  // -------------------------------------------------------------- refusals --

  /** A first line that does not open with `HTTP/` is refused. */
  lemma OtherProtocolIsRefused(w: Wire, word: bytes, reason: bytes, rest: bytes)
    requires w.connected && w.unread == word + [SPACE] + reason + [LF] + rest
    requires word != [] && AllVisible(word) && !([72, 84, 84, 80, 47] <= word)
    requires LF !in reason && |word| + 1 + |reason| <= MAX_LINE_BYTES
    ensures ResponseFrom(w).0.Err?
  {
    hide Lossy, StripCr, HeadersFrom, BodyFrom, TakeLine, ParseStatus, Chars;
    var line := word + [SPACE] + reason;
    VisibleIsWord(word);
    TakeValidLine(w, line, rest);
    LineAfterWord(word, reason);
    WordIsRefused(word, " " + Lossy(StripCr(reason)));
  }

  lemma LineAfterWord(word: bytes, reason: bytes)
    requires word != [] && AllVisible(word)
    ensures IsAscii(word) && Lossy(StripCr(word + [SPACE] + reason)) == Chars(word) + (" " + Lossy(StripCr(reason)))
  {
    hide Lossy, StripCr;
    var head := word + [SPACE];
    VisibleIsWord(word);
    StripAfter(head, reason);
    LossyAsciiPrefix(head, StripCr(reason));
    assert Chars(head) == Chars(word) + " ";
  }

  lemma WordIsRefused(word: bytes, tail: string)
    requires word != [] && AllVisible(word) && !([72, 84, 84, 80, 47] <= word)
    requires tail != "" && IsWhitespace(tail[0])
    ensures ParseStatus(Chars(word) + tail).Err?
  {
    hide Words;
    VisibleIsWord(word);
    FirstWord(Chars(word), tail);
    HttpIsFiveBytes(word);
  }

  lemma HttpIsFiveBytes(word: bytes)
    requires IsAscii(word)
    ensures "HTTP/" <= Chars(word) ==> [72, 84, 84, 80, 47] <= word
  {
    if "HTTP/" <= Chars(word) {
      assert forall i :: 0 <= i < 5 ==> Chars(word)[i] == "HTTP/"[i] && Chars(word)[i] == word[i] as char;
      assert word[..5] == [72, 84, 84, 80, 47];
    }
  }

  /** A field line without a colon is refused, after any fields before it. */
  lemma {:induction false} ColonIsNeeded(w: Wire, fields: seq<Field>, line: bytes, rest: bytes, seen: Headers)
    requires w.connected && w.unread == LinesText(Texts(fields)) + (line + [LF] + rest)
    requires AllValid(fields) && ValidLine(line) && IsAscii(line) && StripCr(line) != [] && COLON !in line
    ensures HeadersFrom(w, seen).0.Err?
    decreases |fields|
  {
    if fields == [] {
      NoLines(line + [LF] + rest);
      TakeValidLine(w, line, rest);
      LossyOfAscii(StripCr(line));
      hide TakeLine, Lossy, StripCr;
      SplitNone(Chars(StripCr(line)), ':') by { NoColonLeft(line); }
    } else {
      var tail := LinesText(Texts(fields[1..])) + (line + [LF] + rest);
      assert Texts(fields) == [fields[0].Text()] + Texts(fields[1..]);
      LinesFirst(fields[0].Text(), Texts(fields[1..]), line + [LF] + rest);
      FieldIsRead(fields[0]);
      TakeValidLine(w, fields[0].Text(), tail);
      hide TakeLine, Lossy, StripCr, Texts, LinesText;
      ColonIsNeeded(w.(unread := tail), fields[1..], line, rest, seen + [HeaderOf(fields[0])]);
    }
  }

  lemma NoColonLeft(line: bytes)
    requires IsAscii(line) && COLON !in line
    ensures IsAscii(StripCr(line)) && ':' !in Chars(StripCr(line))
  {
  }

  /** A declared length over the limit is refused, and one that the peer does not
      deliver ends as the connection ended. */
  lemma LengthIsHeld(w: Wire, headers: Headers, fields: seq<Field>, n: nat)
    requires w.connected && ReadFrom(headers, fields) && Counted(fields, n) && n <= USIZE_MAX
    ensures n > 8 * 1024 * 1024 ==> BodyFrom(w, headers).0 == Err(Malformed("body too large"))
    ensures |w.unread| < n <= 8 * 1024 * 1024 ==> BodyFrom(w, headers).0 == Err(HttpError.Unreachable(w.ending))
  {
    hide ReadFrom, Counted, ParseUnsigned, Header;
    LengthIsRead(headers, fields, n);
  }
}
