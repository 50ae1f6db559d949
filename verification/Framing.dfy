/** Content-Length framing on a byte stream: the reader, the writer, and their round trip. */
module Framing {
  import opened Wrappers
  import opened Prelude
  import opened Utf8

  const NEWLINE: byte := 10
  const COLON: byte := 58
  const BRACE: byte := 123

  /** "Content-Length" and "content-length". */
  const CONTENT_LENGTH: Bytes := [67, 111, 110, 116, 101, 110, 116, 45, 76, 101, 110, 103, 116, 104]
  const LOWER_CONTENT_LENGTH: Bytes := [99, 111, 110, 116, 101, 110, 116, 45, 108, 101, 110, 103, 116, 104]

  datatype ReadError = LineNotUtf8 | EofInHeaders | BodyTooShort | BodyNotUtf8

  datatype ReadResult =
    | Eof
    | Payload(body: Bytes, rest: Bytes)
    | Failed(error: ReadError)

  // ---- lines and headers ----

  /** Bytes up to and including the first newline, or all of them. */
  function LineLength(s: Bytes): (n: nat)
    ensures n <= |s| && (s != [] ==> n > 0)
  {
    if s == [] then 0 else if s[0] == NEWLINE then 1 else 1 + LineLength(s[1..])
  }

  function LowerAscii(b: byte): byte {
    if 65 <= b <= 90 then b + 32 else b
  }

  predicate EqIgnoreCase(s: Bytes, lower: Bytes) {
    |s| == |lower| && forall i :: 0 <= i < |s| ==> LowerAscii(s[i]) == lower[i]
  }

  function FirstColon(s: Bytes): (n: nat)
    ensures n <= |s|
  {
    if s == [] || s[0] == COLON then 0 else 1 + FirstColon(s[1..])
  }

  /** The length announced by a trimmed line, if it is a Content-Length header. */
  function ContentLength(line: Bytes): Option<nat> {
    var i := FirstColon(line);
    if i < |line| && EqIgnoreCase(line[..i], LOWER_CONTENT_LENGTH) then ParseUsize(Trim(line[i + 1..])) else None
  }

  predicate IsBlank(line: Bytes) {
    line == [13, 10] || line == [10]
  }

  /** The bytes after the blank line that ends the headers. */
  function SkipHeaders(s: Bytes): (r: Result<Bytes, ReadError>)
    ensures r.Ok? ==> |r.value| < |s|
    decreases |s|
  {
    if s == [] then Err(EofInHeaders)
    else
      var n := LineLength(s);
      if !Valid(s[..n]) then Err(LineNotUtf8)
      else if IsBlank(s[..n]) then Ok(s[n..])
      else SkipHeaders(s[n..])
  }

  function ReadBody(s: Bytes, length: nat): (r: ReadResult)
    ensures r.Payload? ==> |r.rest| <= |s|
  {
    if |s| < length then Failed(BodyTooShort)
    else if !Valid(s[..length]) then Failed(BodyNotUtf8)
    else Payload(s[..length], s[length..])
  }

  /** One call of the reader, as a function of the unread bytes. */
  function ReadOne(s: Bytes): (r: ReadResult)
    ensures r.Payload? ==> |r.rest| < |s|
    decreases |s|
  {
    if s == [] then Eof
    else
      var n := LineLength(s);
      var rest := s[n..];
      var line := Trim(s[..n]);
      if !Valid(s[..n]) then Failed(LineNotUtf8)
      else if line == [] then ReadOne(rest)
      else if line[0] == BRACE then Payload(line, rest)
      else
        match ContentLength(line)
        case None => ReadOne(rest)
        case Some(length) =>
          match SkipHeaders(rest)
          case Err(e) => Failed(e)
          case Ok(body) => ReadBody(body, length)
  }

  // ---- the reader as the source runs it ----

  class Reader {
    const data: Bytes
    var pos: nat

    ghost predicate InBounds()
      reads this
    {
      pos <= |data|
    }

    ghost function Unread(): Bytes
      requires InBounds()
      reads this
    {
      data[pos..]
    }

    constructor (data: Bytes)
      ensures InBounds() && Unread() == data
    {
      this.data := data;
      pos := 0;
    }

    method ReadLine() returns (line: Bytes)
      requires InBounds()
      modifies this
      ensures InBounds()
      ensures line == old(Unread())[..LineLength(old(Unread()))]
      ensures Unread() == old(Unread())[LineLength(old(Unread()))..]
    {
      var start := pos;
      ghost var unread := data[start..];
      var more := true;
      while more && pos < |data|
        invariant start <= pos <= |data|
        invariant more ==> LineLength(unread) == (pos - start) + LineLength(data[pos..])
        invariant !more ==> LineLength(unread) == pos - start
        decreases |data| - pos, more
      {
        more := data[pos] != NEWLINE;
        assert data[pos..][1..] == data[pos + 1..];
        pos := pos + 1;
      }
      line := data[start..pos];
      assert unread[..pos - start] == line && unread[pos - start..] == data[pos..];
    }

    method SkipToBody() returns (error: Option<ReadError>)
      requires InBounds()
      modifies this
      ensures InBounds()
      ensures error.None? ==> SkipHeaders(old(Unread())) == Ok(Unread())
      ensures error.Some? ==> SkipHeaders(old(Unread())) == Err(error.value)
    {
      while true
        invariant InBounds() && SkipHeaders(Unread()) == SkipHeaders(old(Unread()))
        decreases |data| - pos
      {
        ghost var unread := Unread();
        var line := ReadLine();
        if line == [] {
          assert unread == [];
          return Some(EofInHeaders);
        }
        if !Valid(line) {
          return Some(LineNotUtf8);
        }
        if IsBlank(line) {
          return None;
        }
      }
    }

    /** The outcome of one call: the payload, end of input, or an error. */
    method ReadFramedOrJsonLine() returns (r: ReadResult)
      requires InBounds()
      modifies this
      ensures InBounds() && r == ReadOne(old(Unread()))
      ensures r.Payload? ==> Unread() == r.rest
    {
      while true
        invariant InBounds() && ReadOne(Unread()) == ReadOne(old(Unread()))
        decreases |data| - pos
      {
        ghost var unread := Unread();
        var firstLine := ReadLine();
        if firstLine == [] {
          assert unread == [];
          return Eof;
        }
        if !Valid(firstLine) {
          return Failed(LineNotUtf8);
        }
        var line := Trim(firstLine);
        if line == [] {
          continue;
        }
        if line[0] == BRACE {
          return Payload(line, data[pos..]);
        }
        var length := ContentLength(line);
        if length.None? {
          continue;
        }
        var error := SkipToBody();
        if error.Some? {
          return Failed(error.value);
        }
        r := TakeBody(length.value);
        return;
      }
    }

    method TakeBody(length: nat) returns (r: ReadResult)
      requires InBounds()
      modifies this
      ensures InBounds() && r == ReadBody(old(Unread()), length)
      ensures r.Payload? ==> Unread() == r.rest
    {
      if |data| - pos < length {
        return Failed(BodyTooShort);
      }
      var body := data[pos..pos + length];
      assert body == data[pos..][..length] && data[pos..][length..] == data[pos + length..];
      if !Valid(body) {
        return Failed(BodyNotUtf8);
      }
      pos := pos + length;
      return Payload(body, data[pos..]);
    }
  }

  // ---- which lines announce a frame ----

  /** Only lines that begin with the fourteen letters, in any case, and a colon. */
  lemma HeaderMeans(line: Bytes)
    requires ContentLength(line).Some?
    ensures |line| > 14 && line[14] == 58
    ensures forall i :: 0 <= i < 14 ==>
              line[i] == LOWER_CONTENT_LENGTH[i] || line[i] as int + 32 == LOWER_CONTENT_LENGTH[i]
  {
    var n := FirstColon(line);
    ColonFound(line);
    assert forall i :: 0 <= i < 14 ==> LowerAscii(line[..n][i]) == LOWER_CONTENT_LENGTH[i];
  }

  lemma {:induction false} ColonFound(s: Bytes)
    requires FirstColon(s) < |s|
    ensures s[FirstColon(s)] == 58
  {
    if s[0] != COLON { ColonFound(s[1..]); }
  }

  /** Each letter in either case. */
  predicate Spells(name: Bytes) {
    |name| == 14 && forall i :: 0 <= i < 14 ==>
      name[i] == LOWER_CONTENT_LENGTH[i]
      || (97 <= LOWER_CONTENT_LENGTH[i] <= 122 && name[i] == LOWER_CONTENT_LENGTH[i] - 32)
  }

  /** And all of them do, in any case and with any spaces around the number. */
  lemma HeaderInAnyCase(name: Bytes, left: Bytes, n: nat, right: Bytes)
    requires Spells(name) && n <= USIZE_MAX
    requires forall i :: 0 <= i < |left| ==> AsciiSpace(left[i])
    requires forall i :: 0 <= i < |right| ==> AsciiSpace(right[i])
    ensures ContentLength(name + [58] + (left + Decimal(n) + right)) == Some(n)
  {
    var line := name + [58] + (left + Decimal(n) + right);
    assert forall i :: 0 <= i < 14 ==> line[i] == name[i];
    FirstColonAt(line, 14);
    assert line[..14] == name && line[15..] == left + Decimal(n) + right;
    DecimalDigits(n);
    assert IsDigit(Decimal(n)[0]) && IsDigit(Decimal(n)[|Decimal(n)| - 1]);
    TrimAround(left, Decimal(n), right);
    ParseOfDecimal(n);
  }

  // ---- what may stand on the stream ----

  datatype Item =
    | Junk(line: Bytes)                                      // skipped: blank or unrecognised
    | JsonLine(line: Bytes)                                  // a bare JSON object on one line
    | Framed(header: Bytes, extra: seq<Bytes>, blank: Bytes, body: Bytes)

  predicate IsLine(s: Bytes) {
    s != [] && s[|s| - 1] == NEWLINE && (forall i :: 0 <= i < |s| - 1 ==> s[i] != NEWLINE) && Valid(s)
  }

  predicate GoodItem(item: Item) {
    match item
    case Junk(line) =>
      IsLine(line) && (Trim(line) == [] || (Trim(line)[0] != BRACE && ContentLength(Trim(line)) == None))
    case JsonLine(line) => IsLine(line) && Trim(line) != [] && Trim(line)[0] == BRACE
    case Framed(header, extra, blank, body) =>
      && IsLine(header) && Trim(header) != [] && Trim(header)[0] != BRACE
      && ContentLength(Trim(header)) == Some(|body|)
      && (forall i :: 0 <= i < |extra| ==> IsLine(extra[i]) && !IsBlank(extra[i]))
      && IsBlank(blank) && Valid(body)
  }

  function Flatten(lines: seq<Bytes>): Bytes {
    if lines == [] then [] else lines[0] + Flatten(lines[1..])
  }

  function Encode(item: Item): Bytes {
    match item
    case Junk(line) => line
    case JsonLine(line) => line
    case Framed(header, extra, blank, body) => header + (Flatten(extra) + (blank + body))
  }

  function Render(items: seq<Item>): Bytes {
    if items == [] then [] else Encode(items[0]) + Render(items[1..])
  }

  function PayloadsOf(items: seq<Item>): seq<Bytes> {
    if items == [] then []
    else
      var rest := PayloadsOf(items[1..]);
      match items[0]
      case Junk(_) => rest
      case JsonLine(line) => [Trim(line)] + rest
      case Framed(_, _, _, body) => [body] + rest
  }

  /** Repeated calls until something other than a payload comes back. */
  function ReadAll(s: Bytes): (seq<Bytes>, ReadResult)
    decreases |s|
  {
    var r := ReadOne(s);
    if r.Payload? then
      var (more, end) := ReadAll(r.rest);
      ([r.body] + more, end)
    else ([], r)
  }

  // ---- round trip ----

  lemma {:induction false} LineOf(line: Bytes, rest: Bytes)
    requires IsLine(line)
    ensures LineLength(line + rest) == |line|
    ensures (line + rest)[..|line|] == line && (line + rest)[|line|..] == rest
  {
    LineLengthOf(line, rest);
  }

  lemma {:induction false} LineLengthOf(line: Bytes, rest: Bytes)
    requires line != [] && line[|line| - 1] == NEWLINE && (forall i :: 0 <= i < |line| - 1 ==> line[i] != NEWLINE)
    ensures LineLength(line + rest) == |line|
  {
    if |line| > 1 {
      assert line[0] != NEWLINE;
      assert (line + rest)[1..] == line[1..] + rest;
      LineLengthOf(line[1..], rest);
    }
  }

  lemma BlankIsLine(blank: Bytes)
    requires IsBlank(blank)
    ensures IsLine(blank)
  {
    AsciiIsValid(blank);
  }

  lemma {:induction false} SkipsHeaders(extra: seq<Bytes>, blank: Bytes, rest: Bytes)
    requires (forall i :: 0 <= i < |extra| ==> IsLine(extra[i]) && !IsBlank(extra[i])) && IsBlank(blank)
    ensures SkipHeaders(Flatten(extra) + (blank + rest)) == Ok(rest)
  {
    if extra == [] {
      BlankIsLine(blank);
      LineOf(blank, rest);
      assert Flatten(extra) + (blank + rest) == blank + rest;
    } else {
      var tail := Flatten(extra[1..]) + (blank + rest);
      assert Flatten(extra) + (blank + rest) == extra[0] + tail;
      LineOf(extra[0], tail);
      SkipsHeaders(extra[1..], blank, rest);
    }
  }

  lemma SkipsJunk(line: Bytes, rest: Bytes)
    requires GoodItem(Junk(line))
    ensures ReadOne(line + rest) == ReadOne(rest)
  {
    LineOf(line, rest);
  }

  lemma ReadsJsonLine(line: Bytes, rest: Bytes)
    requires GoodItem(JsonLine(line))
    ensures ReadOne(line + rest) == Payload(Trim(line), rest)
  {
    LineOf(line, rest);
  }

  /** What a Content-Length line makes of the bytes after it. */
  function AfterHeader(after: Bytes, length: nat): ReadResult {
    match SkipHeaders(after)
    case Err(e) => Failed(e)
    case Ok(body) => ReadBody(body, length)
  }

  lemma ReadsHeader(header: Bytes, after: Bytes, length: nat)
    requires IsLine(header) && Trim(header) != [] && Trim(header)[0] != BRACE
    requires ContentLength(Trim(header)) == Some(length)
    ensures ReadOne(header + after) == AfterHeader(after, length)
  {
    LineOf(header, after);
  }

  lemma ReadsBody(extra: seq<Bytes>, blank: Bytes, body: Bytes, rest: Bytes)
    requires (forall i :: 0 <= i < |extra| ==> IsLine(extra[i]) && !IsBlank(extra[i])) && IsBlank(blank) && Valid(body)
    ensures AfterHeader(Flatten(extra) + (blank + (body + rest)), |body|) == Payload(body, rest)
  {
    SkipsHeaders(extra, blank, body + rest);
    assert (body + rest)[..|body|] == body && (body + rest)[|body|..] == rest;
  }

  lemma ReadsFrame(item: Item, rest: Bytes)
    requires GoodItem(item) && item.Framed?
    ensures ReadOne(Encode(item) + rest) == Payload(item.body, rest)
  {
    var after := Flatten(item.extra) + (item.blank + (item.body + rest));
    FrameThen(item, rest);
    ReadsHeader(item.header, after, |item.body|);
    ReadsBody(item.extra, item.blank, item.body, rest);
  }

  lemma FrameThen(item: Item, rest: Bytes)
    requires item.Framed?
    ensures Encode(item) + rest == item.header + (Flatten(item.extra) + (item.blank + (item.body + rest)))
  {
    Associate(item.header, Flatten(item.extra) + (item.blank + item.body), rest);
    Associate(Flatten(item.extra), item.blank + item.body, rest);
    Associate(item.blank, item.body, rest);
  }

  lemma ReadAllSkips(s: Bytes, t: Bytes)
    requires ReadOne(s) == ReadOne(t)
    ensures ReadAll(s) == ReadAll(t)
  {
  }

  /** Whatever well-formed items stand on the stream, the reader returns exactly their
      payloads, in order, and then end of input. */
  lemma {:induction false} StreamReadsBack(items: seq<Item>)
    requires forall i :: 0 <= i < |items| ==> GoodItem(items[i])
    ensures ReadAll(Render(items)) == (PayloadsOf(items), Eof)
  {
    if items != [] {
      var rest := Render(items[1..]);
      StreamReadsBack(items[1..]);
      match items[0]
      case Junk(line) =>
        SkipsJunk(line, rest);
        ReadAllSkips(line + rest, rest);
      case JsonLine(line) => ReadsJsonLine(line, rest);
      case Framed(_, _, _, _) => ReadsFrame(items[0], rest);
    }
  }

  // ---- the writer ----

  function HeaderText(length: nat): Bytes {
    CONTENT_LENGTH + [COLON, 32] + Decimal(length)
  }

  /** What `write_response` puts on the stream for a serialised body. */
  function Frame(body: Bytes): Bytes {
    HeaderText(|body|) + [13, 10] + [13, 10] + body
  }

  function FrameItem(body: Bytes): Item {
    Framed(HeaderText(|body|) + [13, 10], [], [13, 10], body)
  }

  lemma HeaderTextShape(length: nat)
    ensures
      var t := HeaderText(length);
      && |t| > 16 && IsAscii(t) && t[0] == 67 && IsDigit(t[|t| - 1])
      && (forall i :: 0 <= i < |t| ==> t[i] != NEWLINE)
      && t[..14] == CONTENT_LENGTH && t[14] == COLON && t[15..] == [32] + Decimal(length)
  {
    DecimalDigits(length);
    var t, d := HeaderText(length), Decimal(length);
    assert forall i :: 16 <= i < |t| ==> t[i] == d[i - 16] && IsDigit(d[i - 16]);
  }

  lemma {:induction false} FirstColonAt(s: Bytes, n: nat)
    requires n < |s| && s[n] == COLON && forall i :: 0 <= i < n ==> s[i] != COLON
    ensures FirstColon(s) == n
  {
    if n > 0 {
      assert s[0] != COLON;
      FirstColonAt(s[1..], n - 1);
    }
  }

  lemma HeaderParses(length: nat)
    requires length <= USIZE_MAX
    ensures ContentLength(HeaderText(length)) == Some(length)
  {
    var t := HeaderText(length);
    HeaderTextShape(length);
    assert forall i :: 0 <= i < 14 ==> t[i] == CONTENT_LENGTH[i];
    FirstColonAt(t, 14);
    assert EqIgnoreCase(t[..14], LOWER_CONTENT_LENGTH);
    DecimalDigits(length);
    var d := Decimal(length);
    assert IsDigit(d[0]) && IsDigit(d[|d| - 1]);
    TrimAround([32], d, []);
    assert [32] + d + [] == t[15..];
    ParseOfDecimal(length);
  }

  lemma HeaderIsLine(length: nat)
    ensures IsLine(HeaderText(length) + [13, 10])
    ensures Trim(HeaderText(length) + [13, 10]) == HeaderText(length)
  {
    var t := HeaderText(length);
    HeaderTextShape(length);
    TrimAround([], t, [13, 10]);
    assert [] + t + [13, 10] == t + [13, 10];
    AsciiIsValid(t + [13, 10]);
  }

  lemma PlainFrame(header: Bytes, text: Bytes, body: Bytes)
    requires IsLine(header) && Trim(header) == text && text != [] && text[0] != BRACE
    requires ContentLength(text) == Some(|body|) && Valid(body)
    ensures GoodItem(Framed(header, [], [13, 10], body))
  {
  }

  lemma FrameIsGood(body: Bytes)
    requires Valid(body) && |body| <= USIZE_MAX
    ensures GoodItem(FrameItem(body))
  {
    HeaderIsLine(|body|);
    HeaderParses(|body|);
    HeaderTextShape(|body|);
    PlainFrame(HeaderText(|body|) + [13, 10], HeaderText(|body|), body);
  }

  lemma FrameIsItem(body: Bytes)
    ensures Encode(FrameItem(body)) == Frame(body)
  {
    var header := HeaderText(|body|) + [13, 10];
    assert Flatten([]) + ([13, 10] + body) == [13, 10] + body;
    assert header + ([13, 10] + body) == header + [13, 10] + body;
  }

  function WrittenFrames(bodies: seq<Bytes>): Bytes {
    if bodies == [] then [] else Frame(bodies[0]) + WrittenFrames(bodies[1..])
  }

  function FrameItems(bodies: seq<Bytes>): seq<Item> {
    if bodies == [] then [] else [FrameItem(bodies[0])] + FrameItems(bodies[1..])
  }

  lemma {:induction false} FrameItemsAt(bodies: seq<Bytes>, i: nat)
    requires i < |bodies|
    ensures |FrameItems(bodies)| == |bodies| && FrameItems(bodies)[i] == FrameItem(bodies[i])
  {
    if |bodies| > 1 { FrameItemsAt(bodies[1..], if i == 0 then 0 else i - 1); }
  }

  lemma {:induction false} FramesRender(bodies: seq<Bytes>)
    ensures Render(FrameItems(bodies)) == WrittenFrames(bodies)
  {
    if bodies != [] {
      FrameIsItem(bodies[0]);
      FramesRender(bodies[1..]);
      assert FrameItems(bodies)[1..] == FrameItems(bodies[1..]);
    }
  }

  lemma {:induction false} FramesCarry(bodies: seq<Bytes>)
    ensures PayloadsOf(FrameItems(bodies)) == bodies
  {
    if bodies != [] {
      FramesCarry(bodies[1..]);
      assert FrameItems(bodies)[1..] == FrameItems(bodies[1..]);
    }
  }

  /** Frames written one after another are read back as exactly the bodies written. */
  lemma WrittenFramesReadBack(bodies: seq<Bytes>)
    requires forall i :: 0 <= i < |bodies| ==> Valid(bodies[i]) && |bodies[i]| <= USIZE_MAX
    ensures ReadAll(WrittenFrames(bodies)) == (bodies, Eof)
  {
    var items := FrameItems(bodies);
    forall i | 0 <= i < |items| ensures GoodItem(items[i]) {
      if bodies != [] {
        FrameItemsAt(bodies, 0);
        FrameItemsAt(bodies, i);
        FrameIsGood(bodies[i]);
      }
    }
    FramesRender(bodies);
    FramesCarry(bodies);
    StreamReadsBack(items);
  }

  // ---- in bytes, and cut short ----

  /** The frame around the body "{}", byte by byte. */
  lemma FrameInBytes()
    ensures Frame([123, 125]) ==
            [67, 111, 110, 116, 101, 110, 116, 45, 76, 101, 110, 103, 116, 104, 58, 32, 50, 13, 10, 13, 10, 123, 125]
  {
    assert Decimal(2) == [50];
  }

  /** The same body on a line of its own. */
  lemma JsonInBytes()
    ensures ReadOne([123, 125, 10]) == Payload([123, 125], [])
  {
    var line := [123, 125, 10];
    AsciiIsValid(line);
    TrimAround([], [123, 125], [10]);
    assert [] + [123, 125] + [10] == line;
    ReadsJsonLine(line, []);
    assert line + [] == line;
  }

  /** A blank line and an unknown one are skipped. */
  lemma JunkInBytes(rest: Bytes)
    ensures ReadOne([10] + rest) == ReadOne(rest) && ReadOne([120, 10] + rest) == ReadOne(rest)
  {
    AsciiIsValid([10]);
    assert LeadingSpace([10]) == 1 && [10][1..] == [];
    SkipsJunk([10], rest);
    AsciiIsValid([120, 10]);
    TrimAround([], [120], [10]);
    assert [] + [120] + [10] == [120, 10];
    assert FirstColon([120]) == 1;
    SkipsJunk([120, 10], rest);
  }

  lemma {:induction false} NoNewlineOneLine(s: Bytes)
    requires forall i :: 0 <= i < |s| ==> s[i] != NEWLINE
    ensures LineLength(s) == |s|
  {
    if s != [] { NoNewlineOneLine(s[1..]); }
  }

  lemma WholeSlice<T>(s: seq<T>)
    ensures s[..|s|] == s && s[|s|..] == []
  {
  }

  /** A line at the very end that is not a JSON object yields nothing. */
  lemma LastLine(s: Bytes, line: Bytes, rest: Bytes)
    requires s != [] && LineLength(s) == |s| && rest == [] && line == Trim(s)
    requires line == [] || line[0] != BRACE
    ensures !ReadOne(s).Payload?
  {
    WholeSlice(s);
    if Valid(s) && line != [] && ContentLength(line).Some? {
      assert SkipHeaders(rest) == Err(EofInHeaders);
      assert ReadOne(s) == Failed(EofInHeaders);
    } else if Valid(s) {
      assert ReadOne(s) == ReadOne(rest);
    }
  }

  lemma UnendedLine(s: Bytes)
    requires (forall i :: 0 <= i < |s| ==> s[i] != NEWLINE) && (s == [] || s[0] == 67)
    ensures !ReadOne(s).Payload?
  {
    if s != [] {
      NoNewlineOneLine(s);
      NoWideSpaceAt(s);
      TrimEndKeepsHead(s);
      LastLine(s, Trim(s), []);
    }
  }

  lemma {:induction false} TrimEndKeepsHead(s: Bytes)
    requires s != [] && s[0] < 0x80 && !AsciiSpace(s[0])
    ensures TrimEnd(s) != [] && TrimEnd(s)[0] == s[0]
  {
    var n := TrailingSpace(s);
    if n > 0 {
      assert |s| > n;
      TrimEndKeepsHead(s[..|s| - n]);
    }
  }

  lemma CutBody(length: nat, part: Bytes)
    requires |part| < length <= USIZE_MAX
    ensures ReadOne(HeaderText(length) + [13, 10] + ([13, 10] + part)) == Failed(BodyTooShort)
  {
    HeaderIsLine(length);
    HeaderParses(length);
    HeaderTextShape(length);
    ReadsHeader(HeaderText(length) + [13, 10], [13, 10] + part, length);
    PlainSkip(part);
  }

  lemma PlainSkip(rest: Bytes)
    ensures SkipHeaders([13, 10] + rest) == Ok(rest)
  {
    BlankIsLine([13, 10]);
    LineOf([13, 10], rest);
  }

  /** A complete body that is not UTF-8 is an error. */
  lemma BadBody(body: Bytes, rest: Bytes)
    requires !Valid(body) && |body| <= USIZE_MAX
    ensures ReadOne(HeaderText(|body|) + [13, 10] + ([13, 10] + (body + rest))) == Failed(BodyNotUtf8)
  {
    HeaderIsLine(|body|);
    HeaderParses(|body|);
    HeaderTextShape(|body|);
    ReadsHeader(HeaderText(|body|) + [13, 10], [13, 10] + (body + rest), |body|);
    PlainSkip(body + rest);
    assert (body + rest)[..|body|] == body;
  }

  /** And so is a line that is not. */
  lemma BadLine(line: Bytes, rest: Bytes)
    requires line != [] && line[|line| - 1] == NEWLINE && (forall i :: 0 <= i < |line| - 1 ==> line[i] != NEWLINE)
    requires !Valid(line)
    ensures ReadOne(line + rest) == Failed(LineNotUtf8)
  {
    LineLengthOf(line, rest);
    assert (line + rest)[..|line|] == line;
  }

  lemma SkipCut(part: Bytes)
    requires part == [] || part == [13]
    ensures SkipHeaders(part) == Err(EofInHeaders)
  {
    if part == [13] {
      AsciiIsValid(part);
      NoNewlineOneLine(part);
      assert part[..1] == part && part[1..] == [];
      assert SkipHeaders([]) == Err(EofInHeaders);
    }
  }

  lemma CutBlank(length: nat, part: Bytes)
    requires length <= USIZE_MAX && (part == [] || part == [13])
    ensures ReadOne(HeaderText(length) + [13, 10] + part) == Failed(EofInHeaders)
  {
    HeaderIsLine(length);
    HeaderParses(length);
    HeaderTextShape(length);
    ReadsHeader(HeaderText(length) + [13, 10], part, length);
    SkipCut(part);
  }

  /** A written frame cut short anywhere yields no payload. */
  lemma CutFrame(body: Bytes, k: nat)
    requires |body| <= USIZE_MAX && k < |Frame(body)|
    ensures !ReadOne(Frame(body)[..k]).Payload?
  {
    var text := HeaderText(|body|);
    HeaderTextShape(|body|);
    var h := |text| + 2;
    var s := Frame(body)[..k];
    if k < h {
      assert s == (text + [13, 10])[..k];
      UnendedLine(s);
    } else if k < h + 2 {
      assert s == text + [13, 10] + [13][..k - h];
      CutBlank(|body|, [13][..k - h]);
    } else {
      assert s == text + [13, 10] + ([13, 10] + body[..k - h - 2]);
      CutBody(|body|, body[..k - h - 2]);
    }
  }
}
