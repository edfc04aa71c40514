/** Requests as a client writes them, and that the registry's parser reads them back. */
module HttpPrinting {
  import opened Wrappers
  import opened Bytes
  import opened Text
  import opened HttpRequest
  import Shape

  function HeaderLine(h: (string, string)): string {
    h.0 + ": " + h.1
  }

  function PrintHeaders(headers: seq<(string, string)>): string {
    if headers == [] then "" else CRLF + (HeaderLine(headers[0]) + PrintHeaders(headers[1..]))
  }

  function RequestLine(r: Request): string {
    r.method_ + " " + r.target + " " + "HTTP/1.1"
  }

  function PrintHead(r: Request): string {
    RequestLine(r) + PrintHeaders(r.headers)
  }

  function Print(r: Request): Bytes
    requires IsAscii(PrintHead(r))
  {
    AsciiBytes(PrintHead(r)) + BLANK_LINE + r.body
  }

  /** A name and a value that stay on their line and have no white space around them. */
  predicate IsHeader(h: (string, string)) {
    && '\r' !in h.0 && ':' !in h.0 && Trim(h.0) == h.0
    && '\r' !in h.1 && Trim(h.1) == h.1
  }

  /** A request a client may write: its body is as long as it says. */
  predicate IsPrintable(r: Request) {
    && IsAscii(PrintHead(r))
    && ' ' !in r.method_ && '\r' !in r.method_ && ' ' !in r.target && '\r' !in r.target
    && (forall i | 0 <= i < |r.headers| :: IsHeader(r.headers[i]))
    && |Print(r)| < USIZE_BOUND
    && match FirstValue(r.headers, "content-length")
       case None => r.body == []
       case Some(v) => ParseSize(v) == Some(|r.body|)
  }

  function HeaderLines(headers: seq<(string, string)>): seq<string> {
    if headers == [] then [] else [HeaderLine(headers[0])] + HeaderLines(headers[1..])
  }

  // ---------- Lines ----------

  lemma OccursMeans<T>(s: seq<T>, pat: seq<T>, j: nat)
    ensures OccursAt(s, pat, j) ==> forall i | 0 <= i < |pat| :: s[j + i] == pat[i]
  {
    if OccursAt(s, pat, j) {
      forall i | 0 <= i < |pat|
        ensures s[j + i] == pat[i]
      {
        assert s[j..j + |pat|][i] == s[j + i];
      }
    }
  }

  lemma SplitLineNone(a: string)
    requires '\r' !in a
    ensures Split(a, CRLF) == [a]
  {
    forall j: nat
      ensures !OccursAt(a, CRLF, j)
    {
      OccursMeans(a, CRLF, j);
      assert j < |a| ==> a[j + 0] in a;
      assert CRLF[0] == '\r';
    }
  }

  lemma SplitLine(a: string, rest: string)
    requires '\r' !in a
    ensures Split(a + (CRLF + rest), CRLF) == [a] + Split(rest, CRLF)
  {
    var s := a + (CRLF + rest);
    assert s[|a|..|a| + 2] == CRLF;
    forall j: nat | j < |a|
      ensures !OccursAt(s, CRLF, j)
    {
      OccursMeans(s, CRLF, j);
      assert s[j + 0] == a[j] && a[j] in a && CRLF[0] == '\r';
    }
    FindIs(s, CRLF, |a|);
    assert s[..|a|] == a && s[|a| + 2..] == rest;
  }

  lemma HeaderHasNoBreak(h: (string, string))
    requires IsHeader(h)
    ensures '\r' !in HeaderLine(h) && HeaderLine(h) != ""
  {
  }

  lemma {:induction false} LinesOf(first: string, headers: seq<(string, string)>)
    requires '\r' !in first && forall i | 0 <= i < |headers| :: IsHeader(headers[i])
    ensures Split(first + PrintHeaders(headers), CRLF) == [first] + HeaderLines(headers)
    decreases |headers|
  {
    hide Split, IsHeader, HeaderLine;
    if headers == [] {
      SplitLineNone(first);
      assert first + "" == first;
    } else {
      HeaderHasNoBreak(headers[0]);
      LinesOf(HeaderLine(headers[0]), headers[1..]);
      SplitLine(first, HeaderLine(headers[0]) + PrintHeaders(headers[1..]));
    }
  }

  lemma {:induction false} HeaderLinesStay(headers: seq<(string, string)>)
    requires forall i | 0 <= i < |headers| :: IsHeader(headers[i])
    ensures NonEmpty(HeaderLines(headers)) == HeaderLines(headers)
  {
    if headers != [] {
      HeaderHasNoBreak(headers[0]);
      HeaderLinesStay(headers[1..]);
      assert HeaderLines(headers)[1..] == HeaderLines(headers[1..]);
    }
  }

  lemma HeaderReadsBack(h: (string, string))
    requires IsHeader(h)
    ensures ParseHeader(HeaderLine(h)) == Some(h)
  {
    var line := HeaderLine(h);
    var n := |h.0|;
    assert line[n..n + 1] == ":";
    forall j: nat | j < n
      ensures !OccursAt(line, ":", j)
    {
      OccursMeans(line, ":", j);
      assert line[j + 0] == h.0[j] && h.0[j] in h.0 && ":"[0] == ':';
    }
    FindIs(line, ":", n);
    assert line[..n] == h.0 && line[n + 1..] == " " + h.1;
    assert (" " + h.1)[1..] == h.1;
  }

  lemma HeadersCons(line: string, lines: seq<string>, h: (string, string), rest: seq<(string, string)>)
    requires ParseHeader(line) == Some(h) && ParseHeaders(lines) == Some(rest)
    ensures ParseHeaders([line] + lines) == Some([h] + rest)
  {
    hide ParseHeader;
    assert ([line] + lines)[1..] == lines;
  }

  lemma {:induction false} HeadersReadBack(headers: seq<(string, string)>)
    requires forall i | 0 <= i < |headers| :: IsHeader(headers[i])
    ensures ParseHeaders(HeaderLines(headers)) == Some(headers)
  {
    hide ParseHeader, IsHeader, HeaderLine;
    if headers != [] {
      hide ParseHeaders;
      HeaderReadsBack(headers[0]);
      HeadersReadBack(headers[1..]);
      HeadersCons(HeaderLine(headers[0]), HeaderLines(headers[1..]), headers[0], headers[1..]);
      assert headers == [headers[0]] + headers[1..];
    }
  }

  // ---------- The blank line ----------

  /** Every line break is followed by another character of a line. */
  predicate NoBlankLine(s: string) {
    forall j | 0 <= j < |s| && s[j] == '\r' :: j + 2 < |s| && s[j + 2] != '\r'
  }

  lemma NoBlankLineAfter(a: string, b: string)
    requires '\r' !in a && NoBlankLine(b)
    ensures NoBlankLine(a + b)
  {
    var s := a + b;
    forall j | 0 <= j < |s|
      ensures s[j] == '\r' ==> j + 2 < |s| && s[j + 2] != '\r'
    {
      if j < |a| {
        assert s[j] == a[j] && a[j] in a;
      } else {
        assert s[j] == b[j - |a|];
      }
    }
  }

  lemma NoBlankLineBetween(line: string, rest: string)
    requires '\r' !in line && line != "" && NoBlankLine(rest)
    ensures NoBlankLine(CRLF + (line + rest))
  {
    NoBlankLineAfter(line, rest);
    var t := line + rest;
    var s := CRLF + t;
    assert t[0] == line[0] && line[0] in line;
    forall j | 0 <= j < |s| && s[j] == '\r'
      ensures j + 2 < |s| && s[j + 2] != '\r'
    {
      if j >= 2 {
        assert t[j - 2] == '\r';
      }
    }
  }

  lemma {:induction false} HeadersHaveNoBlankLine(headers: seq<(string, string)>)
    requires forall i | 0 <= i < |headers| :: IsHeader(headers[i])
    ensures NoBlankLine(PrintHeaders(headers))
  {
    hide IsHeader, NoBlankLine, HeaderLine;
    if headers == [] {
      EmptyHasNoBlankLine();
    } else {
      HeaderHasNoBreak(headers[0]);
      HeadersHaveNoBlankLine(headers[1..]);
      NoBlankLineBetween(HeaderLine(headers[0]), PrintHeaders(headers[1..]));
    }
  }

  lemma EmptyHasNoBlankLine()
    ensures NoBlankLine("")
  {
  }

  lemma BlankLineFound(head: string, body: Bytes)
    requires IsAscii(head) && NoBlankLine(head)
    ensures Find(AsciiBytes(head) + BLANK_LINE + body, BLANK_LINE) == Some(|head|)
  {
    var buf := AsciiBytes(head) + BLANK_LINE + body;
    assert buf[|head|..|head| + 4] == BLANK_LINE;
    forall j: nat | j < |head|
      ensures !OccursAt(buf, BLANK_LINE, j)
    {
      OccursMeans(buf, BLANK_LINE, j);
      assert buf[j + 0] == AsciiBytes(head)[j] && BLANK_LINE[0] == 13 && BLANK_LINE[2] == 13;
      assert j + 2 < |head| ==> buf[j + 2] == AsciiBytes(head)[j + 2];
    }
    FindIs(buf, BLANK_LINE, |head|);
  }

  // ---------- Round trip ----------

  lemma RequestLineHasNoBreak(r: Request)
    requires '\r' !in r.method_ && '\r' !in r.target
    ensures '\r' !in RequestLine(r)
  {
  }

  lemma RequestLineSplits(r: Request)
    requires ' ' !in r.method_ && ' ' !in r.target
    ensures Split(RequestLine(r), " ") == [r.method_, r.target, "HTTP/1.1"]
  {
    SplitThree(r.method_, r.target, "HTTP/1.1", ' ');
  }

  lemma HeadReadsBack(r: Request)
    requires IsPrintable(r)
    ensures ParseHead(AsciiBytes(PrintHead(r))) == Ok(Head(r.method_, r.target, r.headers, |r.body|))
  {
    hide Split, Decode, ParseHeaders, ParseSize, FirstValue, IsHeader, RequestLine, PrintHeaders;
    DecodeAscii(PrintHead(r));
    RequestLineHasNoBreak(r);
    RequestLineSplits(r);
    LinesOf(RequestLine(r), r.headers);
    var lines := Split(PrintHead(r), CRLF);
    assert lines[0] == RequestLine(r) && lines[1..] == HeaderLines(r.headers);
    HeaderLinesStay(r.headers);
    HeadersReadBack(r.headers);
  }

  /** Reading what a client wrote gives its request, method, target, headers and body, whatever follows. */
  lemma PrintThenParse(r: Request, more: Bytes)
    requires IsPrintable(r)
    ensures Parse(Print(r) + more) == Complete(r)
  {
    hide ParseHead, PrintHead, ParseSize, FirstValue, IsHeader, Find, AsciiBytes;
    var head := PrintHead(r);
    HeadReadsBack(r);
    PrintedHeadHasNoBlankLine(r);
    BlankLineFound(head, r.body);
    var buf := Print(r);
    PartsOfRequest(AsciiBytes(head), r.body);
    AnswersAreStable(buf, more);
  }

  lemma PartsOfRequest(head: Bytes, body: Bytes)
    ensures var buf := head + BLANK_LINE + body;
      buf[..|head|] == head && buf[|head| + 4..|head| + 4 + |body|] == body
  {
  }

  lemma PrintedHeadHasNoBlankLine(r: Request)
    requires IsPrintable(r)
    ensures NoBlankLine(PrintHead(r))
  {
    hide NoBlankLine, IsHeader, RequestLine, PrintHeaders, FirstValue, ParseSize;
    RequestLineHasNoBreak(r);
    HeadersHaveNoBlankLine(r.headers);
    NoBlankLineAfter(RequestLine(r), PrintHeaders(r.headers));
  }

  // ---------- The requests of the prover ----------

  /** The head of the prover's login request, line by line. */
  function LoginHead(serverName: string, length: string): string {
    "POST /login HTTP/1.1"
    + ("\r\n" + ("Host: " + serverName
    + ("\r\n" + ("Content-Type: application/json"
    + ("\r\n" + ("Content-Length: " + length
    + ("\r\n" + "Connection: close")))))))
  }

  function LoginRequest(serverName: string, body: Bytes): Request {
    Request("POST", "/login",
      [("Host", serverName), ("Content-Type", "application/json"), ("Content-Length", Decimal(|body|)), ("Connection", "close")], body)
  }

  lemma LoginLines(serverName: string, length: string)
    ensures HeaderLine(("Host", serverName)) == "Host: " + serverName
    ensures HeaderLine(("Content-Type", "application/json")) == "Content-Type: application/json"
    ensures HeaderLine(("Content-Length", length)) == "Content-Length: " + length
    ensures HeaderLine(("Connection", "close")) == "Connection: close"
  {
    assert "Host" + ": " == "Host: ";
    assert "Content-Length" + ": " == "Content-Length: ";
  }

  lemma OneHeader(h: (string, string), rest: seq<(string, string)>)
    ensures PrintHeaders([h] + rest) == CRLF + (HeaderLine(h) + PrintHeaders(rest))
  {
    assert ([h] + rest)[1..] == rest;
  }

  lemma FourHeaders(a: (string, string), b: (string, string), c: (string, string), d: (string, string))
    ensures PrintHeaders([a, b, c, d]) ==
      CRLF + (HeaderLine(a) + (CRLF + (HeaderLine(b) + (CRLF + (HeaderLine(c) + (CRLF + HeaderLine(d)))))))
  {
    hide PrintHeaders, HeaderLine;
    NoHeaders();
    OneHeader(d, []);
    OneHeader(c, [d]);
    OneHeader(b, [c, d]);
    OneHeader(a, [b, c, d]);
    assert [d] + [] == [d] && [c] + [d] == [c, d] && [b] + [c, d] == [b, c, d] && [a] + [b, c, d] == [a, b, c, d];
    assert HeaderLine(d) + "" == HeaderLine(d);
  }

  lemma LoginPrints(serverName: string, body: Bytes)
    ensures PrintHead(LoginRequest(serverName, body)) == LoginHead(serverName, Decimal(|body|))
  {
    hide Decimal, PrintHeaders, HeaderLine;
    LoginLines(serverName, Decimal(|body|));
    FourHeaders(("Host", serverName), ("Content-Type", "application/json"), ("Content-Length", Decimal(|body|)), ("Connection", "close"));
    LoginLine();
  }

  lemma LoginLine()
    ensures "POST" + " " + "/login" + " " + "HTTP/1.1" == "POST /login HTTP/1.1"
  {
  }

  lemma NoHeaders()
    ensures PrintHeaders([]) == ""
  {
  }

  lemma NumeralIsAscii(s: string)
    requires AllDigits(s)
    ensures IsAscii(s) && Trim(s) == s && '\r' !in s
  {
    assert forall i | 0 <= i < |s| :: s[i] in s;
    if s != "" {
      assert IsDigit(s[0]) && IsDigit(s[|s| - 1]);
      TrimKeepsTail("", s);
      assert "" + s == s;
    }
  }

  lemma OtherLength(name: string, value: string, rest: seq<(string, string)>)
    requires |name| != 14
    ensures FirstValue([(name, value)] + rest, "content-length") == FirstValue(rest, "content-length")
  {
    assert ([(name, value)] + rest)[1..] == rest;
  }

  lemma FirstNamed(name: string, value: string, rest: seq<(string, string)>)
    requires SameIgnoringCase(name, "content-length")
    ensures FirstValue([(name, value)] + rest, "content-length") == Some(value)
  {
    hide SameIgnoringCase;
  }

  lemma CapitalisedName()
    ensures SameIgnoringCase("Content-Length", "content-length")
  {
  }

  lemma LoginLength(serverName: string, body: Bytes)
    ensures FirstValue(LoginRequest(serverName, body).headers, "content-length") == Some(Decimal(|body|))
  {
    hide Decimal, FirstValue, SameIgnoringCase;
    var a, b, d := ("Host", serverName), ("Content-Type", "application/json"), ("Connection", "close");
    var c := ("Content-Length", Decimal(|body|));
    OtherLength("Host", serverName, [b, c, d]);
    OtherLength("Content-Type", "application/json", [c, d]);
    CapitalisedName();
    FirstNamed("Content-Length", Decimal(|body|), [d]);
    assert [c] + [d] == [c, d] && [b] + [c, d] == [b, c, d] && [a] + [b, c, d] == [a, b, c, d];
  }

  lemma LengthParses(n: nat)
    requires n < USIZE_BOUND
    ensures ParseSize(Decimal(n)) == Some(n)
  {
    hide Value;
    assert Decimal(n)[0] in Decimal(n);
  }

  lemma HostIsHeader(serverName: string)
    requires '\r' !in serverName && Trim(serverName) == serverName
    ensures IsHeader(("Host", serverName))
  {
    hide Trim;
    Untrimmed("Host");
  }

  lemma TypeIsHeader()
    ensures IsHeader(("Content-Type", "application/json"))
  {
    hide Trim;
    Untrimmed("Content-Type");
    Untrimmed("application/json");
  }

  lemma LengthIsHeader(length: string)
    requires AllDigits(length)
    ensures IsHeader(("Content-Length", length))
  {
    hide Trim;
    NumeralIsAscii(length);
    Untrimmed("Content-Length");
  }

  lemma CloseIsHeader()
    ensures IsHeader(("Connection", "close"))
  {
    hide Trim;
    Untrimmed("Connection");
    Untrimmed("close");
  }

  lemma LoginHeaders(serverName: string, body: Bytes)
    requires '\r' !in serverName && Trim(serverName) == serverName
    ensures forall i | 0 <= i < 4 :: IsHeader(LoginRequest(serverName, body).headers[i])
  {
    hide Decimal, Trim, IsHeader;
    HostIsHeader(serverName);
    TypeIsHeader();
    LengthIsHeader(Decimal(|body|));
    CloseIsHeader();
  }

  lemma Untrimmed(s: string)
    requires s != "" && !IsWhitespace(s[0]) && !IsWhitespace(s[|s| - 1])
    ensures Trim(s) == s
  {
    TrimKeepsTail("", s);
    assert "" + s == s;
  }

  /** The registry reads the prover's login request, its body to the announced length, whatever follows. */
  lemma LoginIsRead(serverName: string, body: Bytes, more: Bytes)
    requires IsAscii(serverName) && '\r' !in serverName && Trim(serverName) == serverName
    requires |serverName| + |body| < 0x8000_0000_0000_0000
    ensures IsAscii(LoginHead(serverName, Decimal(|body|)))
    ensures Parse(AsciiBytes(LoginHead(serverName, Decimal(|body|))) + [13, 10, 13, 10] + body + more) == Complete(LoginRequest(serverName, body))
  {
    hide Decimal, Trim, FirstValue, ParseSize, LoginHead, PrintHead, Parse, IsHeader;
    var r := LoginRequest(serverName, body);
    var length := Decimal(|body|);
    LoginPrints(serverName, body);
    NumeralIsAscii(length);
    LoginIsAscii(serverName, length);
    LoginHeaders(serverName, body);
    LoginLength(serverName, body);
    LengthParses(|body|);
    NumeralIsShort(|body|);
    PrintThenParse(r, more);
  }

  lemma LoginIsAscii(serverName: string, length: string)
    requires IsAscii(serverName) && IsAscii(length)
    ensures IsAscii(LoginHead(serverName, length))
    ensures |LoginHead(serverName, length)| == 97 + |serverName| + |length|
  {
    hide IsAscii;
    AsciiParts();
    AsciiNames();
    var d := "\r\n" + "Connection: close";
    AsciiJoin("\r\n", "Connection: close");
    AsciiJoin("Content-Length: ", length);
    AsciiJoin("Content-Length: " + length, d);
    AsciiJoin("\r\n", "Content-Length: " + length + d);
    var c := "\r\n" + ("Content-Length: " + length + d);
    AsciiJoin("Content-Type: application/json", c);
    AsciiJoin("\r\n", "Content-Type: application/json" + c);
    var b := "\r\n" + ("Content-Type: application/json" + c);
    AsciiJoin("Host: ", serverName);
    AsciiJoin("Host: " + serverName, b);
    AsciiJoin("\r\n", "Host: " + serverName + b);
    AsciiJoin("POST /login HTTP/1.1", "\r\n" + ("Host: " + serverName + b));
  }

  lemma AsciiJoin(a: string, b: string)
    requires IsAscii(a) && IsAscii(b)
    ensures IsAscii(a + b)
  {
  }

  lemma AsciiParts()
    ensures IsAscii("POST /login HTTP/1.1") && IsAscii("\r\n") && IsAscii("Host: ")
  {
  }

  lemma AsciiNames()
    ensures IsAscii("Content-Type: application/json") && IsAscii("Content-Length: ") && IsAscii("Connection: close")
  {
  }

  lemma NumeralIsShort(n: nat)
    requires n < 0x8000_0000_0000_0000
    ensures |Decimal(n)| <= 19
  {
    hide Decimal;
    assert Pow10(19) == 10000000000000000000 by {
      assert Pow10(10) == 10000000000;
      assert Pow10(13) == 1000 * Pow10(10);
      assert Pow10(16) == 1000 * Pow10(13);
      assert Pow10(19) == 1000 * Pow10(16);
    }
    DecimalFits(n, 19);
  }

  /** The request line of a shape is a GET of its path. */
  lemma ShapeLineIsRead(target: string)
    requires IsAscii(target) && ' ' !in target && '\r' !in target && |target| < 0x8000_0000_0000_0000
    ensures Parse(Shape.RequestLine(AsciiBytes(target)) + [13, 10, 13, 10]) == Complete(Request("GET", target, [], []))
  {
    hide Parse, PrintHead;
    var r := Request("GET", target, [], []);
    var line := "GET " + target + " HTTP/1.1";
    assert PrintHead(r) == line by { PrintsLine(r); }
    assert IsAscii(line) by { assert IsAscii("GET ") && IsAscii(" HTTP/1.1"); }
    assert AsciiBytes(line) == Shape.RequestLine(AsciiBytes(target));
    PrintThenParse(r, []);
    assert Print(r) == AsciiBytes(line) + BLANK_LINE + [];
    assert Print(r) + [] == Shape.RequestLine(AsciiBytes(target)) + [13, 10, 13, 10];
  }

  lemma PrintsLine(r: Request)
    requires r.headers == []
    ensures PrintHead(r) == r.method_ + " " + r.target + " HTTP/1.1"
  {
  }

  // ---------- Which requests are refused, and how ----------

  /** A first line that is not followed by the version 1.1 is refused, whatever the headers say. */
  lemma VersionDecides(method_: string, target: string, version: string, rest: string)
    requires ' ' !in method_ && ' ' !in target && ' ' !in version && IsAscii(method_ + " " + target + " " + version + rest)
    requires '\r' !in method_ && '\r' !in target && '\r' !in version && (rest == "" || CRLF <= rest)
    ensures ParseHead(AsciiBytes(method_ + " " + target + " " + version + rest)) == Err(UnsupportedVersion) <==> version != "HTTP/1.1"
  {
    hide Split, Decode, ParseHeaders, ParseSize, FirstValue;
    var line := method_ + " " + target + " " + version;
    var head := line + rest;
    DecodeAscii(head);
    FirstOfLines(line, rest);
    SplitThree(method_, target, version, ' ');
  }

  /** So is a first line of fewer than three words. */
  lemma ShortLineIsMalformed(line: string, rest: string)
    requires IsAscii(line + rest) && '\r' !in line && (rest == "" || CRLF <= rest)
    requires |Split(line, " ")| < 3
    ensures ParseHead(AsciiBytes(line + rest)) == Err(MalformedRequestLine)
  {
    hide Split, Decode, ParseHeaders, ParseSize, FirstValue;
    DecodeAscii(line + rest);
    FirstOfLines(line, rest);
  }

  lemma FirstOfLines(line: string, rest: string)
    requires '\r' !in line && (rest == "" || CRLF <= rest)
    ensures Split(line + rest, CRLF)[0] == line
  {
    hide Split;
    if rest == "" {
      assert line + rest == line;
      SplitLineNone(line);
    } else {
      assert rest == CRLF + rest[2..];
      SplitLine(line, rest[2..]);
    }
  }

  /** A header's name is what stands before the first colon and its value what stands behind it, both trimmed;
      a line without a colon is none. */
  lemma HeaderIs(name: string, value: string)
    requires ':' !in name
    ensures ParseHeader(name + ":" + value) == Some((Trim(name), Trim(value)))
    ensures ParseHeader(name) == None
  {
    hide Trim;
    var line := name + ":" + value;
    assert line[|name|..|name| + 1] == ":";
    forall j: nat
      ensures j < |name| ==> !OccursAt(line, ":", j)
      ensures !OccursAt(name, ":", j)
    {
      OccursMeans(line, ":", j);
      OccursMeans(name, ":", j);
      assert j < |name| ==> line[j + 0] == name[j] && name[j] in name;
      assert ":"[0] == ':';
    }
    FindIs(line, ":", |name|);
    assert line[..|name|] == name && line[|name| + 1..] == value;
  }

  lemma CompleteNeeds(buf: Bytes, r: Request)
    requires Parse(buf) == Complete(r)
    ensures Find(buf, BLANK_LINE).Some? && Find(buf, BLANK_LINE).value + 4 + |r.body| <= |buf|
  {
    hide ParseHead;
  }

  /** Before its last byte a request is incomplete. */
  lemma PrefixIsIncomplete(r: Request, k: nat)
    requires IsPrintable(r) && k < |Print(r)|
    ensures Parse(Print(r)[..k]).Incomplete?
  {
    hide ParseHead, PrintHead, ParseSize, FirstValue, IsHeader, AsciiBytes, Parse, Find;
    var whole, part := Print(r), Print(r)[..k];
    assert whole == part + whole[k..];
    assert whole + [] == whole;
    PrintThenParse(r, []);
    PrintedHeadHasNoBlankLine(r);
    BlankLineFound(PrintHead(r), r.body);
    if !Parse(part).Incomplete? {
      AnswersAreStable(part, whole[k..]);
      CompleteNeeds(part, r);
      FindExtends(part, BLANK_LINE, whole[k..]);
    }
  }
}
