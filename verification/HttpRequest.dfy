/** The registry's incremental request parser and its read loop. */
module HttpRequest {
  import opened Wrappers
  import opened Bytes
  import opened Text

  /** Largest request the registry reads. */
  const MAX_REQUEST: nat := 8192

  const CHUNK: nat := 1024

  datatype Request = Request(method_: string, target: string, headers: seq<(string, string)>, body: Bytes)

  datatype ParseError = NotUtf8 | MalformedRequestLine | UnsupportedVersion | MalformedHeader | InvalidContentLength

  datatype Parsed =
    | Incomplete
    | Complete(request: Request)
    | Malformed(error: ParseError)
    /** The end of the body does not fit the machine's address width: the task aborts. */
    | Aborts

  const BLANK_LINE: Bytes := [13, 10, 13, 10]
  const CRLF: string := "\r\n"

  function NonEmpty(lines: seq<string>): seq<string> {
    if lines == [] then []
    else (if lines[0] != "" then [lines[0]] else []) + NonEmpty(lines[1..])
  }

  function ParseHeader(line: string): Option<(string, string)> {
    match Find(line, ":")
    case None => None
    case Some(i) => Some((Trim(line[..i]), Trim(line[i + 1..])))
  }

  function ParseHeaders(lines: seq<string>): Option<seq<(string, string)>> {
    if lines == [] then Some([])
    else
      var first :- ParseHeader(lines[0]);
      var rest :- ParseHeaders(lines[1..]);
      Some([first] + rest)
  }

  function Lower(c: char): char {
    if 'A' <= c <= 'Z' then c - 'A' + 'a' else c
  }

  predicate SameIgnoringCase(a: string, b: string) {
    |a| == |b| && forall i | 0 <= i < |a| :: Lower(a[i]) == Lower(b[i])
  }

  function FirstValue(headers: seq<(string, string)>, name: string): Option<string> {
    if headers == [] then None
    else if SameIgnoringCase(headers[0].0, name) then Some(headers[0].1)
    else FirstValue(headers[1..], name)
  }

  /** The value looked for is that of the first header with the name, in any letter case. */
  lemma {:induction false} FirstValueIs(headers: seq<(string, string)>, name: string, v: string)
    ensures FirstValue(headers, name) == Some(v) <==>
      exists i | 0 <= i < |headers| ::
        SameIgnoringCase(headers[i].0, name) && headers[i].1 == v && forall j | 0 <= j < i :: !SameIgnoringCase(headers[j].0, name)
  {
    hide SameIgnoringCase;
    if headers != [] {
      var rest := headers[1..];
      FirstValueIs(rest, name, v);
      assert forall i | 0 <= i < |rest| :: rest[i] == headers[i + 1];
      assert forall i | 0 < i < |headers| :: headers[i] == rest[i - 1];
      if i :| 0 <= i < |rest| && SameIgnoringCase(rest[i].0, name) && rest[i].1 == v && forall j | 0 <= j < i :: !SameIgnoringCase(rest[j].0, name) {
        assert !SameIgnoringCase(headers[0].0, name) ==> forall j | 0 <= j < i + 1 :: !SameIgnoringCase(headers[j].0, name);
      }
    }
  }

  /** Letter by letter: the length is announced under content-length in either case of each letter. */
  lemma ContentLengthNames(name: string)
    ensures SameIgnoringCase(name, "content-length") <==>
      |name| == 14 && forall i | 0 <= i < 14 :: name[i] == "content-length"[i] || name[i] == "CONTENT-LENGTH"[i]
  {
    hide SameIgnoringCase;
    CaseOfName(name, "content-length", "CONTENT-LENGTH");
  }

  lemma CaseOfName(name: string, low: string, up: string)
    requires |low| == |up| && forall i | 0 <= i < |low| :: IsCasePair(low[i], up[i])
    ensures SameIgnoringCase(name, low) <==> |name| == |low| && forall i | 0 <= i < |low| :: name[i] == low[i] || name[i] == up[i]
  {
    forall i | 0 <= i < |name| && i < |low|
      ensures Lower(name[i]) == Lower(low[i]) <==> name[i] == low[i] || name[i] == up[i]
    {
      assert IsCasePair(low[i], up[i]);
    }
  }

  /** One character in small and in capital letters. */
  predicate IsCasePair(low: char, up: char) {
    ('a' <= low <= 'z' && up == low - 'a' + 'A') || (low == up && !('a' <= low <= 'z') && !('A' <= low <= 'Z'))
  }

  const USIZE_BOUND: nat := 0x1_0000_0000_0000_0000

  /** `parse::<usize>`: a numeral, optionally after a plus sign, that fits. */
  function ParseSize(s: string): Option<nat> {
    var digits := if s != "" && s[0] == '+' then s[1..] else s;
    if digits != "" && AllDigits(digits) && Value(digits) < USIZE_BOUND then Some(Value(digits)) else None
  }

  /** A length is its decimal numeral, with or without a plus sign, below 2^64. */
  lemma SizesAre(digits: string)
    requires digits != "" && AllDigits(digits)
    ensures ParseSize(digits) == ParseSize("+" + digits) == if Value(digits) < 18446744073709551616 then Some(Value(digits)) else None
  {
    hide Value;
    assert digits[0] in digits;
    assert ("+" + digits)[1..] == digits;
  }

  lemma OtherSizes(s: string)
    requires ParseSize(s).Some?
    ensures AllDigits(s) || (s != "" && s[0] == '+' && AllDigits(s[1..]))
    ensures s != "" && s != "+"
  {
  }

  datatype Head = Head(method_: string, target: string, headers: seq<(string, string)>, contentLength: nat)

  /** Everything in front of the blank line. */
  function ParseHead(bytes: Bytes): Result<Head, ParseError> {
    match Decode(bytes)
    case None => Err(NotUtf8)
    case Some(head) =>
      var lines := Split(head, CRLF);
      var words := Split(lines[0], " ");
      if |words| < 3 then Err(MalformedRequestLine)
      else if words[2] != "HTTP/1.1" then Err(UnsupportedVersion)
      else
        match ParseHeaders(NonEmpty(lines[1..]))
        case None => Err(MalformedHeader)
        case Some(headers) =>
          match FirstValue(headers, "content-length")
          case None => Ok(Head(words[0], words[1], headers, 0))
          case Some(v) =>
            match ParseSize(v)
            case None => Err(InvalidContentLength)
            case Some(n) => Ok(Head(words[0], words[1], headers, n))
  }

  /** `Request::parse`. */
  function Parse(buf: Bytes): Parsed {
    match Find(buf, BLANK_LINE)
    case None => Incomplete
    case Some(headEnd) =>
      match ParseHead(buf[..headEnd])
      case Err(e) => Malformed(e)
      case Ok(h) =>
        var bodyStart := headEnd + 4;
        if USIZE_BOUND <= bodyStart + h.contentLength then Aborts
        else if |buf| < bodyStart + h.contentLength then Incomplete
        else Complete(Request(h.method_, h.target, h.headers, buf[bodyStart..bodyStart + h.contentLength]))
  }

  // ---------- Stability ----------

  /** An answer stays the same whatever follows. */
  lemma AnswersAreStable(buf: Bytes, more: Bytes)
    requires !Parse(buf).Incomplete?
    ensures Parse(buf + more) == Parse(buf)
  {
    hide ParseHead;
    FindExtends(buf, BLANK_LINE, more);
    var headEnd := Find(buf, BLANK_LINE).value;
    assert (buf + more)[..headEnd] == buf[..headEnd];
    var h := ParseHead(buf[..headEnd]);
    if Parse(buf).Complete? {
      var start, end := headEnd + 4, headEnd + 4 + h.value.contentLength;
      assert (buf + more)[start..end] == buf[start..end];
    }
  }

  lemma PrefixAnswers(stream: Bytes, i: nat, j: nat)
    requires i <= j <= |stream| && !Parse(stream[..i]).Incomplete?
    ensures Parse(stream[..j]) == Parse(stream[..i])
  {
    hide Parse;
    assert stream[..j] == stream[..i] + stream[i..j];
    AnswersAreStable(stream[..i], stream[i..j]);
  }

  // ---------- The read loop ----------

  datatype ReadEnd = Answer(parsed: Parsed) | ClosedEarly | TooLarge

  function Joined(chunks: seq<Bytes>): Bytes {
    if chunks == [] then [] else Joined(chunks[..|chunks| - 1]) + chunks[|chunks| - 1]
  }

  /** The buffer ends the loop. */
  predicate Ends(buf: Bytes) {
    MAX_REQUEST < |buf| || !Parse(buf).Incomplete?
  }

  function EndOf(buf: Bytes): ReadEnd {
    if MAX_REQUEST < |buf| then TooLarge else Answer(Parse(buf))
  }

  /** What successful reads return: at least a byte and at most a chunk each. */
  predicate AreReads(chunks: seq<Bytes>) {
    forall i | 0 <= i < |chunks| :: 0 < |chunks[i]| <= CHUNK
  }

  /** Reads until the request is complete, malformed or too large; `chunks` are what the reads return until
      the client closes. */
  method ReadRequest(chunks: seq<Bytes>) returns (r: ReadEnd, used: nat)
    requires AreReads(chunks)
    ensures used <= |chunks|
    ensures forall k | 0 < k < used :: !Ends(Joined(chunks[..k]))
    ensures r == ClosedEarly ==> used == |chunks| && forall k | 0 < k <= |chunks| :: !Ends(Joined(chunks[..k]))
    ensures r != ClosedEarly ==> used > 0 && Ends(Joined(chunks[..used])) && r == EndOf(Joined(chunks[..used]))
  {
    hide Parse;
    var buf: Bytes := [];
    var i := 0;
    while true
      invariant 0 <= i <= |chunks| && buf == Joined(chunks[..i])
      invariant forall k | 0 < k <= i :: !Ends(Joined(chunks[..k]))
      decreases |chunks| - i
    {
      if i == |chunks| {
        return ClosedEarly, i;
      }
      assert chunks[..i + 1][..i] == chunks[..i];
      buf := buf + chunks[i];
      i := i + 1;
      if MAX_REQUEST < |buf| {
        return TooLarge, i;
      }
      var parsed := Parse(buf);
      if !parsed.Incomplete? {
        return Answer(parsed), i;
      }
    }
  }

  lemma {:induction false} JoinedLength(chunks: seq<Bytes>, i: nat, j: nat)
    requires i <= j <= |chunks|
    ensures Joined(chunks[..i]) <= Joined(chunks[..j])
    decreases j
  {
    if i < j {
      JoinedLength(chunks, i, j - 1);
      assert chunks[..j][..j - 1] == chunks[..j - 1];
    }
  }

  /** Some read ended with the whole request in the buffer and the buffer within bounds. */
  ghost predicate CaughtInTime(chunks: seq<Bytes>) {
    exists k :: 0 < k <= |chunks| && Catches(Joined(chunks[..k]))
  }

  predicate Catches(buf: Bytes) {
    |buf| <= MAX_REQUEST && !Parse(buf).Incomplete?
  }

  lemma CaughtAnswer(chunks: seq<Bytes>, k: nat)
    requires 0 < k <= |chunks| && !Parse(Joined(chunks[..k])).Incomplete?
    ensures Parse(Joined(chunks)) == Parse(Joined(chunks[..k]))
  {
    hide Parse, Joined;
    JoinedLength(chunks, k, |chunks|);
    assert chunks[..|chunks|] == chunks;
    var a, b := Joined(chunks[..k]), Joined(chunks);
    assert b == a + b[|a|..];
    AnswersAreStable(a, b[|a|..]);
  }

  /** How the loop ends, in terms of the stream and the reads' boundaries: with the stream's own answer
      exactly if some boundary lies between the end of the request and the size limit. */
  method ServeStream(chunks: seq<Bytes>) returns (r: ReadEnd)
    requires AreReads(chunks)
    ensures CaughtInTime(chunks) ==> r == Answer(Parse(Joined(chunks)))
    ensures !CaughtInTime(chunks) ==> r == if |Joined(chunks)| <= 8192 then ClosedEarly else TooLarge
    ensures |Joined(chunks)| <= 8192 ==>
      r == if Parse(Joined(chunks)).Incomplete? then ClosedEarly else Answer(Parse(Joined(chunks)))
  {
    hide Parse, Joined;
    var used;
    r, used := ReadRequest(chunks);
    if |Joined(chunks)| <= MAX_REQUEST {
      ChunkingDoesNotMatter(chunks);
    }
    assert chunks[..|chunks|] == chunks;
    if r != ClosedEarly {
      JoinedLength(chunks, used, |chunks|);
      if !Parse(Joined(chunks[..used])).Incomplete? {
        CaughtAnswer(chunks, used);
      }
      if |Joined(chunks[..used])| > MAX_REQUEST {
        TooLargeCatchesNothing(chunks, used);
      } else {
        assert Catches(Joined(chunks[..used]));
      }
    } else {
      assert forall k | 0 < k <= |chunks| :: !Ends(Joined(chunks[..k])) ==> !Catches(Joined(chunks[..k]));
      if chunks == [] {
        NothingJoined();
      }
    }
  }

  lemma NothingJoined()
    ensures Joined([]) == [] && Parse([]).Incomplete?
  {
  }

  lemma TooLargeCatchesNothing(chunks: seq<Bytes>, used: nat)
    requires 0 < used <= |chunks| && |Joined(chunks[..used])| > MAX_REQUEST
    requires forall k | 0 < k < used :: !Ends(Joined(chunks[..k]))
    ensures !CaughtInTime(chunks)
  {
    hide Parse, Joined;
    forall k | 0 < k <= |chunks|
      ensures !Catches(Joined(chunks[..k]))
    {
      if k < used {
        assert !Ends(Joined(chunks[..k]));
      } else {
        JoinedLength(chunks, used, k);
      }
    }
  }

  /** How a stream within the size limit is cut does not matter: some read catches an answer exactly if the
      whole stream has one. */
  lemma ChunkingDoesNotMatter(chunks: seq<Bytes>)
    requires |Joined(chunks)| <= MAX_REQUEST
    ensures CaughtInTime(chunks) <==> !Parse(Joined(chunks)).Incomplete?
  {
    hide Parse, Joined;
    assert chunks[..|chunks|] == chunks;
    if CaughtInTime(chunks) {
      var k :| 0 < k <= |chunks| && Catches(Joined(chunks[..k]));
      CaughtAnswer(chunks, k);
    } else if chunks == [] {
      NothingJoined();
    } else {
      assert !Catches(Joined(chunks[..|chunks|]));
    }
  }

  lemma {:induction false} BoundaryNear(chunks: seq<Bytes>, m: nat) returns (k: nat)
    requires AreReads(chunks)
    requires 0 < m <= |Joined(chunks)|
    ensures 0 < k <= |chunks| && m <= |Joined(chunks[..k])| < m + CHUNK
  {
    var n := |chunks| - 1;
    assert chunks[..n + 1] == chunks;
    if m <= |Joined(chunks[..n])| {
      k := BoundaryNear(chunks[..n], m);
      assert chunks[..n][..k] == chunks[..k];
    } else {
      k := n + 1;
    }
  }

  /** Reads return at most a chunk, so a request that is complete a chunk before the limit is answered
      however the stream is cut and whatever follows it. */
  lemma EarlyRequestsAreAnswered(chunks: seq<Bytes>, m: nat)
    requires AreReads(chunks)
    requires 0 < m <= |Joined(chunks)| && m + 1023 <= 8192
    requires !Parse(Joined(chunks)[..m]).Incomplete?
    ensures CaughtInTime(chunks) && Parse(Joined(chunks)) == Parse(Joined(chunks)[..m])
  {
    hide Parse, Joined;
    var k := BoundaryNear(chunks, m);
    var all := Joined(chunks);
    JoinedLength(chunks, k, |chunks|);
    assert chunks[..|chunks|] == chunks;
    var n := |Joined(chunks[..k])|;
    assert Joined(chunks[..k]) == all[..n];
    PrefixAnswers(all, m, n);
    PrefixAnswers(all, m, |all|);
    assert all[..|all|] == all;
    assert Catches(Joined(chunks[..k]));
  }
}
