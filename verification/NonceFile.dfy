/** The record of signed nonces as a file: one nonce per line, 64 hexadecimal digits, only ever
    appended to, and read in full when the notary starts. */
module NonceFile {
  import opened Wrappers
  import opened Bytes
  import opened Text

  const NEWLINE: Byte := 10
  const CARRIAGE_RETURN: Byte := 13

  type Nonce = Word

  /** The 1-based number of the first line that is not a nonce. */
  datatype OpenError = MalformedLine(number: nat)

  // ---------- Hexadecimal ----------

  predicate IsHexDigit(c: char) {
    '0' <= c <= '9' || 'a' <= c <= 'f' || 'A' <= c <= 'F'
  }

  function HexValue(c: char): (v: nat)
    requires IsHexDigit(c)
    ensures v < 16
  {
    if c <= '9' then (c - '0') as nat
    else if c <= 'F' then 10 + (c - 'A') as nat
    else 10 + (c - 'a') as nat
  }

  function HexChar(v: nat): (c: char)
    requires v < 16
    ensures IsHexDigit(c) && HexValue(c) == v
  {
    "0123456789abcdef"[v]
  }

  /** `hex::encode`. */
  function HexEncode(b: Bytes): (s: string)
    ensures |s| == 2 * |b| && forall i | 0 <= i < |s| :: IsHexDigit(s[i])
  {
    if b == [] then ""
    else [HexChar(b[0] as nat / 16), HexChar(b[0] as nat % 16)] + HexEncode(b[1..])
  }

  /** `hex::decode`. */
  function HexDecode(s: string): (r: Option<Bytes>)
    ensures r.Some? ==> 2 * |r.value| == |s|
  {
    if s == "" then Some([])
    else if |s| == 1 || !IsHexDigit(s[0]) || !IsHexDigit(s[1]) then None
    else
      var rest :- HexDecode(s[2..]);
      Some([(16 * HexValue(s[0]) + HexValue(s[1])) as Byte] + rest)
  }

  lemma DigitsOfByte(v: nat)
    requires v < 256
    ensures 16 * HexValue(HexChar(v / 16)) + HexValue(HexChar(v % 16)) == v
  {
  }

  lemma {:induction false} HexRoundTrip(b: Bytes)
    ensures HexDecode(HexEncode(b)) == Some(b)
  {
    hide HexChar, HexValue;
    if b != [] {
      var s, rest := HexEncode(b), HexEncode(b[1..]);
      var v := b[0] as nat;
      assert s[0] == HexChar(v / 16) && s[1] == HexChar(v % 16) && s[2..] == rest;
      HexRoundTrip(b[1..]);
      DigitsOfByte(v);
      assert b == [b[0]] + b[1..];
    }
  }

  // ---------- The file ----------

  /** What `record` appends for one nonce. */
  function RecordLine(eta: Nonce): (line: Bytes)
    ensures |line| == 65
  {
    AsciiBytes(HexEncode(eta)) + [NEWLINE]
  }

  /** `BufRead::lines`: without the line ends; a last line need not be ended. */
  function Lines(file: Bytes): seq<Bytes> {
    if file == [] then []
    else match Find(file, [NEWLINE])
      case None => [file]
      case Some(i) => [StripCarriageReturn(file[..i])] + Lines(file[i + 1..])
  }

  function StripCarriageReturn(line: Bytes): Bytes {
    if line != [] && line[|line| - 1] == CARRIAGE_RETURN then line[..|line| - 1] else line
  }

  function ParseLine(line: Bytes): Option<Nonce> {
    var text :- Decode(line);
    var bytes :- HexDecode(Trim(text));
    if |bytes| == 32 then Some(bytes) else None
  }

  /** `open`: the nonces of all lines, or the first line that is not a nonce. */
  function Load(file: Bytes): Result<set<Nonce>, OpenError> {
    LoadLines(Lines(file), 1)
  }

  function LoadLines(lines: seq<Bytes>, number: nat): Result<set<Nonce>, OpenError> {
    if lines == [] then Ok({})
    else match ParseLine(lines[0])
      case None => Err(MalformedLine(number))
      case Some(eta) =>
        var rest :- LoadLines(lines[1..], number + 1);
        Ok({eta} + rest)
  }

  /** The file holds the full line of `eta`, whatever comes before it on that line. */
  ghost predicate Recorded(file: Bytes, eta: Nonce) {
    exists before: Bytes, after: Bytes :: file == before + RecordLine(eta) + after
  }

  /** A line that ends in the digits of `eta` is read as `eta` or not at all, whatever precedes them. */
  lemma ParseEndsIn(p: Bytes, eta: Nonce)
    ensures ParseLine(p + AsciiBytes(HexEncode(eta))) in {None, Some(eta)}
    ensures p == [] ==> ParseLine(p + AsciiBytes(HexEncode(eta))) == Some(eta)
  {
    hide HexDecode, HexEncode;
    var h := HexEncode(eta);
    DecodeThenAscii(p, h);
    HexRoundTrip(eta);
    if Decode(p).Some? {
      var t := Decode(p).value;
      assert IsHexDigit(h[0]) && IsHexDigit(h[63]);
      TrimKeepsTail(t, h);
      if TrimStart(t) == "" {
        assert TrimStart(t) + h == h;
      }
    }
  }

  lemma LinesAfterBreak(a: Bytes, b: Bytes)
    requires NEWLINE !in a
    ensures Lines(a + [NEWLINE] + b) == [StripCarriageReturn(a)] + Lines(b)
  {
    var f := a + [NEWLINE] + b;
    assert OccursAt(f, [NEWLINE], |a|);
    forall j: nat | j < |a|
      ensures !OccursAt(f, [NEWLINE], j)
    {
      assert f[j] == a[j] && a[j] in a;
    }
    FindIs(f, [NEWLINE], |a|);
    assert f[..|a|] == a && f[|a| + 1..] == b;
  }

  /** The ended lines of a text, and the unended text after them. */
  function Front(a: Bytes): seq<Bytes> {
    match Find(a, [NEWLINE])
    case None => []
    case Some(i) => [StripCarriageReturn(a[..i])] + Front(a[i + 1..])
  }

  function Rest(a: Bytes): Bytes {
    match Find(a, [NEWLINE])
    case None => a
    case Some(i) => Rest(a[i + 1..])
  }

  lemma NoBreakBefore(a: Bytes, i: nat)
    requires i <= |a| && forall j: nat :: j < i ==> !OccursAt(a, [NEWLINE], j)
    ensures NEWLINE !in a[..i]
  {
    forall j | 0 <= j < i
      ensures a[j] != NEWLINE
    {
      assert !OccursAt(a, [NEWLINE], j);
      assert a[j..j + 1] == [a[j]];
    }
  }

  lemma {:induction false} RestHasNoBreak(a: Bytes)
    ensures NEWLINE !in Rest(a)
  {
    match Find(a, [NEWLINE])
    case None =>
      NoBreakBefore(a, |a|);
      assert a[..|a|] == a;
    case Some(i) => RestHasNoBreak(a[i + 1..]);
  }

  lemma BreakAt(a: Bytes, i: nat)
    requires OccursAt(a, [NEWLINE], i)
    ensures i < |a| && a == a[..i] + [NEWLINE] + a[i + 1..]
  {
    assert a[i..i + 1] == [NEWLINE];
    assert a[i] == [NEWLINE][0];
  }

  lemma AtBreak(a: Bytes, i: nat)
    requires Find(a, [NEWLINE]) == Some(i)
    ensures i < |a| && a == a[..i] + [NEWLINE] + a[i + 1..] && NEWLINE !in a[..i]
    ensures Front(a) == [StripCarriageReturn(a[..i])] + Front(a[i + 1..]) && Rest(a) == Rest(a[i + 1..])
  {
    hide StripCarriageReturn, OccursAt, FindFrom;
    BreakAt(a, i);
    NoBreakBefore(a, i);
  }

  lemma LinesOfConcatStep(a: Bytes, b: Bytes, i: nat)
    requires b != [] && Find(a, [NEWLINE]) == Some(i)
    requires i < |a| && Lines(a[i + 1..] + b) == Front(a[i + 1..]) + Lines(Rest(a[i + 1..]) + b)
    ensures Lines(a + b) == Front(a) + Lines(Rest(a) + b)
  {
    hide StripCarriageReturn, Lines, Front, Rest, Find;
    var head, tail := a[..i], a[i + 1..];
    AtBreak(a, i);
    LinesAfterBreak(head, tail + b);
    Regroup(head + [NEWLINE], tail, b);
    Regroup([StripCarriageReturn(head)], Front(tail), Lines(Rest(tail) + b));
  }

  /** Appending leaves the ended lines alone and extends the last one. */
  lemma {:induction false} LinesOfConcat(a: Bytes, b: Bytes)
    requires b != []
    ensures Lines(a + b) == Front(a) + Lines(Rest(a) + b)
    decreases |a|
  {
    hide StripCarriageReturn, Lines;
    match Find(a, [NEWLINE])
    case None =>
    case Some(i) =>
      LinesOfConcat(a[i + 1..], b);
      LinesOfConcatStep(a, b, i);
  }

  lemma {:induction false} LoadLinesSplit(a: seq<Bytes>, b: seq<Bytes>, n: nat)
    ensures LoadLines(a + b, n).Ok? <==> LoadLines(a, n).Ok? && LoadLines(b, n + |a|).Ok?
    ensures LoadLines(a + b, n).Ok? ==> LoadLines(a + b, n).value == LoadLines(a, n).value + LoadLines(b, n + |a|).value
  {
    hide ParseLine;
    if a == [] {
      assert a + b == b;
    } else {
      assert (a + b)[1..] == a[1..] + b;
      LoadLinesSplit(a[1..], b, n + 1);
    }
  }

  lemma DigitsHaveNoBreak(eta: Nonce)
    ensures var h := AsciiBytes(HexEncode(eta)); NEWLINE !in h && CARRIAGE_RETURN !in h
  {
    var s := HexEncode(eta);
    forall i | 0 <= i < |s|
      ensures AsciiBytes(s)[i] != NEWLINE && AsciiBytes(s)[i] != CARRIAGE_RETURN
    {
      assert IsHexDigit(s[i]);
    }
  }

  /** How a file reads around the full line of `eta`: the ended lines before it, the line itself with
      whatever was left unended before it, and the rest. */
  lemma LinesAround(before: Bytes, eta: Nonce, after: Bytes)
    ensures Lines(before + RecordLine(eta) + after)
      == Front(before) + ([Rest(before) + AsciiBytes(HexEncode(eta))] + Lines(after))
  {
    hide Lines, Front, Rest, HexEncode;
    var h := AsciiBytes(HexEncode(eta));
    var line := Rest(before) + h;
    RestHasNoBreak(before);
    DigitsHaveNoBreak(eta);
    assert before + RecordLine(eta) + after == before + (h + [NEWLINE] + after);
    LinesOfConcat(before, h + [NEWLINE] + after);
    assert Rest(before) + (h + [NEWLINE] + after) == line + [NEWLINE] + after;
    LinesAfterBreak(line, after);
    assert line[|line| - 1] == h[|h| - 1];
  }

  /** Fail closed: whatever bytes surround a recorded line, opening the file either loads its nonce or
      refuses the file. */
  lemma RecordedIsLoaded(file: Bytes, eta: Nonce)
    requires Recorded(file, eta) && Load(file).Ok?
    ensures eta in Load(file).value
  {
    var before: Bytes, after: Bytes :| file == before + RecordLine(eta) + after;
    var line := Rest(before) + AsciiBytes(HexEncode(eta));
    LinesAround(before, eta, after);
    LoadLinesSplit(Front(before), [line] + Lines(after), 1);
    ParseEndsIn(Rest(before), eta);
  }

  lemma RecordedStays(file: Bytes, eta: Nonce, more: Bytes)
    requires Recorded(file, eta)
    ensures Recorded(file + more, eta)
  {
    var before: Bytes, after: Bytes :| file == before + RecordLine(eta) + after;
    assert file + more == before + RecordLine(eta) + (after + more);
  }

  /** Torn for good: once a full line is appended behind a non-empty part of a record line that never
      got its line end, no later content makes the file readable again. */
  lemma TornLineStays(before: Bytes, torn: Nonce, k: nat, eta: Nonce, after: Bytes)
    requires 0 < k <= 64
    ensures Load(before + RecordLine(torn)[..k] + RecordLine(eta) + after).Err?
  {
    var p := RecordLine(torn)[..k];
    var h := AsciiBytes(HexEncode(eta));
    var line := Rest(before + p) + h;
    LinesAround(before + p, eta, after);
    LoadLinesSplit(Front(before + p), [line] + Lines(after), 1);
    RestEndsInTorn(before, torn, k);
    TornDoesNotParse(Rest(before + p), torn, k, eta);
  }

  lemma {:induction false} RestOfConcat(a: Bytes, b: Bytes)
    requires NEWLINE !in b
    ensures Rest(a + b) == Rest(a) + b
    decreases |a|
  {
    match Find(a, [NEWLINE])
    case None =>
      NoBreakBefore(a, |a|);
      assert a[..|a|] == a;
      NoBreakMeansNone(a + b);
    case Some(i) =>
      FindExtends(a, [NEWLINE], b);
      assert (a + b)[i + 1..] == a[i + 1..] + b;
      RestOfConcat(a[i + 1..], b);
  }

  lemma NoBreakMeansNone(a: Bytes)
    requires NEWLINE !in a
    ensures Find(a, [NEWLINE]).None?
  {
    forall j: nat
      ensures !OccursAt(a, [NEWLINE], j)
    {
      assert j < |a| ==> a[j..j + 1] == [a[j]];
    }
  }

  lemma RestEndsInTorn(before: Bytes, torn: Nonce, k: nat)
    requires 0 < k <= 64
    ensures Rest(before + RecordLine(torn)[..k]) == Rest(before) + AsciiBytes(HexEncode(torn)[..k])
  {
    var p := RecordLine(torn)[..k];
    assert p == AsciiBytes(HexEncode(torn)[..k]);
    DigitsHaveNoBreak(torn);
    forall i | 0 <= i < k
      ensures p[i] != NEWLINE
    {
      assert p[i] == AsciiBytes(HexEncode(torn))[i];
    }
    RestOfConcat(before, p);
  }

  lemma TornDoesNotParse(line: Bytes, torn: Nonce, k: nat, eta: Nonce)
    requires 0 < k <= 64 && exists q: Bytes :: line == q + AsciiBytes(HexEncode(torn)[..k])
    ensures ParseLine(line + AsciiBytes(HexEncode(eta))).None?
  {
    hide Decode, HexDecode, HexEncode, TrimEnd, TrimStart, Trim;
    var q: Bytes :| line == q + AsciiBytes(HexEncode(torn)[..k]);
    var d := HexEncode(torn)[..k];
    var h := HexEncode(eta);
    assert line + AsciiBytes(h) == q + AsciiBytes(d + h);
    DecodeThenAscii(q, d + h);
    if Decode(q).Some? {
      assert IsHexDigit((d + h)[0]) && IsHexDigit((d + h)[|d + h| - 1]);
      TrimKeepsTail(Decode(q).value, d + h);
    }
  }

  lemma EmptyFront()
    ensures Front([]) == [] && Rest([]) == []
  {
  }

  /** The file after recording `etas` without a failure. */
  function Log(etas: seq<Nonce>): Bytes {
    if etas == [] then [] else RecordLine(etas[0]) + Log(etas[1..])
  }

  /** The first record of a log is its first line. */
  lemma FirstOfLog(etas: seq<Nonce>)
    requires etas != []
    ensures var h := AsciiBytes(HexEncode(etas[0]));
      Lines(Log(etas)) == [h] + Lines(Log(etas[1..])) && ParseLine(h) == Some(etas[0])
  {
    hide ParseLine, HexEncode, Lines, RecordLine;
    FirstLine(etas[0], Log(etas[1..]));
  }

  lemma NothingAhead<T>(s: seq<T>)
    ensures [] + s == s
  {
  }

  lemma LoadFirst(line: Bytes, lines: seq<Bytes>, eta: Nonce, number: nat)
    requires ParseLine(line) == Some(eta) && LoadLines(lines, number + 1).Ok?
    ensures LoadLines([line] + lines, number) == Ok({eta} + LoadLines(lines, number + 1).value)
  {
    hide ParseLine;
    assert ([line] + lines)[1..] == lines;
  }

  lemma SetOfFirst(etas: seq<Nonce>)
    requires etas != []
    ensures (set eta | eta in etas) == {etas[0]} + (set eta | eta in etas[1..])
  {
    assert etas == [etas[0]] + etas[1..];
  }

  /** Every nonce recorded is read back, and nothing else. */
  lemma {:induction false} LogReadsBack(etas: seq<Nonce>, number: nat)
    ensures LoadLines(Lines(Log(etas)), number) == Ok(set eta | eta in etas)
  {
    if etas == [] {
      assert (set eta | eta in etas) == {};
    } else {
      hide ParseLine, HexEncode, Lines, LoadLines, Log;
      FirstOfLog(etas);
      LogReadsBack(etas[1..], number + 1);
      LoadFirst(AsciiBytes(HexEncode(etas[0])), Lines(Log(etas[1..])), etas[0], number);
      SetOfFirst(etas);
    }
  }

  // ---------- What a file says, digit by digit ----------

  /** `c` is the hexadecimal digit `v`, in either case. */
  predicate IsDigitOf(c: char, v: Byte) {
    v < 16 && c in {"0123456789abcdef"[v], "0123456789ABCDEF"[v]}
  }

  /** `t` is two digits for each byte, the high one first. */
  predicate Spells(t: string, b: Bytes) {
    |t| == 2 * |b| && forall i | 0 <= i < |b| :: IsDigitOf(t[2 * i], b[i] / 16) && IsDigitOf(t[2 * i + 1], b[i] % 16)
  }

  /** The line is UTF-8, and without the white space around it the 64 digits of `eta`. */
  predicate LineIs(line: Bytes, eta: Nonce) {
    Decode(line).Some? && Spells(Trim(Decode(line).value), eta)
  }

  ghost predicate IsNonceLine(line: Bytes) {
    exists eta :: LineIs(line, eta)
  }

  ghost predicate AllNonces(lines: seq<Bytes>) {
    forall i | 0 <= i < |lines| :: IsNonceLine(lines[i])
  }

  ghost predicate SomeLineIs(lines: seq<Bytes>, eta: Nonce) {
    exists i | 0 <= i < |lines| :: LineIs(lines[i], eta)
  }

  lemma DigitIs(c: char, v: Byte)
    ensures IsDigitOf(c, v) <==> IsHexDigit(c) && HexValue(c) == v as nat
  {
  }

  lemma ByteIs(c: char, d: char, v: Byte)
    requires IsHexDigit(c) && IsHexDigit(d)
    ensures 16 * HexValue(c) + HexValue(d) == v as nat <==> IsDigitOf(c, v / 16) && IsDigitOf(d, v % 16)
  {
    hide IsHexDigit, HexValue, IsDigitOf;
    DigitIs(c, v / 16);
    DigitIs(d, v % 16);
  }

  lemma SpellsFirst(t: string, b: Bytes)
    requires 2 <= |t| == 2 * |b|
    ensures Spells(t, b) <==> IsDigitOf(t[0], b[0] / 16) && IsDigitOf(t[1], b[0] % 16) && Spells(t[2..], b[1..])
  {
    hide IsDigitOf;
    if Spells(t[2..], b[1..]) && IsDigitOf(t[0], b[0] / 16) && IsDigitOf(t[1], b[0] % 16) {
      forall i | 0 <= i < |b|
        ensures IsDigitOf(t[2 * i], b[i] / 16) && IsDigitOf(t[2 * i + 1], b[i] % 16)
      {
        if 0 < i {
          assert t[2..][2 * (i - 1)] == t[2 * i] && t[2..][2 * (i - 1) + 1] == t[2 * i + 1] && b[1..][i - 1] == b[i];
        }
      }
    }
    if Spells(t, b) {
      assert IsDigitOf(t[2 * 0], b[0] / 16) && IsDigitOf(t[2 * 0 + 1], b[0] % 16);
      forall i | 0 <= i < |b[1..]|
        ensures IsDigitOf(t[2..][2 * i], b[1..][i] / 16) && IsDigitOf(t[2..][2 * i + 1], b[1..][i] % 16)
      {
        assert IsDigitOf(t[2 * (i + 1)], b[i + 1] / 16) && IsDigitOf(t[2 * (i + 1) + 1], b[i + 1] % 16);
      }
    }
  }

  lemma {:induction false} HexDecodeReads(t: string, b: Bytes)
    ensures HexDecode(t) == Some(b) <==> Spells(t, b)
  {
    hide IsHexDigit, HexValue, IsDigitOf, Spells;
    if 2 <= |t| == 2 * |b| {
      SpellsFirst(t, b);
      DigitIs(t[0], b[0] / 16);
      DigitIs(t[1], b[0] % 16);
      if IsHexDigit(t[0]) && IsHexDigit(t[1]) {
        ByteIs(t[0], t[1], b[0]);
        HexDecodeReads(t[2..], b[1..]);
        assert b == [b[0]] + b[1..];
      }
    } else {
      SpellsLength(t, b);
    }
  }

  lemma SpellsLength(t: string, b: Bytes)
    ensures Spells(t, b) ==> |t| == 2 * |b|
    ensures |t| == 0 == |b| ==> Spells(t, b)
  {
  }

  lemma ParseReads(line: Bytes, eta: Nonce)
    ensures ParseLine(line) == Some(eta) <==> LineIs(line, eta)
  {
    hide HexDecode, Spells, Trim, Decode;
    if Decode(line).Some? {
      HexDecodeReads(Trim(Decode(line).value), eta);
    }
  }

  lemma ParsesNonceLines(line: Bytes)
    ensures ParseLine(line).Some? <==> IsNonceLine(line)
  {
    hide ParseLine, LineIs;
    if ParseLine(line).Some? {
      ParseReads(line, ParseLine(line).value);
    }
    if IsNonceLine(line) {
      var eta :| LineIs(line, eta);
      ParseReads(line, eta);
    }
  }

  lemma {:induction false} LoadsLines(lines: seq<Bytes>, number: nat)
    ensures LoadLines(lines, number).Ok? <==> AllNonces(lines)
    ensures LoadLines(lines, number).Ok? ==>
      forall eta :: eta in LoadLines(lines, number).value <==> SomeLineIs(lines, eta)
    ensures LoadLines(lines, number).Err? ==>
      var n := LoadLines(lines, number).error.number - number;
      0 <= n < |lines| && !IsNonceLine(lines[n]) && AllNonces(lines[..n])
  {
    hide ParseLine, LineIs, IsNonceLine, AllNonces, SomeLineIs;
    if lines == [] {
      NoLines();
    } else {
      var rest := lines[1..];
      ParsesNonceLines(lines[0]);
      AllOfFirst(lines);
      LoadsLines(rest, number + 1);
      match LoadLines(lines, number)
      case Ok(_) =>
        forall eta
          ensures eta in LoadLines(lines, number).value <==> SomeLineIs(lines, eta)
        {
          ParseReads(lines[0], eta);
          SomeOfFirst(lines, eta);
        }
      case Err(_) =>
        if ParseLine(lines[0]).Some? {
          var n := LoadLines(lines, number).error.number - number;
          AllOfFirst(lines[..n]);
          assert lines[..n][1..] == rest[..n - 1];
        } else {
          NoLines();
        }
    }
  }

  lemma NoLines()
    ensures AllNonces([]) && forall eta :: !SomeLineIs([], eta)
  {
  }

  lemma AllOfFirst(lines: seq<Bytes>)
    requires lines != []
    ensures AllNonces(lines) <==> IsNonceLine(lines[0]) && AllNonces(lines[1..])
  {
    hide IsNonceLine;
    if AllNonces(lines) {
      forall i | 0 <= i < |lines[1..]|
        ensures IsNonceLine(lines[1..][i])
      {
        assert IsNonceLine(lines[i + 1]);
      }
    } else {
      var i :| 0 <= i < |lines| && !IsNonceLine(lines[i]);
      assert 0 < i ==> !IsNonceLine(lines[1..][i - 1]);
    }
  }

  lemma SomeOfFirst(lines: seq<Bytes>, eta: Nonce)
    requires lines != []
    ensures SomeLineIs(lines, eta) <==> LineIs(lines[0], eta) || SomeLineIs(lines[1..], eta)
  {
    hide LineIs;
    if i :| 0 <= i < |lines[1..]| && LineIs(lines[1..][i], eta) {
      assert LineIs(lines[i + 1], eta);
    }
    if i :| 0 < i < |lines| && LineIs(lines[i], eta) {
      assert LineIs(lines[1..][i - 1], eta);
    }
  }

  /** A file opens exactly if every line of it spells a nonce, and then holds exactly those; otherwise the
      error is the number, from one, of the first line that does not. */
  lemma LoadsExactly(file: Bytes)
    ensures Load(file).Ok? <==> AllNonces(Lines(file))
    ensures Load(file).Ok? ==> forall eta :: eta in Load(file).value <==> SomeLineIs(Lines(file), eta)
    ensures Load(file).Err? ==>
      var n := Load(file).error.number;
      1 <= n <= |Lines(file)| && !IsNonceLine(Lines(file)[n - 1]) && AllNonces(Lines(file)[..n - 1])
  {
    hide Lines, AllNonces, SomeLineIs, IsNonceLine, LoadLines;
    LoadsLines(Lines(file), 1);
  }

  /** Lines end at a newline, and lose one carriage return before it; text behind the last newline is a line
      of its own. */
  lemma LinesEndAtNewlines(a: Bytes, b: Bytes)
    requires 10 !in a
    ensures Lines([]) == []
    ensures a != [] ==> Lines(a) == [a]
    ensures Lines(a + [10] + b) == [if a != [] && a[|a| - 1] == 13 then a[..|a| - 1] else a] + Lines(b)
  {
    LinesAfterBreak(a, b);
    NoBreakMeansNone(a);
  }

  lemma {:induction false} HexEncodeDigits(b: Bytes, i: nat)
    requires i < |b|
    ensures HexEncode(b)[2 * i] == HexChar(b[i] as nat / 16) && HexEncode(b)[2 * i + 1] == HexChar(b[i] as nat % 16)
  {
    hide HexChar;
    if 0 < i {
      HexEncodeDigits(b[1..], i - 1);
      var rest := HexEncode(b[1..]);
      assert HexEncode(b)[2 * i] == rest[2 * (i - 1)] && HexEncode(b)[2 * i + 1] == rest[2 * (i - 1) + 1];
      assert b[1..][i - 1] == b[i];
    }
  }

  /** A record is 64 lower-case digits, the high digit of each byte first, and a newline. */
  lemma RecordLineIs(eta: Nonce, i: nat)
    requires i < 32
    ensures var line := RecordLine(eta);
      && |line| == 65 && line[64] == 10
      && line[2 * i] as char == "0123456789abcdef"[eta[i] / 16]
      && line[2 * i + 1] as char == "0123456789abcdef"[eta[i] % 16]
  {
    hide HexEncode;
    HexEncodeDigits(eta, i);
  }

  lemma TornIsNoNonce(torn: Nonce, k: nat)
    requires 0 < k < 64
    ensures var p := RecordLine(torn)[..k]; p != [] && 10 !in p && ParseLine(p).None?
  {
    hide HexEncode, HexDecode, Decode, Trim, TrimStart, TrimEnd;
    var p, d := RecordLine(torn)[..k], HexEncode(torn)[..k];
    assert p == AsciiBytes(HexEncode(torn))[..k] == AsciiBytes(d);
    DigitsHaveNoBreak(torn);
    DecodeAscii(d);
    assert IsHexDigit(d[0]) && IsHexDigit(d[k - 1]);
    TrimKeepsTail("", d);
    TrimNothing();
    assert "" + d == d;
  }

  lemma TrimNothing()
    ensures TrimStart("") == ""
  {
  }

  /** A record that was cut short at the end of a clean log is refused, with the number of its line. */
  lemma {:induction false} TornTailIsRefused(etas: seq<Nonce>, torn: Nonce, k: nat, number: nat)
    requires 0 < k < 64
    ensures LoadLines(Lines(Log(etas) + RecordLine(torn)[..k]), number) == Err(MalformedLine(number + |etas|))
  {
    hide ParseLine, HexEncode, Lines, RecordLine;
    var p := RecordLine(torn)[..k];
    if etas == [] {
      NothingAhead(p);
      TornIsNoNonce(torn, k);
      LinesEndAtNewlines(p, []);
    } else {
      var h, rest := AsciiBytes(HexEncode(etas[0])), Log(etas[1..]);
      Regroup(RecordLine(etas[0]), rest, p);
      FirstLine(etas[0], rest + p);
      TornTailIsRefused(etas[1..], torn, k, number + 1);
    }
  }

  lemma FirstLine(eta: Nonce, after: Bytes)
    ensures var h := AsciiBytes(HexEncode(eta));
      Lines(RecordLine(eta) + after) == [h] + Lines(after) && ParseLine(h) == Some(eta)
  {
    hide ParseLine, HexEncode, Front, Rest, Lines, LoadLines, RecordLine;
    var h := AsciiBytes(HexEncode(eta));
    LinesAround([], eta, after);
    EmptyFront();
    ParseEndsIn([], eta);
    NothingAhead(h);
    NothingAhead(RecordLine(eta));
    NothingAhead([h] + Lines(after));
  }

  /** `open` on a log with a torn last record. */
  lemma OpenRefusesTornTail(etas: seq<Nonce>, torn: Nonce, k: nat)
    requires 0 < k < 64
    ensures Load(Log(etas) + RecordLine(torn)[..k]) == Err(MalformedLine(|etas| + 1))
  {
    hide LoadLines, Lines, Log, RecordLine;
    TornTailIsRefused(etas, torn, k, 1);
  }
}
