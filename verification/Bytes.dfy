/** Bytes, ASCII and UTF-8. */
module Bytes {
  import opened Wrappers

  newtype Byte = x: int | 0 <= x < 256

  type Bytes = seq<Byte>

  /** A 32-byte word: a hash, a nonce, an identifier. */
  type Word = b: Bytes | |b| == 32 witness seq(32, i => 0)

  predicate IsAscii(s: string) {
    forall i | 0 <= i < |s| :: s[i] < 128 as char
  }

  function AsciiBytes(s: string): (b: Bytes)
    requires IsAscii(s)
    ensures |b| == |s|
  {
    seq(|s|, i requires 0 <= i < |s| => s[i] as Byte)
  }

  /** Bytes of an ASCII literal. */
  function Lit(s: string): (b: Bytes)
    ensures |b| == |s|
  {
    seq(|s|, i requires 0 <= i < |s| => (s[i] as int % 128) as Byte)
  }

  predicate IsContinuation(b: Byte) {
    0x80 <= b <= 0xbf
  }

  /** Length of the UTF-8 sequence at the start of `b`; 0 if it is not well formed. */
  function ScalarLength(b: Bytes): (n: nat)
    ensures n <= |b|
  {
    if b == [] then 0
    else if b[0] <= 0x7f then 1
    else if 0xc2 <= b[0] <= 0xdf then
      if 2 <= |b| && IsContinuation(b[1]) then 2 else 0
    else if 0xe0 <= b[0] <= 0xef then
      var lo: Byte := if b[0] == 0xe0 then 0xa0 else 0x80;
      var hi: Byte := if b[0] == 0xed then 0x9f else 0xbf;
      if 3 <= |b| && lo <= b[1] <= hi && IsContinuation(b[2]) then 3 else 0
    else if 0xf0 <= b[0] <= 0xf4 then
      var lo: Byte := if b[0] == 0xf0 then 0x90 else 0x80;
      var hi: Byte := if b[0] == 0xf4 then 0x8f else 0xbf;
      if 4 <= |b| && lo <= b[1] <= hi && IsContinuation(b[2]) && IsContinuation(b[3]) then 4 else 0
    else 0
  }

  function Low6(b: Byte): int {
    b as int - 0x80
  }

  /** The character of the UTF-8 sequence at the start of `b`. */
  function FirstScalar(b: Bytes): char
    requires 0 < ScalarLength(b)
  {
    match ScalarLength(b)
    case 1 => b[0] as char
    case 2 => ((b[0] as int - 0xc0) * 0x40 + Low6(b[1])) as char
    case 3 => ((b[0] as int - 0xe0) * 0x1000 + Low6(b[1]) * 0x40 + Low6(b[2])) as char
    case _ => ((b[0] as int - 0xf0) * 0x40000 + Low6(b[1]) * 0x1000 + Low6(b[2]) * 0x40 + Low6(b[3])) as char
  }

  /** `str::from_utf8`. */
  function Decode(b: Bytes): Option<string> {
    if b == [] then Some("")
    else
      var n := ScalarLength(b);
      if n == 0 then None
      else
        var rest :- Decode(b[n..]);
        Some([FirstScalar(b)] + rest)
  }

  /** ASCII text never completes a sequence begun before it. */
  lemma LengthBeforeAscii(p: Bytes, a: string)
    requires IsAscii(a) && p != []
    ensures ScalarLength(p + AsciiBytes(a)) == ScalarLength(p)
    ensures 0 < ScalarLength(p) ==> FirstScalar(p + AsciiBytes(a)) == FirstScalar(p)
  {
    var t := p + AsciiBytes(a);
    forall i | |p| <= i < |t|
      ensures t[i] < 0x80
    {
      assert a[i - |p|] < 128 as char;
    }
  }

  lemma {:induction false} DecodeAscii(a: string)
    requires IsAscii(a)
    ensures Decode(AsciiBytes(a)) == Some(a)
  {
    if a != "" {
      var b := AsciiBytes(a);
      assert b[1..] == AsciiBytes(a[1..]);
      DecodeAscii(a[1..]);
      assert a == [a[0]] + a[1..];
    }
  }

  /** Bytes followed by ASCII text decode as their parts, or not at all. */
  lemma {:induction false} DecodeThenAscii(p: Bytes, a: string)
    requires IsAscii(a)
    ensures Decode(p + AsciiBytes(a)) == match Decode(p) case Some(t) => Some(t + a) case None => None
    decreases |p|
  {
    if p == [] {
      assert p + AsciiBytes(a) == AsciiBytes(a);
      assert "" + a == a;
      DecodeAscii(a);
    } else {
      var n := ScalarLength(p);
      LengthBeforeAscii(p, a);
      if 0 < n {
        assert (p + AsciiBytes(a))[n..] == p[n..] + AsciiBytes(a);
        DecodeThenAscii(p[n..], a);
        if Decode(p[n..]).Some? {
          var t := Decode(p[n..]).value;
          assert [FirstScalar(p)] + (t + a) == [FirstScalar(p)] + t + a;
        }
      }
    }
  }

  lemma Regroup<T>(a: seq<T>, b: seq<T>, c: seq<T>)
    ensures a + b + c == a + (b + c)
  {
  }

  // ---------- UTF-8, section 3 of RFC 3629 ----------

  /** The bytes of one character. */
  function Utf8(c: char): (b: Bytes)
    ensures 1 <= |b| <= 4
  {
    var v := c as int;
    if v < 0x80 then [v as Byte]
    else if v < 0x800 then [(0xc0 + v / 0x40) as Byte, Tail(v)]
    else if v < 0x10000 then [(0xe0 + v / 0x1000) as Byte, Tail(v / 0x40), Tail(v)]
    else [(0xf0 + v / 0x40000) as Byte, Tail(v / 0x1000), Tail(v / 0x40), Tail(v)]
  }

  function Tail(v: nat): Byte {
    (0x80 + v % 0x40) as Byte
  }

  function Encode(s: string): Bytes {
    if s == "" then [] else Utf8(s[0]) + Encode(s[1..])
  }

  lemma TwoDigits(v: nat)
    ensures v / 0x40 * 0x40 + v % 0x40 == v
  {
  }

  lemma HigherDigits(v: nat)
    ensures v / 0x1000 == v / 0x40 / 0x40 && v / 0x40000 == v / 0x1000 / 0x40
  {
  }

  lemma LengthOfUtf8(c: char, more: Bytes)
    ensures ScalarLength(Utf8(c) + more) == |Utf8(c)|
  {
    HigherDigits(c as int);
  }

  lemma ScalarOfUtf8(c: char, more: Bytes)
    ensures ScalarLength(Utf8(c) + more) == |Utf8(c)| && FirstScalar(Utf8(c) + more) == c
  {
    hide ScalarLength;
    LengthOfUtf8(c, more);
    var v := c as int;
    TwoDigits(v);
    TwoDigits(v / 0x40);
    TwoDigits(v / 0x1000);
    HigherDigits(v);
  }

  lemma LastDigit(q: nat, r: nat)
    requires r < 0x40
    ensures (q * 0x40 + r) / 0x40 == q && (q * 0x40 + r) % 0x40 == r
  {
  }

  lemma Utf8OfScalar(b: Bytes)
    requires 0 < ScalarLength(b)
    ensures Utf8(FirstScalar(b)) == b[..ScalarLength(b)]
  {
    hide Utf8;
    match ScalarLength(b)
    case 1 => Utf8OfOne(b[0] as int);
    case 2 => Utf8OfTwo(b[0] as int - 0xc0, Low6(b[1]));
    case 3 => Utf8OfThree(b[0] as int - 0xe0, Low6(b[1]), Low6(b[2]));
    case _ => Utf8OfFour(b[0] as int - 0xf0, Low6(b[1]), Low6(b[2]), Low6(b[3]));
  }

  predicate IsScalar(v: int) {
    0 <= v < 0xd800 || 0xe000 <= v < 0x110000
  }

  lemma Utf8OfOne(v: int)
    requires 0 <= v < 0x80
    ensures Utf8(v as char) == [v as Byte]
  {
  }

  lemma Utf8OfTwo(q: int, r: int)
    requires 2 <= q < 0x20 && 0 <= r < 0x40
    ensures Utf8((q * 0x40 + r) as char) == [(0xc0 + q) as Byte, (0x80 + r) as Byte]
  {
    LastDigit(q, r);
  }

  lemma Utf8OfThree(p: int, q: int, r: int)
    requires 0 <= p < 0x10 && 0 <= q < 0x40 && 0 <= r < 0x40
    requires 0x800 <= p * 0x1000 + q * 0x40 + r && IsScalar(p * 0x1000 + q * 0x40 + r)
    ensures Utf8((p * 0x1000 + q * 0x40 + r) as char) == [(0xe0 + p) as Byte, (0x80 + q) as Byte, (0x80 + r) as Byte]
  {
    LastDigit(p * 0x40 + q, r);
    LastDigit(p, q);
    HigherDigits(p * 0x1000 + q * 0x40 + r);
  }

  lemma Utf8OfFour(o: int, p: int, q: int, r: int)
    requires 0 <= o < 5 && 0 <= p < 0x40 && 0 <= q < 0x40 && 0 <= r < 0x40
    requires 0x10000 <= o * 0x40000 + p * 0x1000 + q * 0x40 + r < 0x110000
    ensures Utf8((o * 0x40000 + p * 0x1000 + q * 0x40 + r) as char)
      == [(0xf0 + o) as Byte, (0x80 + p) as Byte, (0x80 + q) as Byte, (0x80 + r) as Byte]
  {
    LastDigit(o * 0x1000 + p * 0x40 + q, r);
    LastDigit(o * 0x40 + p, q);
    LastDigit(o, p);
    HigherDigits(o * 0x40000 + p * 0x1000 + q * 0x40 + r);
  }

  /** Encoding and decoding again gives the text back, ... */
  lemma {:induction false} EncodeThenDecode(s: string)
    ensures Decode(Encode(s)) == Some(s)
  {
    hide ScalarLength, FirstScalar, Utf8;
    if s != "" {
      var rest := Encode(s[1..]);
      ScalarOfUtf8(s[0], rest);
      assert Encode(s)[|Utf8(s[0])|..] == rest;
      EncodeThenDecode(s[1..]);
      assert s == [s[0]] + s[1..];
    }
  }

  /** ... and bytes that decode are the encoding of what they decode to. */
  lemma {:induction false} DecodeThenEncode(b: Bytes)
    requires Decode(b).Some?
    ensures Encode(Decode(b).value) == b
  {
    hide ScalarLength, FirstScalar, Utf8;
    if b != [] {
      var n := ScalarLength(b);
      Utf8OfScalar(b);
      DecodeThenEncode(b[n..]);
      var t := Decode(b).value;
      assert t[0] == FirstScalar(b) && t[1..] == Decode(b[n..]).value;
      assert b == b[..n] + b[n..];
    }
  }
}
