/** Template pieces: a response is written piece by piece, and the byte range of each piece is where it
    landed. Everything about ranges follows from the list of pieces. */
module Pieces {
  import opened Wrappers
  import opened Bytes

  /** A half-open byte range. */
  datatype Range = Range(start: nat, end: nat) {
    predicate Within(n: nat) {
      start <= end <= n
    }

    function Shift(n: nat): Range {
      Range(start + n, end + n)
    }
  }

  predicate Disjoint(a: Range, b: Range) {
    a.end <= b.start || b.end <= a.start
  }

  /** What a piece is for. A value may differ from record to record; nothing else may. */
  datatype Tag =
    | Plain
    | StatusLine
    | ContentTypeLine
    | Key
    | Account
    | PropertyId
    | Owner
    | Field
    | Unreported

  predicate IsValue(t: Tag) {
    t in {Account, PropertyId, Owner, Field, Unreported}
  }

  datatype Piece = Piece(tag: Tag, text: Bytes)

  function Flatten(ps: seq<Piece>): Bytes {
    if ps == [] then [] else ps[0].text + Flatten(ps[1..])
  }

  /** Ranges of the pieces tagged `tag`, in order, when the first piece starts at `at`. */
  function RangesOf(ps: seq<Piece>, tag: Tag, at: nat): seq<Range> {
    if ps == [] then []
    else
      var end := at + |ps[0].text|;
      (if ps[0].tag == tag then [Range(at, end)] else []) + RangesOf(ps[1..], tag, end)
  }

  lemma {:induction false} FlattenConcat(ps: seq<Piece>, qs: seq<Piece>)
    ensures Flatten(ps + qs) == Flatten(ps) + Flatten(qs)
  {
    if ps == [] {
      assert ps + qs == qs;
    } else {
      assert (ps + qs)[1..] == ps[1..] + qs;
      FlattenConcat(ps[1..], qs);
    }
  }

  lemma {:induction false} RangesConcat(ps: seq<Piece>, qs: seq<Piece>, tag: Tag, at: nat)
    ensures RangesOf(ps + qs, tag, at) == RangesOf(ps, tag, at) + RangesOf(qs, tag, at + |Flatten(ps)|)
  {
    if ps == [] {
      assert ps + qs == qs;
    } else {
      assert (ps + qs)[1..] == ps[1..] + qs;
      var end := at + |ps[0].text|;
      RangesConcat(ps[1..], qs, tag, end);
      assert |Flatten(ps)| == |ps[0].text| + |Flatten(ps[1..])|;
      var head := if ps[0].tag == tag then [Range(at, end)] else [];
      assert head + (RangesOf(ps[1..], tag, end) + RangesOf(qs, tag, at + |Flatten(ps)|))
          == head + RangesOf(ps[1..], tag, end) + RangesOf(qs, tag, at + |Flatten(ps)|);
    }
  }

  /** Every range lies where its pieces lie. */
  lemma {:induction false} RangesWithin(ps: seq<Piece>, tag: Tag, at: nat)
    ensures forall r | r in RangesOf(ps, tag, at) :: at <= r.start <= r.end <= at + |Flatten(ps)|
  {
    if ps != [] {
      RangesWithin(ps[1..], tag, at + |ps[0].text|);
    }
  }

  lemma ShiftConcat(a: seq<Range>, b: seq<Range>, n: nat)
    ensures ShiftAll(a + b, n) == ShiftAll(a, n) + ShiftAll(b, n)
  {
  }

  lemma ShiftOne(r: Range, n: nat)
    ensures ShiftAll([r], n) == [r.Shift(n)] && ShiftAll([], n) == []
  {
  }

  lemma {:induction false} RangesShift(ps: seq<Piece>, tag: Tag, at: nat, n: nat)
    ensures RangesOf(ps, tag, at + n) == ShiftAll(RangesOf(ps, tag, at), n)
  {
    hide ShiftAll;
    if ps == [] {
      ShiftOne(Range(0, 0), n);
    } else {
      var end := at + |ps[0].text|;
      var head := if ps[0].tag == tag then [Range(at, end)] else [];
      RangesShift(ps[1..], tag, end, n);
      assert at + n + |ps[0].text| == end + n;
      ShiftOne(Range(at, end), n);
      ShiftConcat(head, RangesOf(ps[1..], tag, end), n);
    }
  }

  /** Pieces of different kinds never overlap. */
  lemma {:induction false} KindsDisjoint(ps: seq<Piece>, s: Tag, t: Tag, at: nat)
    requires s != t
    ensures forall a, b | a in RangesOf(ps, s, at) && b in RangesOf(ps, t, at) :: Disjoint(a, b)
  {
    if ps != [] {
      var end := at + |ps[0].text|;
      KindsDisjoint(ps[1..], s, t, end);
      RangesWithin(ps[1..], s, end);
      RangesWithin(ps[1..], t, end);
    }
  }

  predicate InOrder(rs: seq<Range>) {
    forall i, j | 0 <= i < j < |rs| :: rs[i].end <= rs[j].start
  }

  lemma InOrderCons(r: Range, rest: seq<Range>)
    requires InOrder(rest) && forall q | q in rest :: r.end <= q.start
    ensures InOrder([r] + rest)
  {
  }

  /** Pieces of one kind follow one another. */
  lemma {:induction false} KindInOrder(ps: seq<Piece>, tag: Tag, at: nat)
    ensures InOrder(RangesOf(ps, tag, at))
  {
    if ps != [] {
      var end := at + |ps[0].text|;
      KindInOrder(ps[1..], tag, end);
      RangesWithin(ps[1..], tag, end);
      InOrderCons(Range(at, end), RangesOf(ps[1..], tag, end));
      assert [] + RangesOf(ps[1..], tag, end) == RangesOf(ps[1..], tag, end);
    }
  }

  /** Texts of the pieces tagged `tag`, in order. */
  function TextsOf(ps: seq<Piece>, tag: Tag): seq<Bytes> {
    if ps == [] then []
    else (if ps[0].tag == tag then [ps[0].text] else []) + TextsOf(ps[1..], tag)
  }

  lemma {:induction false} TextsConcat(ps: seq<Piece>, qs: seq<Piece>, tag: Tag)
    ensures TextsOf(ps + qs, tag) == TextsOf(ps, tag) + TextsOf(qs, tag)
  {
    if ps == [] {
      assert ps + qs == qs;
    } else {
      assert (ps + qs)[1..] == ps[1..] + qs;
      TextsConcat(ps[1..], qs, tag);
    }
  }

  lemma {:induction false} NoRanges(ps: seq<Piece>, t: Tag, at: nat)
    requires forall i | 0 <= i < |ps| :: ps[i].tag != t
    ensures RangesOf(ps, t, at) == []
  {
    if ps != [] {
      NoRanges(ps[1..], t, at + |ps[0].text|);
    }
  }

  /** `bytes` at `r` is `text`. */
  predicate Stands(bytes: Bytes, r: Range, text: Bytes) {
    r.Within(|bytes|) && bytes[r.start..r.end] == text
  }

  predicate AllStand(bytes: Bytes, rs: seq<Range>, texts: seq<Bytes>) {
    |rs| == |texts| && forall i | 0 <= i < |rs| :: Stands(bytes, rs[i], texts[i])
  }

  lemma AllStandConcat(bytes: Bytes, rs: seq<Range>, texts: seq<Bytes>, rs': seq<Range>, texts': seq<Bytes>)
    requires AllStand(bytes, rs, texts) && AllStand(bytes, rs', texts')
    ensures AllStand(bytes, rs + rs', texts + texts')
  {
    hide Stands;
  }

  lemma OneStands(before: Bytes, text: Bytes, after: Bytes)
    ensures AllStand(before + text + after, [Range(|before|, |before| + |text|)], [text])
    ensures AllStand(before + text + after, [], [])
  {
    assert (before + text + after)[|before|..|before| + |text|] == text;
  }

  /** Slicing the response at the reported ranges gives the pieces' texts. */
  lemma {:induction false} ReadBack(front: Bytes, ps: seq<Piece>, tag: Tag)
    ensures AllStand(front + Flatten(ps), RangesOf(ps, tag, |front|), TextsOf(ps, tag))
    decreases |ps|
  {
    hide AllStand;
    if ps == [] {
      OneStands(front, [], []);
      Regroup(front, [], []);
    } else {
      var text, end := ps[0].text, |front| + |ps[0].text|;
      var bytes := front + Flatten(ps);
      Regroup(front, text, Flatten(ps[1..]));
      ReadBack(front + text, ps[1..], tag);
      OneStands(front, text, Flatten(ps[1..]));
      AllStandConcat(bytes, if ps[0].tag == tag then [Range(|front|, end)] else [], if ps[0].tag == tag then [text] else [],
        RangesOf(ps[1..], tag, end), TextsOf(ps[1..], tag));
    }
  }

  // ---------- Responses of one shape ----------

  /** Same pieces, except for the texts of values, which keep their lengths. */
  predicate SameShape(ps: seq<Piece>, qs: seq<Piece>) {
    && |ps| == |qs|
    && forall i | 0 <= i < |ps| ::
         && ps[i].tag == qs[i].tag && |ps[i].text| == |qs[i].text|
         && (!IsValue(ps[i].tag) ==> ps[i].text == qs[i].text)
  }

  lemma SameShapeTail(ps: seq<Piece>, qs: seq<Piece>)
    requires SameShape(ps, qs)
    ensures |ps| == |qs|
    ensures ps != [] ==>
      && SameShape(ps[1..], qs[1..])
      && ps[0].tag == qs[0].tag && |ps[0].text| == |qs[0].text| && (!IsValue(ps[0].tag) ==> ps[0].text == qs[0].text)
  {
  }

  lemma {:induction false} SameShapeRanges(ps: seq<Piece>, qs: seq<Piece>, tag: Tag, at: nat)
    requires SameShape(ps, qs)
    ensures RangesOf(ps, tag, at) == RangesOf(qs, tag, at) && |Flatten(ps)| == |Flatten(qs)|
  {
    hide SameShape;
    SameShapeTail(ps, qs);
    if ps != [] {
      SameShapeRanges(ps[1..], qs[1..], tag, at + |ps[0].text|);
    }
  }

  /** Everything that is not a value has the same text in two responses of one shape. */
  lemma {:induction false} SameShapeTexts(ps: seq<Piece>, qs: seq<Piece>, tag: Tag)
    requires SameShape(ps, qs) && !IsValue(tag)
    ensures TextsOf(ps, tag) == TextsOf(qs, tag)
  {
    hide SameShape;
    SameShapeTail(ps, qs);
    if ps != [] {
      SameShapeTexts(ps[1..], qs[1..], tag);
    }
  }

  /** What stands at `r` in two responses of one shape is the same if it is not a value. */
  lemma SameShapeSlices(ps: seq<Piece>, qs: seq<Piece>, tag: Tag, r: Range)
    requires SameShape(ps, qs) && !IsValue(tag) && r in RangesOf(ps, tag, 0)
    ensures r.Within(|Flatten(ps)|) && r.Within(|Flatten(qs)|)
    ensures Flatten(ps)[r.start..r.end] == Flatten(qs)[r.start..r.end]
  {
    hide SameShape, RangesOf, TextsOf, Flatten;
    SameShapeRanges(ps, qs, tag, 0);
    SameShapeTexts(ps, qs, tag);
    ReadBack([], ps, tag);
    ReadBack([], qs, tag);
    assert [] + Flatten(ps) == Flatten(ps) && [] + Flatten(qs) == Flatten(qs);
  }

  /** Byte `i` belongs to a value. */
  predicate InValue(ps: seq<Piece>, i: nat)
    requires i < |Flatten(ps)|
  {
    if i < |ps[0].text| then IsValue(ps[0].tag) else InValue(ps[1..], i - |ps[0].text|)
  }

  /** Outside the values, two responses of one shape have the same bytes. */
  lemma {:induction false} SameShapeBytes(ps: seq<Piece>, qs: seq<Piece>, i: nat)
    requires SameShape(ps, qs) && i < |Flatten(ps)| && !InValue(ps, i)
    ensures i < |Flatten(qs)| && Flatten(ps)[i] == Flatten(qs)[i]
  {
    hide SameShape;
    SameShapeRanges(ps, qs, Plain, 0);
    SameShapeTail(ps, qs);
    if i >= |ps[0].text| {
      SameShapeBytes(ps[1..], qs[1..], i - |ps[0].text|);
    }
  }

  /** Ranges of all values. */
  function ValueRanges(ps: seq<Piece>, at: nat): seq<Range> {
    if ps == [] then []
    else
      var end := at + |ps[0].text|;
      (if IsValue(ps[0].tag) then [Range(at, end)] else []) + ValueRanges(ps[1..], end)
  }

  predicate Covers(r: Range, i: nat) {
    r.start <= i < r.end
  }

  lemma {:induction false} ValueRangesStart(ps: seq<Piece>, at: nat)
    ensures forall r | r in ValueRanges(ps, at) :: at <= r.start
  {
    if ps != [] {
      ValueRangesStart(ps[1..], at + |ps[0].text|);
    }
  }

  lemma FlattenLength(ps: seq<Piece>)
    ensures |Flatten(ps)| == if ps == [] then 0 else |ps[0].text| + |Flatten(ps[1..])|
  {
  }

  predicate Covered(rs: seq<Range>, i: nat) {
    exists k | 0 <= k < |rs| :: Covers(rs[k], i)
  }

  lemma CoveredConcat(a: seq<Range>, b: seq<Range>, i: nat)
    ensures Covered(a + b, i) <==> Covered(a, i) || Covered(b, i)
  {
    var c := a + b;
    if Covered(a, i) {
      var k :| 0 <= k < |a| && Covers(a[k], i);
      assert Covers(c[k], i);
    }
    if Covered(b, i) {
      var k :| 0 <= k < |b| && Covers(b[k], i);
      assert Covers(c[|a| + k], i);
    }
    if Covered(c, i) {
      var k :| 0 <= k < |c| && Covers(c[k], i);
      assert if k < |a| then Covers(a[k], i) else Covers(b[k - |a|], i);
    }
  }

  lemma CoveredOne(r: Range, i: nat)
    ensures Covered([r], i) <==> Covers(r, i)
    ensures !Covered([], i)
  {
    assert Covers([r][0], i) <==> Covers(r, i);
  }

  lemma {:induction false} NotCoveredBefore(ps: seq<Piece>, at: nat, i: nat)
    requires i < at
    ensures !Covered(ValueRanges(ps, at), i)
  {
    hide ValueRanges;
    ValueRangesStart(ps, at);
    var rs := ValueRanges(ps, at);
    assert forall k | 0 <= k < |rs| :: rs[k] in rs;
  }

  lemma ValueRangesStep(ps: seq<Piece>, at: nat)
    requires ps != []
    ensures var end := at + |ps[0].text|;
      ValueRanges(ps, at) == (if IsValue(ps[0].tag) then [Range(at, end)] else []) + ValueRanges(ps[1..], end)
  {
  }

  lemma HeadCovers(r: Range, isValue: bool, i: nat)
    ensures Covered(if isValue then [r] else [], i) <==> isValue && Covers(r, i)
  {
    CoveredOne(r, i);
  }

  /** A byte belongs to a value exactly if a value's range covers it. */
  lemma {:induction false} InValueIff(ps: seq<Piece>, i: nat, at: nat)
    requires i < |Flatten(ps)|
    ensures InValue(ps, i) <==> Covered(ValueRanges(ps, at), at + i)
  {
    hide Covered, Flatten, ValueRanges, IsValue;
    FlattenLength(ps);
    ValueRangesStep(ps, at);
    var end := at + |ps[0].text|;
    CoveredConcat(if IsValue(ps[0].tag) then [Range(at, end)] else [], ValueRanges(ps[1..], end), at + i);
    HeadCovers(Range(at, end), IsValue(ps[0].tag), at + i);
    if at + i < end {
      NotCoveredBefore(ps[1..], end, at + i);
    } else {
      InValueIff(ps[1..], at + i - end, end);
    }
  }

  lemma SameShapeConcat(ps: seq<Piece>, qs: seq<Piece>, ps': seq<Piece>, qs': seq<Piece>)
    requires SameShape(ps, qs) && SameShape(ps', qs')
    ensures SameShape(ps + ps', qs + qs')
  {
  }

  // ---------- Values ----------

  datatype ValueError = NotAscii | QuoteOrBackslash | ControlCharacter | TooLong

  const QUOTE: Byte := 0x22
  const BACKSLASH: Byte := 0x5c

  predicate IsControl(b: Byte) {
    b < 0x20 || b == 0x7f
  }

  /** A value the JSON template can hold. */
  predicate Printable(value: Bytes) {
    forall i | 0 <= i < |value| :: value[i] < 0x80 && value[i] != QUOTE && value[i] != BACKSLASH && !IsControl(value[i])
  }

  /** What can stand between quotes: the characters from the space to the tilde, but no quote or backslash. */
  lemma PrintableChars(s: string)
    requires IsAscii(s)
    ensures Printable(AsciiBytes(s)) <==> forall i | 0 <= i < |s| :: ' ' <= s[i] <= '~' && s[i] != '\"' && s[i] != '\\'
  {
    forall i | 0 <= i < |s|
      ensures AsciiBytes(s)[i] as char == s[i]
    {
    }
  }

  /** A value that a field of this width can hold. */
  predicate Acceptable(value: Bytes, width: nat) {
    Printable(value) && |value| <= width
  }

  predicate HasNonAscii(value: Bytes) {
    exists i | 0 <= i < |value| :: value[i] >= 0x80
  }

  predicate HasQuote(value: Bytes) {
    exists i | 0 <= i < |value| :: value[i] == QUOTE || value[i] == BACKSLASH
  }

  predicate HasControl(value: Bytes) {
    exists i | 0 <= i < |value| :: IsControl(value[i])
  }

  lemma PrintableIff(value: Bytes)
    ensures Printable(value) <==> !HasNonAscii(value) && !HasQuote(value) && !HasControl(value)
  {
    if !HasNonAscii(value) && !HasQuote(value) && !HasControl(value) {
      forall i | 0 <= i < |value|
        ensures value[i] < 0x80 && value[i] != QUOTE && value[i] != BACKSLASH && !IsControl(value[i])
      {
      }
    }
  }

  function Padded(padding: Byte, value: Bytes, width: nat): (r: Bytes)
    requires |value| <= width
    ensures |r| == width && value <= r && forall i | |value| <= i < width :: r[i] == padding
  {
    value + seq(width - |value|, i => padding)
  }

  /** `pad_value`. */
  function PadValue(padding: Byte, value: Bytes, width: nat): (r: Result<Bytes, ValueError>)
    ensures r.Ok? <==> Acceptable(value, width)
    ensures r.Ok? ==> |r.value| == width && value <= r.value && forall i | |value| <= i < width :: r.value[i] == padding
  {
    hide Printable, HasNonAscii, HasQuote, HasControl;
    PrintableIff(value);
    if HasNonAscii(value) then Err(NotAscii)
    else if HasQuote(value) then Err(QuoteOrBackslash)
    else if HasControl(value) then Err(ControlCharacter)
    else if width < |value| then Err(TooLong)
    else Ok(Padded(padding, value, width))
  }
  /** Which values are refused, and for what first. */
  lemma PadErrors(padding: Byte, value: Bytes, width: nat)
    ensures PadValue(padding, value, width) == Err(NotAscii) <==> exists i | 0 <= i < |value| :: value[i] >= 128
    ensures PadValue(padding, value, width) == Err(TooLong) <==> Printable(value) && width < |value|
  {
    PrintableIff(value);
  }

  // ---------- The writer ----------

  /** A quoted value. */
  function Quoted(tag: Tag, value: Bytes): seq<Piece> {
    [Piece(Plain, [QUOTE]), Piece(tag, value), Piece(Plain, [QUOTE])]
  }

  /** The piece of a JSON key, colon included. */
  function KeyPiece(name: Bytes): Piece {
    Piece(Key, [QUOTE] + name + [QUOTE] + Lit(":"))
  }

  function ShiftAll(rs: seq<Range>, n: nat): (r: seq<Range>)
    ensures |r| == |rs|
  {
    seq(|rs|, i requires 0 <= i < |rs| => rs[i].Shift(n))
  }

  /** Ranges of a part of the response that starts `n` bytes in. */
  lemma RangesAt(ps: seq<Piece>, tag: Tag, n: nat)
    ensures RangesOf(ps, tag, n) == ShiftAll(RangesOf(ps, tag, 0), n)
  {
    RangesShift(ps, tag, 0, n);
  }

  /** The bytes written so far, which are the pieces written so far put together. */
  class Writer {
    var bytes: Bytes
    ghost var pieces: seq<Piece>

    ghost predicate Valid()
      reads this
    {
      bytes == Flatten(pieces)
    }

    constructor ()
      ensures Valid() && pieces == []
    {
      bytes := [];
      pieces := [];
    }

    method Literal(s: Bytes, ghost tag: Tag) returns (r: Range)
      requires Valid()
      modifies this
      ensures Valid() && pieces == old(pieces) + [Piece(tag, s)]
      ensures r == Range(|old(bytes)|, |bytes|)
      ensures forall t: Tag :: RangesOf(pieces, t, 0) == RangesOf(old(pieces), t, 0) + (if t == tag then [r] else [])
    {
      var start := |bytes|;
      bytes := bytes + s;
      ghost var before, last := pieces, [Piece(tag, s)];
      pieces := pieces + last;
      r := Range(start, |bytes|);
      assert Flatten(last) == s && last[1..] == [];
      FlattenConcat(before, last);
      forall t: Tag
        ensures RangesOf(pieces, t, 0) == RangesOf(before, t, 0) + (if t == tag then [r] else [])
      {
        RangesConcat(before, last, t, 0);
        assert RangesOf([], t, start + |s|) == [];
      }
    }

    /** Appends a key piece and reports where it landed. */
    method WriteKey(name: Bytes) returns (r: Range)
      requires Valid()
      modifies this
      ensures Valid() && pieces == old(pieces) + [KeyPiece(name)]
      ensures forall t: Tag :: RangesOf(pieces, t, 0) == RangesOf(old(pieces), t, 0) + (if t == Key then [r] else [])
    {
      r := Literal([QUOTE] + name + [QUOTE] + Lit(":"), Key);
    }

    /** Appends a value between quotes; the range reported leaves the quotes out. */
    method WriteString(value: Bytes, ghost tag: Tag) returns (r: Range)
      requires Valid() && tag != Plain
      modifies this
      ensures Valid() && pieces == old(pieces) + Quoted(tag, value)
      ensures forall t: Tag :: t != Plain ==> RangesOf(pieces, t, 0) == RangesOf(old(pieces), t, 0) + (if t == tag then [r] else [])
    {
      var open := Literal([QUOTE], Plain);
      r := Literal(value, tag);
      var close := Literal([QUOTE], Plain);
    }
  }
}
