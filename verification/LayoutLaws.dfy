/** What holds of every response of one title layout: when it renders, that its ranges never move, what
    stands at each range, and where the owner slots are. */
module LayoutLaws {
  import opened Wrappers
  import opened Bytes
  import opened Pieces
  import opened Layout

  // ---------- When a record renders ----------

  lemma {:induction false} PadOwnersDefined(l: Layout, record: TitleRecord, n: nat)
    requires Validate(l).Ok?
    ensures PadOwners(l, record, n).Ok? <==>
      forall i | 0 <= i < n && i < |record.owners| :: Acceptable(record.owners[i], l.accountWidth)
  {
    if n > 0 {
      PadOwnersDefined(l, record, n - 1);
    }
  }

  /** A record renders exactly if it has no more owners than slots and every value is printable and fits
      its width. */
  lemma RendersIff(l: Layout, account: Bytes, record: TitleRecord)
    requires Validate(l).Ok?
    ensures Render(l, account, record).Ok? <==>
      && |record.owners| <= l.ownerSlots
      && Acceptable(account, l.accountWidth)
      && Acceptable(record.propertyId, l.propertyIdWidth)
      && (forall i | 0 <= i < |record.owners| :: Acceptable(record.owners[i], l.accountWidth))
      && Acceptable(record.encumbrance, l.encumbranceWidth)
      && Acceptable(record.assessedValue, l.assessedValueWidth)
      && Acceptable(record.recordDate, l.recordDateWidth)
  {
    PadOwnersDefined(l, record, l.ownerSlots);
  }

  const BLANK := TitleRecord([], [], [], [], [])

  /** `template`: the response of an empty record. */
  ghost function Template(l: Layout): Rendered
    requires Validate(l).Ok?
  {
    RendersIff(l, [], BLANK);
    Render(l, [], BLANK).value
  }

  // ---------- Ranges do not move ----------

  lemma QuotedShape(tag: Tag, a: Bytes, b: Bytes)
    requires IsValue(tag) && |a| == |b|
    ensures SameShape(Quoted(tag, a), Quoted(tag, b))
  {
  }

  lemma {:induction false} OwnerPiecesShape(a: seq<Bytes>, b: seq<Bytes>)
    requires |a| == |b| && forall i | 0 <= i < |a| :: |a[i]| == |b[i]|
    ensures SameShape(OwnerPieces(a), OwnerPieces(b))
  {
    if a != [] {
      var n := |a| - 1;
      OwnerPiecesShape(a[..n], b[..n]);
      var comma := if n > 0 then [PlainPiece(",")] else [];
      SameShapeConcat(OwnerPieces(a[..n]), OwnerPieces(b[..n]), comma, comma);
      QuotedShape(Owner, a[n], b[n]);
      SameShapeConcat(OwnerPieces(a[..n]) + comma, OwnerPieces(b[..n]) + comma, Quoted(Owner, a[n]), Quoted(Owner, b[n]));
    }
  }

  lemma FrontShape(a: Bytes, p: Bytes, a': Bytes, p': Bytes)
    requires |a| == |a'| && |p| == |p'|
    ensures SameShape(FrontPieces(a, p), FrontPieces(a', p'))
  {
  }

  lemma BackShape(e: Bytes, v: Bytes, d: Bytes, e': Bytes, v': Bytes, d': Bytes)
    requires |e| == |e'| && |v| == |v'| && |d| == |d'|
    ensures SameShape(BackPieces(e, v, d), BackPieces(e', v', d'))
  {
  }

  /** Two records of one layout give responses of one shape, head included. */
  lemma ResponseShapes(l: Layout, v: Values, w: Values)
    requires Fits(l, v) && Fits(l, w)
    ensures SameShape(ResponsePieces(l, v), ResponsePieces(l, w))
  {
    hide FrontPieces, BackPieces, OwnerPieces, SameShape, Flatten;
    assert forall i | 0 <= i < |v.owners| :: v.owners[i] in v.owners && w.owners[i] in w.owners;
    FrontShape(v.account, v.propertyId, w.account, w.propertyId);
    OwnerPiecesShape(v.owners, w.owners);
    BackShape(v.encumbrance, v.assessedValue, v.recordDate, w.encumbrance, w.assessedValue, w.recordDate);
    SameShapeConcat(FrontPieces(v.account, v.propertyId), FrontPieces(w.account, w.propertyId), OwnerPieces(v.owners), OwnerPieces(w.owners));
    SameShapeConcat(FrontPieces(v.account, v.propertyId) + OwnerPieces(v.owners), FrontPieces(w.account, w.propertyId) + OwnerPieces(w.owners),
      BackPieces(v.encumbrance, v.assessedValue, v.recordDate), BackPieces(w.encumbrance, w.assessedValue, w.recordDate));
    SameShapeRanges(BodyPieces(v), BodyPieces(w), Plain, 0);
    var head := HeadPieces(l.statusLine, l.contentType, |Flatten(BodyPieces(v))|);
    SameShapeReflexive(head);
    SameShapeConcat(head, head, BodyPieces(v), BodyPieces(w));
  }

  lemma SameShapeReflexive(ps: seq<Piece>)
    ensures SameShape(ps, ps)
  {
  }

  lemma TitleRangesOfShape(ps: seq<Piece>, qs: seq<Piece>)
    requires SameShape(ps, qs) && HasTitleParts(ps) && HasTitleParts(qs)
    ensures TitleRanges(ps) == TitleRanges(qs)
  {
    hide SameShape, OffsetsFrom;
    SameShapeRanges(ps, qs, StatusLine, 0);
    SameShapeRanges(ps, qs, ContentTypeLine, 0);
    SameShapeRanges(ps, qs, Key, 0);
    SameShapeRanges(ps, qs, Account, 0);
    SameShapeRanges(ps, qs, PropertyId, 0);
    SameShapeRanges(ps, qs, Owner, 0);
    FirstStartsFirst(ps, Owner);
  }

  /** The pieces of a rendered response. */
  ghost function PiecesOf(l: Layout, account: Bytes, record: TitleRecord): seq<Piece>
    requires Validate(l).Ok? && Render(l, account, record).Ok?
  {
    ResponsePieces(l, PadAll(l, account, record).value)
  }

  /** Layout invariance: every account and record that render give a response of the template's length
      and ranges, equal to the template on every byte outside the values. */
  lemma LayoutInvariance(l: Layout, account: Bytes, record: TitleRecord)
    requires Validate(l).Ok? && Render(l, account, record).Ok?
    ensures var r := Render(l, account, record).value;
      && r.ranges == Template(l).ranges && |r.bytes| == |Template(l).bytes| == r.ranges.len
      && forall i: nat :: i < |r.bytes| && !InValue(PiecesOf(l, account, record), i) ==> r.bytes[i] == Template(l).bytes[i]
  {
    RendersIff(l, [], BLANK);
    var v, w := PadAll(l, account, record).value, PadAll(l, [], BLANK).value;
    PadAllFits(l, account, record);
    PadAllFits(l, [], BLANK);
    var ps, qs := ResponsePieces(l, v), ResponsePieces(l, w);
    ResponseShapes(l, v, w);
    ResponseHasParts(l, v);
    ResponseHasParts(l, w);
    TitleRangesOfShape(ps, qs);
    SameShapeRanges(ps, qs, Plain, 0);
    forall i: nat | i < |Flatten(ps)| && !InValue(ps, i)
      ensures Flatten(ps)[i] == Flatten(qs)[i]
    {
      SameShapeBytes(ps, qs, i);
    }
  }

  // ---------- What stands at each range ----------

  /** The texts of a response, by kind. */
  lemma {:induction false} OwnerTexts(owners: seq<Bytes>)
    ensures TextsOf(OwnerPieces(owners), Owner) == owners
    ensures forall t | t != Owner && t != Plain :: TextsOf(OwnerPieces(owners), t) == []
  {
    if owners != [] {
      var n := |owners| - 1;
      OwnerTexts(owners[..n]);
      var comma := if n > 0 then [PlainPiece(",")] else [];
      var last := comma + Quoted(Owner, owners[n]);
      assert OwnerPieces(owners) == OwnerPieces(owners[..n]) + last;
      forall t | t != Plain
        ensures TextsOf(last, t) == if t == Owner then [owners[n]] else []
      {
        TextsConcat(comma, Quoted(Owner, owners[n]), t);
        QuotedTexts(Owner, owners[n], t);
        assert TextsOf(comma, t) == [] by { if n > 0 { assert comma[1..] == []; } }
      }
      forall t | t != Plain
        ensures TextsOf(OwnerPieces(owners), t) == TextsOf(OwnerPieces(owners[..n]), t) + TextsOf(last, t)
      {
        TextsConcat(OwnerPieces(owners[..n]), last, t);
      }
      assert owners == owners[..n] + [owners[n]];
    }
  }

  lemma {:induction false} NoTexts(ps: seq<Piece>, t: Tag)
    requires forall i | 0 <= i < |ps| :: ps[i].tag != t
    ensures TextsOf(ps, t) == []
  {
    if ps != [] {
      NoTexts(ps[1..], t);
    }
  }

  lemma OneText(p: Piece, t: Tag)
    ensures TextsOf([p], t) == if p.tag == t then [p.text] else []
  {
    assert [p][1..] == [];
  }

  lemma QuotedTexts(tag: Tag, value: Bytes, t: Tag)
    requires t != Plain
    ensures TextsOf(Quoted(tag, value), t) == if t == tag then [value] else []
  {
    hide TextsOf;
    var quote, middle := Piece(Plain, [QUOTE]), Piece(tag, value);
    OneText(quote, t);
    OneText(middle, t);
    TextsConcat([quote], [middle], t);
    TextsConcat([quote] + [middle], [quote], t);
    assert Quoted(tag, value) == [quote] + [middle] + [quote];
  }

  lemma FrontTexts(account: Bytes, propertyId: Bytes, t: Tag)
    requires t in {Account, PropertyId, Owner}
    ensures TextsOf(FrontPieces(account, propertyId), t) ==
      if t == Account then [account] else if t == PropertyId then [propertyId] else []
  {
    var a := [PlainPiece("{"), KeyPiece(Lit(KEY_ACCOUNT))];
    var b := [PlainPiece(","), KeyPiece(Lit(KEY_RECORD)), PlainPiece("{"), KeyPiece(Lit(KEY_PROPERTY_ID))];
    var c := [PlainPiece(","), KeyPiece(Lit(KEY_OWNERS)), PlainPiece("[")];
    hide TextsOf, Lit, Quoted;
    NoTexts(a, t);
    NoTexts(b, t);
    NoTexts(c, t);
    QuotedTexts(Account, account, t);
    QuotedTexts(PropertyId, propertyId, t);
    TextsConcat(a, Quoted(Account, account), t);
    TextsConcat(a + Quoted(Account, account), b, t);
    TextsConcat(a + Quoted(Account, account) + b, Quoted(PropertyId, propertyId), t);
    TextsConcat(a + Quoted(Account, account) + b + Quoted(PropertyId, propertyId), c, t);
  }

  lemma BackTexts(e: Bytes, a: Bytes, d: Bytes, t: Tag)
    requires t in {Account, PropertyId, Owner}
    ensures TextsOf(BackPieces(e, a, d), t) == []
  {
    hide TextsOf, Lit;
    NoTexts(BackPieces(e, a, d), t);
  }

  lemma HeadTexts(statusLine: Bytes, contentType: Bytes, n: nat, t: Tag)
    requires IsValue(t)
    ensures TextsOf(HeadPieces(statusLine, contentType, n), t) == []
  {
    NoTexts(HeadPieces(statusLine, contentType, n), t);
  }

  /** The values of a response, in the order they stand. */
  lemma ResponseTexts(l: Layout, v: Values, t: Tag)
    requires t in {Account, PropertyId, Owner}
    ensures TextsOf(ResponsePieces(l, v), t) ==
      if t == Account then [v.account] else if t == PropertyId then [v.propertyId] else v.owners
  {
    hide TextsOf, FrontPieces, OwnerPieces, BackPieces, HeadPieces, Flatten;
    var front, owners := FrontPieces(v.account, v.propertyId), OwnerPieces(v.owners);
    var back := BackPieces(v.encumbrance, v.assessedValue, v.recordDate);
    FrontTexts(v.account, v.propertyId, t);
    OwnerTexts(v.owners);
    BackTexts(v.encumbrance, v.assessedValue, v.recordDate, t);
    HeadTexts(l.statusLine, l.contentType, |Flatten(BodyPieces(v))|, t);
    TextsConcat(front, owners, t);
    TextsConcat(front + owners, back, t);
    TextsConcat(HeadPieces(l.statusLine, l.contentType, |Flatten(BodyPieces(v))|), BodyPieces(v), t);
  }

  /** Owner slot `k`, as reported: relative to the owners' range. */
  function SlotRange(l: Layout, rs: ResponseRanges, k: nat): Range
    requires k < |rs.ownerSlotOffsets|
  {
    var start := rs.owners.start + rs.ownerSlotOffsets[k];
    Range(start, start + l.accountWidth)
  }

  lemma LastEndsLast(ps: seq<Piece>, tag: Tag, k: nat)
    requires k < |RangesOf(ps, tag, 0)|
    ensures var rs := RangesOf(ps, tag, 0); rs[k].end <= rs[|rs| - 1].end
  {
    hide RangesOf, Flatten;
    KindInOrder(ps, tag, 0);
    RangesWithin(ps, tag, 0);
    var rs := RangesOf(ps, tag, 0);
    assert rs[|rs| - 1] in rs;
  }

  lemma SlotIsOwnerRange(l: Layout, ps: seq<Piece>, k: nat)
    requires HasTitleParts(ps) && k < |RangesOf(ps, Owner, 0)|
    requires RangesOf(ps, Owner, 0)[k].start + l.accountWidth == RangesOf(ps, Owner, 0)[k].end
    ensures var (slots, rs) := (RangesOf(ps, Owner, 0), TitleRanges(ps));
      k < |rs.ownerSlotOffsets| && SlotRange(l, rs, k) == slots[k] && slots[k].end <= rs.owners.end
  {
    hide RangesOf, Flatten, OffsetsFrom, HasTitleParts;
    LastEndsLast(ps, Owner, k);
    FirstStartsFirst(ps, Owner);
  }

  lemma OwnersStand(l: Layout, v: Values, k: nat)
    requires Fits(l, v) && k < l.ownerSlots && HasTitleParts(ResponsePieces(l, v))
    ensures var (bytes, rs) := (Flatten(ResponsePieces(l, v)), TitleRanges(ResponsePieces(l, v)));
      k < |rs.ownerSlotOffsets| && Stands(bytes, SlotRange(l, rs, k), v.owners[k]) && SlotRange(l, rs, k).end <= rs.owners.end
  {
    hide ResponsePieces, RangesOf, TextsOf, Flatten, TitleRanges, HasTitleParts;
    var ps := ResponsePieces(l, v);
    ResponseTexts(l, v, Owner);
    ReadBack([], ps, Owner);
    assert [] + Flatten(ps) == Flatten(ps);
    assert v.owners[k] in v.owners;
    SlotIsOwnerRange(l, ps, k);
  }

  lemma OffsetsCount(l: Layout, v: Values)
    requires HasTitleParts(ResponsePieces(l, v))
    ensures |TitleRanges(ResponsePieces(l, v)).ownerSlotOffsets| == |v.owners|
  {
    hide ResponsePieces, RangesOf, TextsOf, Flatten;
    var ps := ResponsePieces(l, v);
    ResponseTexts(l, v, Owner);
    ReadBack([], ps, Owner);
    FirstStartsFirst(ps, Owner);
  }

  lemma AccountStands(l: Layout, v: Values)
    requires HasTitleParts(ResponsePieces(l, v))
    ensures var (bytes, rs) := (Flatten(ResponsePieces(l, v)), TitleRanges(ResponsePieces(l, v)));
      Stands(bytes, rs.account, v.account) && Stands(bytes, rs.propertyId, v.propertyId)
  {
    hide ResponsePieces, RangesOf, TextsOf, Flatten, OffsetsFrom;
    var ps := ResponsePieces(l, v);
    ResponseTexts(l, v, Account);
    ResponseTexts(l, v, PropertyId);
    ReadBack([], ps, Account);
    ReadBack([], ps, PropertyId);
    assert [] + Flatten(ps) == Flatten(ps);
    FirstStartsFirst(ps, Owner);
  }

  /** `bytes` at `r` is `value`, padded to `width`. */
  predicate StandsPadded(l: Layout, bytes: Bytes, r: Range, value: Bytes, width: nat)
    requires Validate(l).Ok?
  {
    r.Within(|bytes|) && PadValue(l.padding[0], value, width) == Ok(bytes[r.start..r.end])
  }

  /** Read-back: slicing a response at the template's ranges gives the padded values, slot by slot. */
  lemma ResponseReadsBack(l: Layout, account: Bytes, record: TitleRecord)
    requires Validate(l).Ok? && Render(l, account, record).Ok?
    ensures var (bytes, rs) := (Render(l, account, record).value.bytes, Template(l).ranges);
      && StandsPadded(l, bytes, rs.account, account, l.accountWidth)
      && StandsPadded(l, bytes, rs.propertyId, record.propertyId, l.propertyIdWidth)
      && |rs.ownerSlotOffsets| == l.ownerSlots
      && forall k | 0 <= k < l.ownerSlots ::
           StandsPadded(l, bytes, SlotRange(l, rs, k), OwnerAt(record, k), l.accountWidth)
  {
    hide ResponsePieces, TitleRanges, Flatten, HasTitleParts, PadValue;
    var v := PadAll(l, account, record).value;
    LayoutInvariance(l, account, record);
    PadAllFits(l, account, record);
    ResponseHasParts(l, v);
    OffsetsCount(l, v);
    AccountStands(l, v);
    forall k | 0 <= k < l.ownerSlots
      ensures PadValue(l.padding[0], OwnerAt(record, k), l.accountWidth) == Ok(v.owners[k])
      ensures Stands(Flatten(ResponsePieces(l, v)), SlotRange(l, TitleRanges(ResponsePieces(l, v)), k), v.owners[k])
    {
      OwnersStand(l, v, k);
      PadOwnersAt(l, record, l.ownerSlots, k);
    }
  }

  lemma PadIs(l: Layout, value: Bytes, width: nat)
    requires Validate(l).Ok? && Pad(l, value, width).Ok?
    ensures PadValue(l.padding[0], value, width) == Ok(Pad(l, value, width).value)
  {
    hide PadValue;
  }

  lemma {:induction false} PadOwnersAt(l: Layout, record: TitleRecord, n: nat, k: nat)
    requires Validate(l).Ok? && PadOwners(l, record, n).Ok? && k < n
    ensures |PadOwners(l, record, n).value| == n
    ensures PadValue(l.padding[0], OwnerAt(record, k), l.accountWidth) == Ok(PadOwners(l, record, n).value[k])
  {
    hide PadValue, Pad, OwnerAt, Validate;
    PadOwnersFits(l, record, n - 1);
    if k < n - 1 {
      PadOwnersAt(l, record, n - 1, k);
    } else {
      PadIs(l, OwnerAt(record, k), l.accountWidth);
    }
  }
}
