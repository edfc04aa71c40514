/** The notarised exchange of a title layout. */
module TitleShape {
  import opened Bytes
  import opened Pieces
  import opened Shape
  import opened Layout
  import opened LayoutLaws
  import opened LayoutGeometry

  function Path(l: Layout, propertyId: Bytes): Bytes {
    l.pathPrefix + propertyId
  }

  /** `shape`: the exchange for `propertyId`, with the response of an empty record as its template. */
  ghost function ShapeOf(l: Layout, propertyId: Bytes): ResponseShape
    requires Validate(l).Ok?
  {
    var t := Template(l);
    ResponseShape(l.serverName, Path(l, propertyId), RequestLine(Path(l, propertyId)), t.bytes, t.ranges.len,
      t.ranges.Revealed(), t.ranges.Hidden())
  }

  /** Computes the shape by rendering an empty record, which never fails for a validated layout. */
  method MakeShape(l: Layout, propertyId: Bytes) returns (s: ResponseShape)
    requires Validate(l).Ok?
    ensures s == ShapeOf(l, propertyId)
  {
    hide Render;
    var template := RenderResponse(l, [], BLANK);
    RendersIff(l, [], BLANK);
    var t := template.value;
    s := ResponseShape(l.serverName, Path(l, propertyId), RequestLine(Path(l, propertyId)), t.bytes, t.ranges.len,
      t.ranges.Revealed(), t.ranges.Hidden());
  }

  // ---------- The shape is sound ----------

  lemma FirstIsClear(a: seq<Range>, b: seq<Range>)
    requires Clear(a, b) && a != [] && b != []
    ensures Clear([a[0]], [b[0]]) && Clear([a[0]], b) && Clear(a, [b[0]])
  {
  }

  /** Kinds of single ranges: their first ranges are apart. */
  lemma SinglesApart(ps: seq<Piece>, s: Tag, t: Tag)
    requires s != t && RangesOf(ps, s, 0) != [] && RangesOf(ps, t, 0) != []
    ensures Clear([RangesOf(ps, s, 0)[0]], [RangesOf(ps, t, 0)[0]])
    ensures Clear([RangesOf(ps, s, 0)[0]], RangesOf(ps, t, 0))
    ensures Clear(RangesOf(ps, s, 0), [RangesOf(ps, t, 0)[0]])
  {
    hide RangesOf;
    KindsClear(ps, s, t);
    FirstIsClear(RangesOf(ps, s, 0), RangesOf(ps, t, 0));
  }

  lemma RevealedApart(ps: seq<Piece>)
    requires HasTitleParts(ps) && RangesOf(ps, Key, 0) != []
    ensures Apart(TitleRanges(ps).Revealed())
  {
    hide RangesOf, Flatten, OffsetsFrom, Clear;
    var rs := TitleRanges(ps);
    SinglesApart(ps, StatusLine, ContentTypeLine);
    SinglesApart(ps, StatusLine, Key);
    SinglesApart(ps, ContentTypeLine, Key);
    ClearConcat([rs.statusLine], [rs.contentTypeLine]);
    KindApart(ps, Key);
    ClearSum([rs.statusLine], [rs.contentTypeLine], rs.keys);
    ClearConcat([rs.statusLine] + [rs.contentTypeLine], rs.keys);
    assert [rs.statusLine] + [rs.contentTypeLine] == [rs.statusLine, rs.contentTypeLine];
  }

  lemma OwnersClear(l: Layout, v: Values, t: Tag)
    requires t != Plain && t != Owner && Fits(l, v) && HasTitleParts(ResponsePieces(l, v))
    ensures Clear(RangesOf(ResponsePieces(l, v), t, 0), [TitleRanges(ResponsePieces(l, v)).owners])
  {
    hide ResponsePieces, RangesOf, TitleRanges, HasTitleParts, OwnersAt;
    OwnersOfRanges(l, v);
    OwnersStandAlone(l, v, t);
  }

  /** Every range of kind `t` is clear of the three hidden values. */
  lemma ClearOfHidden(l: Layout, v: Values, t: Tag)
    requires t in {StatusLine, ContentTypeLine, Key} && Fits(l, v) && HasTitleParts(ResponsePieces(l, v))
    ensures Clear(RangesOf(ResponsePieces(l, v), t, 0), TitleRanges(ResponsePieces(l, v)).Hidden())
  {
    hide ResponsePieces, RangesOf, Flatten, OffsetsFrom;
    var ps := ResponsePieces(l, v);
    var rs := TitleRanges(ps);
    KindsClear(ps, t, Account);
    KindsClear(ps, t, PropertyId);
    OwnersClear(l, v, t);
    assert rs.account in RangesOf(ps, Account, 0) && rs.propertyId in RangesOf(ps, PropertyId, 0);
    assert rs.owners in [rs.owners];
  }

  lemma HiddenApart(l: Layout, v: Values)
    requires Fits(l, v) && HasTitleParts(ResponsePieces(l, v))
    ensures Apart(TitleRanges(ResponsePieces(l, v)).Hidden())
  {
    hide ResponsePieces, RangesOf, Flatten, OffsetsFrom;
    var ps := ResponsePieces(l, v);
    var rs := TitleRanges(ps);
    KindsClear(ps, Account, PropertyId);
    OwnersClear(l, v, Account);
    OwnersClear(l, v, PropertyId);
    assert rs.account in RangesOf(ps, Account, 0) && rs.propertyId in RangesOf(ps, PropertyId, 0);
    assert rs.owners in [rs.owners];
  }

  lemma TitleRangesApart(l: Layout, v: Values)
    requires Fits(l, v) && HasTitleParts(ResponsePieces(l, v)) && RangesOf(ResponsePieces(l, v), Key, 0) != []
    ensures var rs := TitleRanges(ResponsePieces(l, v)); Apart(rs.Revealed() + rs.Hidden())
  {
    hide ResponsePieces, RangesOf, Flatten, OffsetsFrom, Apart;
    var ps := ResponsePieces(l, v);
    var rs := TitleRanges(ps);
    RevealedApart(ps);
    HiddenApart(l, v);
    ClearOfHidden(l, v, StatusLine);
    ClearOfHidden(l, v, ContentTypeLine);
    ClearOfHidden(l, v, Key);
    ClearConcat(rs.Revealed(), rs.Hidden());
  }

  lemma TitleRangesWithin(l: Layout, v: Values)
    requires Fits(l, v) && HasTitleParts(ResponsePieces(l, v))
    ensures var (ps, rs) := (ResponsePieces(l, v), TitleRanges(ResponsePieces(l, v)));
      AllWithin(rs.Revealed() + rs.Hidden(), |Flatten(ps)|)
  {
    hide ResponsePieces, RangesOf, Flatten, OffsetsFrom;
    var ps := ResponsePieces(l, v);
    KindWithin(ps, StatusLine);
    KindWithin(ps, ContentTypeLine);
    KindWithin(ps, Key);
    KindWithin(ps, Account);
    KindWithin(ps, PropertyId);
    KindWithin(ps, Owner);
    LastEndsLast(ps, Owner, 0);
  }

  lemma HiddenAreFilled(l: Layout, v: Values)
    requires Validate(l).Ok? && Fits(l, v) && HasTitleParts(ResponsePieces(l, v))
    ensures var rs := TitleRanges(ResponsePieces(l, v)); forall h | h in rs.Hidden() :: h.start < h.end
  {
    hide ResponsePieces, TitleRanges, HasTitleParts, Flatten, Validate, EvenSlots;
    WidthsPositive(l);
    AccountStands(l, v);
    EvenSlotsOf(l, v);
    OwnersFilled(l, TitleRanges(ResponsePieces(l, v)));
  }

  lemma WidthsPositive(l: Layout)
    requires Validate(l).Ok?
    ensures 0 < l.accountWidth && 0 < l.propertyIdWidth
  {
  }

  lemma OwnersFilled(l: Layout, rs: ResponseRanges)
    requires 0 < l.accountWidth && EvenSlots(l, rs)
    ensures rs.owners.start < rs.owners.end
  {
  }

  lemma KeysPresent(l: Layout, v: Values)
    ensures RangesOf(ResponsePieces(l, v), Key, 0) != []
  {
    hide FrontPieces, OwnerPieces, BackPieces, Flatten, RangesOf;
    FrontHasKey(v.account, v.propertyId);
    assert ResponsePieces(l, v)[7] == FrontPieces(v.account, v.propertyId)[1];
    TagPresent(ResponsePieces(l, v), 7, 0);
  }

  lemma FrontHasKey(account: Bytes, propertyId: Bytes)
    ensures |FrontPieces(account, propertyId)| > 1 && FrontPieces(account, propertyId)[1].tag == Key
  {
  }

  /** Revealed and hidden ranges of a title layout are pairwise disjoint, in bounds, and hide something. */
  lemma ShapeIsSound(l: Layout, propertyId: Bytes)
    requires Validate(l).Ok?
    ensures Sound(ShapeOf(l, propertyId))
  {
    hide ResponsePieces, HasTitleParts, Flatten, RangesOf, OffsetsFrom, Apart, AllWithin;
    RendersIff(l, [], BLANK);
    var v := PadAll(l, [], BLANK).value;
    PadAllFits(l, [], BLANK);
    ResponseHasParts(l, v);
    KeysPresent(l, v);
    TitleRangesApart(l, v);
    TitleRangesWithin(l, v);
    HiddenAreFilled(l, v);
    LayoutInvariance(l, [], BLANK);
  }

  /** Every response of the layout shows at the revealed ranges what the template shows. */
  lemma ResponseReveals(l: Layout, propertyId: Bytes, account: Bytes, record: TitleRecord)
    requires Validate(l).Ok? && Render(l, account, record).Ok?
    ensures Reveals(ShapeOf(l, propertyId), Render(l, account, record).value.bytes)
  {
    hide ResponsePieces, Flatten, RangesOf, OffsetsFrom, PadAll, SameShape;
    RendersIff(l, [], BLANK);
    LayoutInvariance(l, account, record);
    LayoutInvariance(l, [], BLANK);
    var v, w := PadAll(l, account, record).value, PadAll(l, [], BLANK).value;
    PadAllFits(l, account, record);
    PadAllFits(l, [], BLANK);
    ResponseShapes(l, v, w);
    var ps, qs := ResponsePieces(l, v), ResponsePieces(l, w);
    ResponseHasParts(l, v);
    var s := ShapeOf(l, propertyId);
    assert s.revealed == TitleRanges(ps).Revealed();
    forall i | 0 <= i < |s.revealed|
      ensures s.revealed[i].Within(s.len)
      ensures Flatten(ps)[s.revealed[i].start..s.revealed[i].end] == Flatten(qs)[s.revealed[i].start..s.revealed[i].end]
    {
      SameShapeSlices(ps, qs, if i == 0 then StatusLine else if i == 1 then ContentTypeLine else Key, s.revealed[i]);
    }
  }
}
