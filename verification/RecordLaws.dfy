/** What holds of every response of one record layout, and its notarised exchange. */
module RecordLaws {
  import opened Wrappers
  import opened Bytes
  import opened Field
  import opened Pieces
  import opened Shape
  import opened RecordLayout
  import L = Layout
  import LayoutLaws

  // ---------- When a record renders ----------

  lemma {:induction false} PadFieldsDefined(l: RecordLayout, values: seq<Bytes>, n: nat)
    requires IsValid(l) && n <= |values| == |l.fields|
    ensures PadFields(l, values, n).Ok? <==> forall i | 0 <= i < n :: Acceptable(values[i], l.fields[i].width)
  {
    hide IsValid;
    if n > 0 {
      PadFieldsDefined(l, values, n - 1);
    }
  }

  /** A record renders exactly if it has one value per field, each printable and within its width. */
  lemma RendersIff(l: RecordLayout, account: Bytes, values: seq<Bytes>)
    requires IsValid(l)
    ensures Render(l, account, values).Ok? <==>
      && |values| == |l.fields|
      && Acceptable(account, l.accountWidth)
      && forall i | 0 <= i < |values| :: Acceptable(values[i], l.fields[i].width)
  {
    hide IsValid, PadFields;
    if |values| == |l.fields| {
      PadFieldsDefined(l, values, |values|);
    }
  }

  function Blanks(l: RecordLayout): (r: seq<Bytes>)
    ensures |r| == |l.fields| && forall i | 0 <= i < |r| :: r[i] == []
  {
    seq(|l.fields|, i => [])
  }

  /** `template`: the response of an empty record. */
  ghost function Template(l: RecordLayout): Rendered
    requires IsValid(l)
  {
    RendersIff(l, [], Blanks(l));
    Render(l, [], Blanks(l)).value
  }

  // ---------- Ranges do not move ----------

  lemma {:induction false} FieldPiecesShape(fields: seq<RecordField>, a: seq<Bytes>, b: seq<Bytes>)
    requires |a| == |b| <= |fields| && forall i | 0 <= i < |a| :: |a[i]| == |b[i]|
    ensures SameShape(FieldPieces(fields, a), FieldPieces(fields, b))
  {
    if a != [] {
      hide SameShape, KeyPiece, Quoted;
      var n := |a| - 1;
      FieldPiecesShape(fields, a[..n], b[..n]);
      var comma := if n > 0 then [L.PlainPiece(",")] else [];
      var between := comma + [KeyPiece(fields[n].key)];
      var x, y := FieldPieces(fields, a[..n]), FieldPieces(fields, b[..n]);
      LayoutLaws.SameShapeReflexive(between);
      SameShapeConcat(x, y, between, between);
      LayoutLaws.QuotedShape(Tag.Field, a[n], b[n]);
      SameShapeConcat(x + between, y + between, Quoted(Tag.Field, a[n]), Quoted(Tag.Field, b[n]));
      assert x + between == x + comma + [KeyPiece(fields[n].key)];
      assert y + between == y + comma + [KeyPiece(fields[n].key)];
    }
  }

  lemma FrontShape(a: Bytes, b: Bytes)
    requires |a| == |b|
    ensures SameShape(FrontPieces(a), FrontPieces(b))
  {
  }

  /** Two records of one layout give responses of one shape, head included. */
  lemma ResponseShapes(l: RecordLayout, v: Values, w: Values)
    requires Fits(l, v) && Fits(l, w)
    ensures SameShape(ResponsePieces(l, v), ResponsePieces(l, w))
  {
    hide FrontPieces, FieldPieces, SameShape, Flatten;
    FrontShape(v.account, w.account);
    FieldPiecesShape(l.fields, v.fields, w.fields);
    var end := [L.PlainPiece("}}")];
    LayoutLaws.SameShapeReflexive(end);
    SameShapeConcat(FrontPieces(v.account), FrontPieces(w.account), FieldPieces(l.fields, v.fields), FieldPieces(l.fields, w.fields));
    SameShapeConcat(FrontPieces(v.account) + FieldPieces(l.fields, v.fields), FrontPieces(w.account) + FieldPieces(l.fields, w.fields), end, end);
    SameShapeRanges(BodyPieces(l, v), BodyPieces(l, w), Plain, 0);
    var head := L.HeadPieces(l.statusLine, l.contentType, |Flatten(BodyPieces(l, v))|);
    LayoutLaws.SameShapeReflexive(head);
    SameShapeConcat(head, head, BodyPieces(l, v), BodyPieces(l, w));
  }

  lemma RangesOfShape(ps: seq<Piece>, qs: seq<Piece>)
    requires SameShape(ps, qs) && HasParts(ps) && HasParts(qs)
    ensures RangesIn(ps) == RangesIn(qs)
  {
    hide SameShape;
    SameShapeRanges(ps, qs, StatusLine, 0);
    SameShapeRanges(ps, qs, ContentTypeLine, 0);
    SameShapeRanges(ps, qs, Key, 0);
    SameShapeRanges(ps, qs, Account, 0);
    SameShapeRanges(ps, qs, Tag.Field, 0);
  }

  /** The pieces of a rendered response. */
  ghost function PiecesOf(l: RecordLayout, account: Bytes, values: seq<Bytes>): seq<Piece>
    requires IsValid(l) && Render(l, account, values).Ok?
  {
    PadAllFits(l, account, values);
    ResponsePieces(l, PadAll(l, account, values).value)
  }

  lemma WithTemplate(l: RecordLayout, account: Bytes, values: seq<Bytes>) returns (ps: seq<Piece>, qs: seq<Piece>)
    requires IsValid(l) && Render(l, account, values).Ok?
    ensures SameShape(ps, qs) && HasParts(ps) && HasParts(qs) && ps == PiecesOf(l, account, values)
    ensures Render(l, account, values).value == Rendered(Flatten(ps), RangesIn(ps))
    ensures Template(l) == Rendered(Flatten(qs), RangesIn(qs))
  {
    hide SameShape, Flatten, RangesIn, HasParts, ResponsePieces, PadAll, Fits;
    RendersIff(l, [], Blanks(l));
    var v, w := PadAll(l, account, values).value, PadAll(l, [], Blanks(l)).value;
    PadAllFits(l, account, values);
    PadAllFits(l, [], Blanks(l));
    FitsLength(l, v);
    FitsLength(l, w);
    ResponseShapes(l, v, w);
    ResponseHasParts(l, v);
    ResponseHasParts(l, w);
    ps, qs := ResponsePieces(l, v), ResponsePieces(l, w);
  }

  lemma FitsLength(l: RecordLayout, v: Values)
    requires Fits(l, v)
    ensures |v.fields| == |l.fields|
  {
  }

  /** Layout invariance: every record that renders gives a response of the template's length and ranges,
      equal to the template on every byte outside the values. */
  lemma LayoutInvariance(l: RecordLayout, account: Bytes, values: seq<Bytes>)
    requires IsValid(l) && Render(l, account, values).Ok?
    ensures var r := Render(l, account, values).value;
      && r.ranges == Template(l).ranges && |r.bytes| == |Template(l).bytes| == r.ranges.len
      && forall i: nat :: i < |r.bytes| && !InValue(PiecesOf(l, account, values), i) ==> r.bytes[i] == Template(l).bytes[i]
  {
    hide SameShape, Flatten, RangesOf, Render, Template, InValue;
    var ps, qs := WithTemplate(l, account, values);
    RangesOfShape(ps, qs);
    SameShapeRanges(ps, qs, Plain, 0);
    forall i: nat | i < |Flatten(ps)| && !InValue(ps, i)
      ensures Flatten(ps)[i] == Flatten(qs)[i]
    {
      SameShapeBytes(ps, qs, i);
    }
  }

  // ---------- What stands at each range ----------

  lemma LastFieldTexts(fields: seq<RecordField>, values: seq<Bytes>, t: Tag)
    requires 0 < |values| <= |fields| && t in {Tag.Field, Account}
    ensures TextsOf(FieldPieces(fields, values), t)
      == TextsOf(FieldPieces(fields, values[..|values| - 1]), t) + (if t == Tag.Field then [values[|values| - 1]] else [])
  {
    hide KeyPiece, Quoted, L.PlainPiece, TextsOf;
    var n := |values| - 1;
    var before, comma := FieldPieces(fields, values[..n]), if n > 0 then [L.PlainPiece(",")] else [];
    var between := comma + [KeyPiece(fields[n].key)];
    SeparatorTexts(n > 0, fields[n].key);
    LayoutLaws.QuotedTexts(Tag.Field, values[n], t);
    TextsConcat(before, between, t);
    TextsConcat(before + between, Quoted(Tag.Field, values[n]), t);
    assert FieldPieces(fields, values) == before + between + Quoted(Tag.Field, values[n]);
  }

  lemma {:induction false} FieldTexts(fields: seq<RecordField>, values: seq<Bytes>, t: Tag)
    requires |values| <= |fields| && t in {Tag.Field, Account}
    ensures TextsOf(FieldPieces(fields, values), t) == if t == Tag.Field then values else []
  {
    if values != [] {
      hide FieldPieces, TextsOf;
      var n := |values| - 1;
      FieldTexts(fields, values[..n], t);
      LastFieldTexts(fields, values, t);
      assert values == values[..n] + [values[n]];
    }
  }

  lemma SeparatorTexts(comma: bool, key: Bytes)
    ensures var ps := (if comma then [L.PlainPiece(",")] else []) + [KeyPiece(key)];
      TextsOf(ps, Tag.Field) == [] && TextsOf(ps, Account) == []
  {
    var ps := (if comma then [L.PlainPiece(",")] else []) + [KeyPiece(key)];
    LayoutLaws.NoTexts(ps, Tag.Field);
    LayoutLaws.NoTexts(ps, Account);
  }

  lemma FrontTexts(account: Bytes)
    ensures TextsOf(FrontPieces(account), Tag.Field) == [] && TextsOf(FrontPieces(account), Account) == [account]
  {
    hide TextsOf, Lit, Quoted;
    var a := [L.PlainPiece("{"), KeyPiece(Lit(L.KEY_ACCOUNT))];
    var b := [L.PlainPiece(","), KeyPiece(Lit(L.KEY_RECORD)), L.PlainPiece("{")];
    forall t | t in {Tag.Field, Account}
      ensures TextsOf(FrontPieces(account), t) == if t == Account then [account] else []
    {
      LayoutLaws.NoTexts(a, t);
      LayoutLaws.NoTexts(b, t);
      LayoutLaws.QuotedTexts(Account, account, t);
      TextsConcat(a, Quoted(Account, account), t);
      TextsConcat(a + Quoted(Account, account), b, t);
    }
  }

  /** The values of a response, in the order they stand. */
  lemma ResponseTexts(l: RecordLayout, v: Values, t: Tag)
    requires |v.fields| <= |l.fields| && t in {Tag.Field, Account}
    ensures TextsOf(ResponsePieces(l, v), t) == if t == Account then [v.account] else v.fields
  {
    hide TextsOf, FrontPieces, FieldPieces, L.HeadPieces, Flatten;
    var front, fields, end := FrontPieces(v.account), FieldPieces(l.fields, v.fields), [L.PlainPiece("}}")];
    FrontTexts(v.account);
    FieldTexts(l.fields, v.fields, t);
    LayoutLaws.NoTexts(end, t);
    LayoutLaws.HeadTexts(l.statusLine, l.contentType, |Flatten(BodyPieces(l, v))|, t);
    TextsConcat(front, fields, t);
    TextsConcat(front + fields, end, t);
    TextsConcat(L.HeadPieces(l.statusLine, l.contentType, |Flatten(BodyPieces(l, v))|), BodyPieces(l, v), t);
  }

  lemma ValuesStand(l: RecordLayout, v: Values)
    requires |v.fields| == |l.fields| && HasParts(ResponsePieces(l, v))
    ensures var (bytes, rs) := (Flatten(ResponsePieces(l, v)), RangesIn(ResponsePieces(l, v)));
      && Stands(bytes, rs.account, v.account)
      && |rs.fields| == |l.fields|
      && forall i | 0 <= i < |rs.fields| :: Stands(bytes, rs.fields[i], v.fields[i])
  {
    hide ResponsePieces, RangesOf, TextsOf, Flatten;
    var ps := ResponsePieces(l, v);
    ResponseTexts(l, v, Account);
    ResponseTexts(l, v, Tag.Field);
    ReadBack([], ps, Account);
    ReadBack([], ps, Tag.Field);
    assert [] + Flatten(ps) == Flatten(ps);
  }

  /** `bytes` at `r` is `value`, padded to `width`. */
  predicate StandsPadded(l: RecordLayout, bytes: Bytes, r: Range, value: Bytes, width: nat)
    requires IsValid(l)
  {
    r.Within(|bytes|) && PadValue(l.padding[0], value, width) == Ok(bytes[r.start..r.end])
  }

  /** Read-back: slicing a response at the template's ranges gives the padded values, field by field. */
  lemma ResponseReadsBack(l: RecordLayout, account: Bytes, values: seq<Bytes>)
    requires IsValid(l) && Render(l, account, values).Ok?
    ensures var (bytes, rs) := (Render(l, account, values).value.bytes, Template(l).ranges);
      && StandsPadded(l, bytes, rs.account, account, l.accountWidth)
      && |rs.fields| == |values| == |l.fields|
      && forall i | 0 <= i < |values| :: StandsPadded(l, bytes, rs.fields[i], values[i], l.fields[i].width)
  {
    hide ResponsePieces, RangesIn, Flatten, HasParts, PadValue, IsValid, PadFields;
    var v := PadAll(l, account, values).value;
    LayoutInvariance(l, account, values);
    PadAllFits(l, account, values);
    ResponseHasParts(l, v);
    ValuesStand(l, v);
    PadFieldsFits(l, values, |values|);
  }

  // ---------- The notarised exchange ----------

  function Path(l: RecordLayout, subject: Bytes): Bytes {
    l.pathPrefix + subject
  }

  /** `shape`: the exchange for `subject`. */
  ghost function ShapeOf(l: RecordLayout, subject: Bytes): ResponseShape
    requires IsValid(l)
  {
    var t := Template(l);
    ResponseShape(l.serverName, Path(l, subject), RequestLine(Path(l, subject)), t.bytes, t.ranges.len,
      t.ranges.Revealed(), t.ranges.Hidden())
  }

  /** Computes the shape by rendering an empty record, which never fails for a valid layout. */
  method MakeShape(l: RecordLayout, subject: Bytes) returns (s: ResponseShape)
    requires IsValid(l)
    ensures s == ShapeOf(l, subject)
  {
    hide Render, IsValid;
    var template := RenderResponse(l, [], Blanks(l));
    RendersIff(l, [], Blanks(l));
    var t := template.value;
    s := ResponseShape(l.serverName, Path(l, subject), RequestLine(Path(l, subject)), t.bytes, t.ranges.len,
      t.ranges.Revealed(), t.ranges.Hidden());
  }

  lemma FirstIsClear(a: seq<Range>, b: seq<Range>)
    requires Clear(a, b) && a != []
    ensures Clear([a[0]], b)
  {
  }

  lemma ClearBoth(a: seq<Range>, b: seq<Range>, c: seq<Range>)
    requires Clear(a, b) && Clear(a, c)
    ensures Clear(a, b + c)
  {
  }

  /** The first range of kind `s` is clear of every range of kind `t`. */
  lemma FirstOfKindClear(ps: seq<Piece>, s: Tag, t: Tag)
    requires s != t && RangesOf(ps, s, 0) != []
    ensures Clear([RangesOf(ps, s, 0)[0]], RangesOf(ps, t, 0))
  {
    hide RangesOf;
    KindsClear(ps, s, t);
    FirstIsClear(RangesOf(ps, s, 0), RangesOf(ps, t, 0));
  }

  lemma ClearOfFirst(a: seq<Range>, b: seq<Range>)
    requires Clear(a, b) && b != []
    ensures Clear(a, [b[0]])
  {
  }

  lemma One(r: Range)
    ensures Apart([r])
  {
  }

  /** A kind of range is apart from the account and the fields. */
  lemma KindClearOfHidden(ps: seq<Piece>, t: Tag)
    requires HasParts(ps) && t != Account && t != Tag.Field
    ensures Clear(RangesOf(ps, t, 0), RangesIn(ps).Hidden())
  {
    hide RangesOf, Clear;
    KindsClear(ps, t, Account);
    KindsClear(ps, t, Tag.Field);
    ClearOfFirst(RangesOf(ps, t, 0), RangesOf(ps, Account, 0));
    ClearBoth(RangesOf(ps, t, 0), [RangesIn(ps).account], RangesIn(ps).fields);
  }

  lemma RangesApart(ps: seq<Piece>)
    requires HasParts(ps)
    ensures Apart(RangesIn(ps).Revealed() + RangesIn(ps).Hidden())
  {
    hide RangesOf, Clear, Apart;
    var rs := RangesIn(ps);
    One(rs.statusLine);
    One(rs.contentTypeLine);
    One(rs.account);
    KindApart(ps, Key);
    KindApart(ps, Tag.Field);
    // Revealed.
    FirstOfKindClear(ps, StatusLine, ContentTypeLine);
    ClearOfFirst([rs.statusLine], RangesOf(ps, ContentTypeLine, 0));
    FirstOfKindClear(ps, StatusLine, Key);
    FirstOfKindClear(ps, ContentTypeLine, Key);
    ClearConcat([rs.statusLine], [rs.contentTypeLine]);
    ClearSum([rs.statusLine], [rs.contentTypeLine], rs.keys);
    ClearConcat([rs.statusLine] + [rs.contentTypeLine], rs.keys);
    assert [rs.statusLine] + [rs.contentTypeLine] + rs.keys == rs.Revealed();
    // Hidden.
    FirstOfKindClear(ps, Account, Tag.Field);
    ClearConcat([rs.account], rs.fields);
    // Revealed against hidden.
    KindClearOfHidden(ps, StatusLine);
    KindClearOfHidden(ps, ContentTypeLine);
    KindClearOfHidden(ps, Key);
    FirstIsClear(RangesOf(ps, StatusLine, 0), rs.Hidden());
    FirstIsClear(RangesOf(ps, ContentTypeLine, 0), rs.Hidden());
    ClearSum([rs.statusLine], [rs.contentTypeLine], rs.Hidden());
    ClearSum([rs.statusLine] + [rs.contentTypeLine], rs.keys, rs.Hidden());
    ClearConcat(rs.Revealed(), rs.Hidden());
  }

  lemma RangesInside(ps: seq<Piece>)
    requires HasParts(ps)
    ensures AllWithin(RangesIn(ps).Revealed() + RangesIn(ps).Hidden(), |Flatten(ps)|)
  {
    hide RangesOf, Flatten;
    KindWithin(ps, StatusLine);
    KindWithin(ps, ContentTypeLine);
    KindWithin(ps, Key);
    KindWithin(ps, Account);
    KindWithin(ps, Tag.Field);
  }

  lemma HiddenAreFilled(l: RecordLayout, v: Values)
    requires IsValid(l) && Fits(l, v) && HasParts(ResponsePieces(l, v))
    ensures var rs := RangesIn(ResponsePieces(l, v));
      |rs.Hidden()| == 1 + |l.fields| && forall i | 0 <= i < |rs.Hidden()| :: rs.Hidden()[i].start < rs.Hidden()[i].end
  {
    hide ResponsePieces, RangesIn, HasParts, Flatten;
    ValuesStand(l, v);
    var rs, bytes := RangesIn(ResponsePieces(l, v)), Flatten(ResponsePieces(l, v));
    forall i | 0 <= i < |rs.fields|
      ensures rs.fields[i].start < rs.fields[i].end
    {
      assert Stands(bytes, rs.fields[i], v.fields[i]) && |v.fields[i]| == l.fields[i].width > 0;
    }
  }

  /** Revealed and hidden ranges of a record layout are pairwise disjoint and in bounds; what is hidden is
      the account and every field, and nothing else. */
  lemma ShapeIsSound(l: RecordLayout, subject: Bytes)
    requires IsValid(l)
    ensures Sound(ShapeOf(l, subject)) && |ShapeOf(l, subject).hidden| == 1 + |l.fields|
  {
    hide ResponsePieces, HasParts, Flatten, RangesIn, Apart, AllWithin, PadAll, Fits, IsValid;
    RendersIff(l, [], Blanks(l));
    var v := PadAll(l, [], Blanks(l)).value;
    PadAllFits(l, [], Blanks(l));
    FitsLength(l, v);
    ResponseHasParts(l, v);
    RangesApart(ResponsePieces(l, v));
    RangesInside(ResponsePieces(l, v));
    HiddenAreFilled(l, v);
    LayoutInvariance(l, [], Blanks(l));
  }

  /** Every response of the layout shows at the revealed ranges what the template shows. */
  lemma ResponseReveals(l: RecordLayout, subject: Bytes, account: Bytes, values: seq<Bytes>)
    requires IsValid(l) && Render(l, account, values).Ok?
    ensures Reveals(ShapeOf(l, subject), Render(l, account, values).value.bytes)
  {
    hide ResponsePieces, Flatten, RangesOf, SameShape, Render, Template;
    var ps, qs := WithTemplate(l, account, values);
    RangesOfShape(ps, qs);
    LayoutInvariance(l, account, values);
    var s := ShapeOf(l, subject);
    forall i | 0 <= i < |s.revealed|
      ensures s.revealed[i].Within(s.len)
      ensures Flatten(ps)[s.revealed[i].start..s.revealed[i].end] == Flatten(qs)[s.revealed[i].start..s.revealed[i].end]
    {
      SameShapeSlices(ps, qs, if i == 0 then StatusLine else if i == 1 then ContentTypeLine else Key, s.revealed[i]);
    }
  }

  // ---------- Fields by key ----------

  datatype WordError = NoSuchField | TooWide | BadIdentifier(error: RenderError)

  /** `index_of`: the first field with this key. */
  function IndexOf(fields: seq<RecordField>, key: Bytes): (r: Option<nat>)
    ensures r.Some? ==> r.value < |fields| && fields[r.value].key == key && forall j | 0 <= j < r.value :: fields[j].key != key
    ensures r.None? ==> forall j | 0 <= j < |fields| :: fields[j].key != key
  {
    if fields == [] then None
    else if fields[0].key == key then Some(0)
    else
      match IndexOf(fields[1..], key)
      case Some(i) => Some(i + 1)
      case None => None
  }

  /** `word`: the padded value of a field at the front of a word of zeros. */
  function WordOf(l: RecordLayout, key: Bytes, value: Bytes): Result<Word, WordError>
    requires IsValid(l)
  {
    match IndexOf(l.fields, key)
    case None => Err(NoSuchField)
    case Some(i) =>
      if 32 < l.fields[i].width then Err(TooWide)
      else
        match Pad(l, value, l.fields[i].width)
        case Ok(v) => Ok(ZeroExtended(v))
        case Err(e) => Err(BadIdentifier(e))
  }

  /** Keys name one field each. */
  lemma KeyFindsField(l: RecordLayout, i: nat)
    requires IsValid(l) && i < |l.fields|
    ensures IndexOf(l.fields, l.fields[i].key) == Some(i)
  {
  }

  /** The word of a field is the zero extension of what every response with that value shows there. */
  lemma WordIsShown(l: RecordLayout, account: Bytes, values: seq<Bytes>, i: nat)
    requires IsValid(l) && Render(l, account, values).Ok? && i < |values| && i < |l.fields| && l.fields[i].width <= 32
    ensures var (bytes, rs) := (Render(l, account, values).value.bytes, Template(l).ranges);
      && i < |rs.fields| && rs.fields[i].Within(|bytes|)
      && rs.fields[i].end - rs.fields[i].start <= 32
      && WordOf(l, l.fields[i].key, values[i]) == Ok(ZeroExtended(bytes[rs.fields[i].start..rs.fields[i].end]))
  {
    hide Render, Template, PadValue;
    ResponseReadsBack(l, account, values);
    KeyFindsField(l, i);
    assert StandsPadded(l, Render(l, account, values).value.bytes, Template(l).ranges.fields[i], values[i], l.fields[i].width);
    PadWidth(l.padding[0], values[i], l.fields[i].width);
  }

  lemma PadWidth(padding: Byte, value: Bytes, width: nat)
    ensures PadValue(padding, value, width).Ok? ==> |PadValue(padding, value, width).value| == width
  {
  }
}
