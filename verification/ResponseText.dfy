/** The whole text of a response, title or record, and what stands at its revealed ranges. */
module ResponseText {
  import opened Wrappers
  import opened Bytes
  import opened Text
  import opened Pieces
  import opened Shape
  import L = Layout
  import LayoutLaws
  import TitleShape
  import R = RecordLayout
  import RecordLaws

  function Concat(parts: seq<Bytes>): Bytes {
    if parts == [] then [] else parts[0] + Concat(parts[1..])
  }

  function TextOf(ps: seq<Piece>): (r: seq<Bytes>)
    ensures |r| == |ps| && forall i | 0 <= i < |r| :: r[i] == ps[i].text
  {
    seq(|ps|, i requires 0 <= i < |ps| => ps[i].text)
  }

  lemma {:induction false} FlattenIsConcat(ps: seq<Piece>)
    ensures Flatten(ps) == Concat(TextOf(ps))
  {
    if ps != [] {
      FlattenIsConcat(ps[1..]);
      assert TextOf(ps)[1..] == TextOf(ps[1..]);
    }
  }

  lemma TextsJoin(a: seq<Piece>, b: seq<Piece>)
    ensures TextOf(a + b) == TextOf(a) + TextOf(b)
  {
  }

  /** A key between quotes, with its colon. */
  function KeyText(name: Bytes): Bytes {
    Lit("\"") + name + Lit("\":")
  }

  lemma KeyTextIs(name: Bytes)
    ensures KeyPiece(name).text == KeyText(name)
  {
    assert Lit("\"") == [QUOTE];
    assert Lit("\":") == [QUOTE] + Lit(":");
    assert [QUOTE] + name + [QUOTE] + Lit(":") == [QUOTE] + name + ([QUOTE] + Lit(":"));
  }

  function QuotedText(value: Bytes): seq<Bytes> {
    [Lit("\""), value, Lit("\"")]
  }

  lemma QuotedTextIs(tag: Tag, value: Bytes)
    ensures TextOf(Quoted(tag, value)) == QuotedText(value)
  {
    assert Lit("\"") == [QUOTE];
  }

  /** The response head in front of a body of `length` bytes. */
  function HeadText(statusLine: Bytes, contentType: Bytes, length: string): seq<Bytes> {
    [statusLine, Lit("\r\n"), Lit("Content-Type: ") + contentType, Lit("\r\n"),
     Lit("Content-Length: " + length + "\r\n"), Lit("Connection: close\r\n\r\n")]
  }

  lemma HeadTextIs(statusLine: Bytes, contentType: Bytes, length: nat)
    ensures TextOf(L.HeadPieces(statusLine, contentType, length)) == HeadText(statusLine, contentType, Decimal(length))
  {
    hide Decimal, Lit;
  }

  // ---------- Title responses ----------

  /** Quoted values with commas between them. */
  function ListText(values: seq<Bytes>): seq<Bytes> {
    if values == [] then []
    else if |values| == 1 then QuotedText(values[0])
    else ListText(values[..|values| - 1]) + [Lit(",")] + QuotedText(values[|values| - 1])
  }

  /** The body of a title response. */
  function TitleBody(v: L.Values): seq<Bytes> {
    [Lit("{"), KeyText(Lit("account"))] + QuotedText(v.account)
    + [Lit(","), KeyText(Lit("record")), Lit("{"), KeyText(Lit("propertyId"))] + QuotedText(v.propertyId)
    + [Lit(","), KeyText(Lit("owners")), Lit("[")] + ListText(v.owners)
    + [Lit("],"), KeyText(Lit("encumbrance"))] + QuotedText(v.encumbrance)
    + [Lit(","), KeyText(Lit("assessedValue"))] + QuotedText(v.assessedValue)
    + [Lit(","), KeyText(Lit("recordDate"))] + QuotedText(v.recordDate)
    + [Lit("}}")]
  }

  lemma FrontText(account: Bytes, propertyId: Bytes)
    ensures TextOf(L.FrontPieces(account, propertyId)) ==
      [Lit("{"), KeyText(Lit("account"))] + QuotedText(account)
      + [Lit(","), KeyText(Lit("record")), Lit("{"), KeyText(Lit("propertyId"))] + QuotedText(propertyId)
      + [Lit(","), KeyText(Lit("owners")), Lit("[")]
  {
    hide Lit, KeyText, KeyPiece, Quoted, QuotedText;
    KeyTextIs(Lit("account"));
    KeyTextIs(Lit("record"));
    KeyTextIs(Lit("propertyId"));
    KeyTextIs(Lit("owners"));
    var a := [L.PlainPiece("{"), KeyPiece(Lit("account"))];
    var b := [L.PlainPiece(","), KeyPiece(Lit("record")), L.PlainPiece("{"), KeyPiece(Lit("propertyId"))];
    var c := [L.PlainPiece(","), KeyPiece(Lit("owners")), L.PlainPiece("[")];
    QuotedTextIs(Account, account);
    QuotedTextIs(PropertyId, propertyId);
    TextsJoin(a, Quoted(Account, account));
    TextsJoin(a + Quoted(Account, account), b);
    TextsJoin(a + Quoted(Account, account) + b, Quoted(PropertyId, propertyId));
    TextsJoin(a + Quoted(Account, account) + b + Quoted(PropertyId, propertyId), c);
  }

  lemma BackText(e: Bytes, a: Bytes, d: Bytes)
    ensures TextOf(L.BackPieces(e, a, d)) ==
      [Lit("],"), KeyText(Lit("encumbrance"))] + QuotedText(e)
      + [Lit(","), KeyText(Lit("assessedValue"))] + QuotedText(a)
      + [Lit(","), KeyText(Lit("recordDate"))] + QuotedText(d)
      + [Lit("}}")]
  {
    hide Lit, KeyText, KeyPiece, Quoted, QuotedText;
    KeyTextIs(Lit("encumbrance"));
    KeyTextIs(Lit("assessedValue"));
    KeyTextIs(Lit("recordDate"));
    var p := [L.PlainPiece("],"), KeyPiece(Lit("encumbrance"))];
    var q := [L.PlainPiece(","), KeyPiece(Lit("assessedValue"))];
    var r := [L.PlainPiece(","), KeyPiece(Lit("recordDate"))];
    QuotedTextIs(Unreported, e);
    QuotedTextIs(Unreported, a);
    QuotedTextIs(Unreported, d);
    TextsJoin(p, Quoted(Unreported, e));
    TextsJoin(p + Quoted(Unreported, e), q);
    TextsJoin(p + Quoted(Unreported, e) + q, Quoted(Unreported, a));
    TextsJoin(p + Quoted(Unreported, e) + q + Quoted(Unreported, a), r);
    TextsJoin(p + Quoted(Unreported, e) + q + Quoted(Unreported, a) + r, Quoted(Unreported, d));
    TextsJoin(p + Quoted(Unreported, e) + q + Quoted(Unreported, a) + r + Quoted(Unreported, d), [L.PlainPiece("}}")]);
  }

  lemma {:induction false} OwnersText(owners: seq<Bytes>)
    ensures TextOf(L.OwnerPieces(owners)) == ListText(owners)
  {
    hide Lit, Quoted, QuotedText;
    if owners != [] {
      var n := |owners| - 1;
      QuotedTextIs(Owner, owners[n]);
      OwnersText(owners[..n]);
      if n > 0 {
        TextsJoin(L.OwnerPieces(owners[..n]), [L.PlainPiece(",")]);
        TextsJoin(L.OwnerPieces(owners[..n]) + [L.PlainPiece(",")], Quoted(Owner, owners[n]));
      } else {
        assert owners[..n] == [];
        assert L.OwnerPieces(owners) == Quoted(Owner, owners[0]);
      }
    }
  }

  lemma BodyText(v: L.Values)
    ensures TextOf(L.BodyPieces(v)) == TitleBody(v)
  {
    hide Lit, KeyText, QuotedText, ListText, L.FrontPieces, L.BackPieces, L.OwnerPieces;
    FrontText(v.account, v.propertyId);
    OwnersText(v.owners);
    BackText(v.encumbrance, v.assessedValue, v.recordDate);
    TextsJoin(L.FrontPieces(v.account, v.propertyId), L.OwnerPieces(v.owners));
    TextsJoin(L.FrontPieces(v.account, v.propertyId) + L.OwnerPieces(v.owners),
      L.BackPieces(v.encumbrance, v.assessedValue, v.recordDate));
  }

  /** `padded` is `value` and the layout's padding behind it, `width` bytes in all. */
  predicate IsPadded(padding: Byte, value: Bytes, width: nat, padded: Bytes) {
    |padded| == width && value <= padded && forall i | |value| <= i < width :: padded[i] == padding
  }

  /** The padded values stand for those of the record, each with the width of its own field. */
  predicate ArePadded(l: L.Layout, account: Bytes, record: L.TitleRecord, v: L.Values)
    requires |l.padding| == 1
  {
    && IsPadded(l.padding[0], account, l.accountWidth, v.account)
    && IsPadded(l.padding[0], record.propertyId, l.propertyIdWidth, v.propertyId)
    && |record.owners| <= |v.owners| == l.ownerSlots
    && (forall i | 0 <= i < |v.owners| ::
          IsPadded(l.padding[0], if i < |record.owners| then record.owners[i] else [], l.accountWidth, v.owners[i]))
    && IsPadded(l.padding[0], record.encumbrance, l.encumbranceWidth, v.encumbrance)
    && IsPadded(l.padding[0], record.assessedValue, l.assessedValueWidth, v.assessedValue)
    && IsPadded(l.padding[0], record.recordDate, l.recordDateWidth, v.recordDate)
  }

  lemma PadIsPadded(l: L.Layout, value: Bytes, width: nat)
    requires L.Validate(l).Ok? && L.Pad(l, value, width).Ok?
    ensures IsPadded(l.padding[0], value, width, L.Pad(l, value, width).value)
  {
    hide Acceptable;
  }

  lemma {:induction false} OwnersPadded(l: L.Layout, record: L.TitleRecord, n: nat, i: nat)
    requires L.Validate(l).Ok? && L.PadOwners(l, record, n).Ok? && i < n
    ensures |l.padding| == 1 && |L.PadOwners(l, record, n).value| == n
    ensures IsPadded(l.padding[0], L.OwnerAt(record, i), l.accountWidth, L.PadOwners(l, record, n).value[i])
  {
    hide L.Pad, IsPadded, L.OwnerAt;
    L.PadOwnersFits(l, record, n);
    L.PadOwnersFits(l, record, n - 1);
    if i < n - 1 {
      OwnersPadded(l, record, n - 1, i);
    } else {
      PadIsPadded(l, L.OwnerAt(record, i), l.accountWidth);
    }
  }

  lemma ValuesPadded(l: L.Layout, account: Bytes, record: L.TitleRecord)
    requires L.Validate(l).Ok? && L.PadAll(l, account, record).Ok?
    ensures ArePadded(l, account, record, L.PadAll(l, account, record).value)
  {
    L.PadAllFits(l, account, record);
    forall i | 0 <= i < l.ownerSlots
      ensures IsPadded(l.padding[0], L.OwnerAt(record, i), l.accountWidth, L.PadOwners(l, record, l.ownerSlots).value[i])
    {
      OwnersPadded(l, record, l.ownerSlots, i);
    }
  }

  /** A title response, byte by byte: the head with the body's length, then the record with every padded value
      behind its own key. */
  lemma TitleText(l: L.Layout, account: Bytes, record: L.TitleRecord) returns (v: L.Values, length: string)
    requires L.Validate(l).Ok? && L.Render(l, account, record).Ok?
    ensures |l.padding| == 1 && ArePadded(l, account, record, v)
    ensures AllDigits(length) && Value(length) == |Concat(TitleBody(v))|
    ensures L.Render(l, account, record).value.bytes
      == Concat(HeadText(l.statusLine, l.contentType, length)) + Concat(TitleBody(v))
  {
    hide L.BodyPieces, L.HeadPieces, L.PadAll, Flatten, Concat, Decimal, Value, HeadText, TitleBody, ArePadded;
    v := L.PadAll(l, account, record).value;
    PaddingIsOne(l);
    ValuesPadded(l, account, record);
    BodyText(v);
    FlattenIsConcat(L.BodyPieces(v));
    length := Decimal(|Flatten(L.BodyPieces(v))|);
    var head := L.HeadPieces(l.statusLine, l.contentType, |Flatten(L.BodyPieces(v))|);
    HeadTextIs(l.statusLine, l.contentType, |Flatten(L.BodyPieces(v))|);
    FlattenIsConcat(head);
    FlattenConcat(head, L.BodyPieces(v));
  }

  lemma PaddingIsOne(l: L.Layout)
    requires L.Validate(l).Ok?
    ensures |l.padding| == 1
  {
  }

  // ---------- Record responses ----------

  /** Fields with commas between them, each value behind its own key. */
  function FieldsText(fields: seq<R.RecordField>, values: seq<Bytes>): seq<Bytes>
    requires |values| <= |fields|
  {
    if values == [] then []
    else
      var n := |values| - 1;
      FieldsText(fields, values[..n]) + (if n > 0 then [Lit(",")] else []) + [KeyText(fields[n].key)] + QuotedText(values[n])
  }

  /** The body of a record response. */
  function RecordBody(l: R.RecordLayout, v: R.Values): seq<Bytes>
    requires |v.fields| <= |l.fields|
  {
    [Lit("{"), KeyText(Lit("account"))] + QuotedText(v.account) + [Lit(","), KeyText(Lit("record")), Lit("{")]
    + FieldsText(l.fields, v.fields) + [Lit("}}")]
  }

  lemma RecordFrontText(account: Bytes)
    ensures TextOf(R.FrontPieces(account)) ==
      [Lit("{"), KeyText(Lit("account"))] + QuotedText(account) + [Lit(","), KeyText(Lit("record")), Lit("{")]
  {
    hide Lit, KeyText, KeyPiece, Quoted, QuotedText;
    KeyTextIs(Lit("account"));
    KeyTextIs(Lit("record"));
    QuotedTextIs(Account, account);
    var a := [L.PlainPiece("{"), KeyPiece(Lit("account"))];
    var b := [L.PlainPiece(","), KeyPiece(Lit("record")), L.PlainPiece("{")];
    TextsJoin(a, Quoted(Account, account));
    TextsJoin(a + Quoted(Account, account), b);
  }

  lemma {:induction false} FieldPiecesText(fields: seq<R.RecordField>, values: seq<Bytes>)
    requires |values| <= |fields|
    ensures TextOf(R.FieldPieces(fields, values)) == FieldsText(fields, values)
  {
    hide Lit, Quoted, QuotedText, KeyPiece, KeyText;
    if values != [] {
      var n := |values| - 1;
      QuotedTextIs(Tag.Field, values[n]);
      KeyTextIs(fields[n].key);
      FieldPiecesText(fields, values[..n]);
      var before := R.FieldPieces(fields, values[..n]);
      var comma := if n > 0 then [L.PlainPiece(",")] else [];
      TextsJoin(before, comma);
      TextsJoin(before + comma, [KeyPiece(fields[n].key)]);
      TextsJoin(before + comma + [KeyPiece(fields[n].key)], Quoted(Tag.Field, values[n]));
    }
  }

  lemma RecordBodyText(l: R.RecordLayout, v: R.Values)
    requires |v.fields| <= |l.fields|
    ensures TextOf(R.BodyPieces(l, v)) == RecordBody(l, v)
  {
    hide Lit, KeyText, QuotedText, R.FrontPieces, R.FieldPieces, FieldsText;
    RecordFrontText(v.account);
    FieldPiecesText(l.fields, v.fields);
    TextsJoin(R.FrontPieces(v.account), R.FieldPieces(l.fields, v.fields));
    TextsJoin(R.FrontPieces(v.account) + R.FieldPieces(l.fields, v.fields), [L.PlainPiece("}}")]);
  }

  /** A record response, byte by byte. */
  lemma RecordText(l: R.RecordLayout, account: Bytes, values: seq<Bytes>) returns (v: R.Values, length: string)
    requires R.IsValid(l) && R.Render(l, account, values).Ok?
    ensures |l.padding| == 1 && |v.fields| == |values| == |l.fields|
    ensures IsPadded(l.padding[0], account, l.accountWidth, v.account)
    ensures forall i | 0 <= i < |values| :: IsPadded(l.padding[0], values[i], l.fields[i].width, v.fields[i])
    ensures AllDigits(length) && Value(length) == |Concat(RecordBody(l, v))|
    ensures R.Render(l, account, values).value.bytes
      == Concat(HeadText(l.statusLine, l.contentType, length)) + Concat(RecordBody(l, v))
  {
    hide R.BodyPieces, L.HeadPieces, Flatten, Concat, Decimal, Value, HeadText, RecordBody, R.PadFields;
    v := R.PadAll(l, account, values).value;
    R.PadFieldsFits(l, values, |values|);
    RecordBodyText(l, v);
    FlattenIsConcat(R.BodyPieces(l, v));
    length := Decimal(|Flatten(R.BodyPieces(l, v))|);
    var head := L.HeadPieces(l.statusLine, l.contentType, |Flatten(R.BodyPieces(l, v))|);
    HeadTextIs(l.statusLine, l.contentType, |Flatten(R.BodyPieces(l, v))|);
    FlattenIsConcat(head);
    FlattenConcat(head, R.BodyPieces(l, v));
  }

  // ---------- What is revealed ----------

  lemma TextsCons(p: Piece, rest: seq<Piece>, t: Tag)
    ensures TextsOf([p] + rest, t) == (if p.tag == t then [p.text] else []) + TextsOf(rest, t)
  {
    assert ([p] + rest)[1..] == rest;
  }

  /** The texts of some punctuation and a key. */
  lemma OpenKeyTexts(open: string, name: string, t: Tag)
    requires t in {StatusLine, ContentTypeLine, Key}
    ensures TextsOf([L.PlainPiece(open), KeyPiece(Lit(name))], t) == if t == Key then [KeyText(Lit(name))] else []
  {
    hide TextsOf, Lit, KeyText;
    var key := KeyPiece(Lit(name));
    KeyTextIs(Lit(name));
    LayoutLaws.OneText(key, t);
    TextsCons(L.PlainPiece(open), [key], t);
    assert [L.PlainPiece(open)] + [key] == [L.PlainPiece(open), key];
  }

  lemma FrontKeys(account: Bytes, propertyId: Bytes, t: Tag)
    requires t in {StatusLine, ContentTypeLine, Key}
    ensures TextsOf(L.FrontPieces(account, propertyId), t) ==
      if t == Key then [KeyText(Lit("account")), KeyText(Lit("record")), KeyText(Lit("propertyId")), KeyText(Lit("owners"))] else []
  {
    hide TextsOf, Lit, KeyText, KeyPiece, Quoted;
    var a := [L.PlainPiece("{"), KeyPiece(Lit("account"))];
    var b := [L.PlainPiece(","), KeyPiece(Lit("record"))];
    var c := [L.PlainPiece("{"), KeyPiece(Lit("propertyId"))];
    var d := [L.PlainPiece(","), KeyPiece(Lit("owners"))];
    var e := [L.PlainPiece("[")];
    OpenKeyTexts("{", "account", t);
    OpenKeyTexts(",", "record", t);
    OpenKeyTexts("{", "propertyId", t);
    OpenKeyTexts(",", "owners", t);
    LayoutLaws.OneText(e[0], t);
    var x, y := Quoted(Account, account), Quoted(PropertyId, propertyId);
    LayoutLaws.QuotedTexts(Account, account, t);
    LayoutLaws.QuotedTexts(PropertyId, propertyId, t);
    assert L.FrontPieces(account, propertyId) == a + x + b + c + y + d + e;
    TextsConcat(a, x, t);
    TextsConcat(a + x, b, t);
    TextsConcat(a + x + b, c, t);
    TextsConcat(a + x + b + c, y, t);
    TextsConcat(a + x + b + c + y, d, t);
    TextsConcat(a + x + b + c + y + d, e, t);
  }

  lemma BackKeys(e: Bytes, a: Bytes, d: Bytes, t: Tag)
    requires t in {StatusLine, ContentTypeLine, Key}
    ensures TextsOf(L.BackPieces(e, a, d), t) ==
      if t == Key then [KeyText(Lit("encumbrance")), KeyText(Lit("assessedValue")), KeyText(Lit("recordDate"))] else []
  {
    hide TextsOf, Lit, KeyText, KeyPiece, Quoted;
    var p := [L.PlainPiece("],"), KeyPiece(Lit("encumbrance"))];
    var q := [L.PlainPiece(","), KeyPiece(Lit("assessedValue"))];
    var r := [L.PlainPiece(","), KeyPiece(Lit("recordDate"))];
    var end := [L.PlainPiece("}}")];
    OpenKeyTexts("],", "encumbrance", t);
    OpenKeyTexts(",", "assessedValue", t);
    OpenKeyTexts(",", "recordDate", t);
    LayoutLaws.OneText(end[0], t);
    var x, y, z := Quoted(Unreported, e), Quoted(Unreported, a), Quoted(Unreported, d);
    LayoutLaws.QuotedTexts(Unreported, e, t);
    LayoutLaws.QuotedTexts(Unreported, a, t);
    LayoutLaws.QuotedTexts(Unreported, d, t);
    assert L.BackPieces(e, a, d) == p + x + q + y + r + z + end;
    TextsConcat(p, x, t);
    TextsConcat(p + x, q, t);
    TextsConcat(p + x + q, y, t);
    TextsConcat(p + x + q + y, r, t);
    TextsConcat(p + x + q + y + r, z, t);
    TextsConcat(p + x + q + y + r + z, end, t);
  }

  lemma HeadKinds(statusLine: Bytes, contentType: Bytes, length: nat, t: Tag)
    requires t in {StatusLine, ContentTypeLine, Key}
    ensures TextsOf(L.HeadPieces(statusLine, contentType, length), t) ==
      if t == StatusLine then [statusLine] else if t == ContentTypeLine then [Lit("Content-Type: ") + contentType] else []
  {
    hide TextsOf, Lit, Decimal;
    var ps := L.HeadPieces(statusLine, contentType, length);
    assert ps == [ps[0]] + ([ps[1]] + ([ps[2]] + ps[3..]));
    TextsCons(ps[0], [ps[1]] + ([ps[2]] + ps[3..]), t);
    TextsCons(ps[1], [ps[2]] + ps[3..], t);
    TextsCons(ps[2], ps[3..], t);
    LayoutLaws.NoTexts(ps[3..], t);
  }

  /** The texts of what a title response reveals, by kind. */
  lemma TitleKinds(l: L.Layout, v: L.Values, t: Tag)
    requires t in {StatusLine, ContentTypeLine, Key}
    ensures TextsOf(L.ResponsePieces(l, v), t) ==
      if t == StatusLine then [l.statusLine]
      else if t == ContentTypeLine then [Lit("Content-Type: ") + l.contentType]
      else [KeyText(Lit("account")), KeyText(Lit("record")), KeyText(Lit("propertyId")), KeyText(Lit("owners")),
            KeyText(Lit("encumbrance")), KeyText(Lit("assessedValue")), KeyText(Lit("recordDate"))]
  {
    hide TextsOf, L.FrontPieces, L.OwnerPieces, L.BackPieces, L.HeadPieces, Flatten, Lit, KeyText;
    var front, owners := L.FrontPieces(v.account, v.propertyId), L.OwnerPieces(v.owners);
    var back := L.BackPieces(v.encumbrance, v.assessedValue, v.recordDate);
    FrontKeys(v.account, v.propertyId, t);
    LayoutLaws.OwnerTexts(v.owners);
    BackKeys(v.encumbrance, v.assessedValue, v.recordDate, t);
    HeadKinds(l.statusLine, l.contentType, |Flatten(L.BodyPieces(v))|, t);
    TextsConcat(front, owners, t);
    TextsConcat(front + owners, back, t);
    TextsConcat(L.HeadPieces(l.statusLine, l.contentType, |Flatten(L.BodyPieces(v))|), L.BodyPieces(v), t);
  }

  lemma KindStands(ps: seq<Piece>, t: Tag)
    ensures AllStand(Flatten(ps), RangesOf(ps, t, 0), TextsOf(ps, t))
  {
    hide RangesOf, TextsOf, Flatten, AllStand;
    ReadBack([], ps, t);
    assert [] + Flatten(ps) == Flatten(ps);
  }

  lemma RevealedStand(bytes: Bytes, s: seq<Range>, c: seq<Range>, keys: seq<Range>, a: Bytes, b: Bytes, texts: seq<Bytes>)
    requires AllStand(bytes, s, [a]) && AllStand(bytes, c, [b]) && AllStand(bytes, keys, texts)
    ensures |s| == |c| == 1 && AllStand(bytes, [s[0], c[0]] + keys, [a, b] + texts)
  {
    hide Stands;
    AllStandConcat(bytes, s, [a], c, [b]);
    AllStandConcat(bytes, s + c, [a] + [b], keys, texts);
    assert s + c == [s[0], c[0]] && [a] + [b] == [a, b];
  }

  /** The seven keys of a title response, in order. */
  function TitleKeys(): seq<Bytes> {
    [KeyText(Lit("account")), KeyText(Lit("record")), KeyText(Lit("propertyId")), KeyText(Lit("owners")),
     KeyText(Lit("encumbrance")), KeyText(Lit("assessedValue")), KeyText(Lit("recordDate"))]
  }

  /** What stands at the ranges a title shape reveals: status and content type, and every key. */
  lemma TitleReveals(l: L.Layout, propertyId: Bytes, account: Bytes, record: L.TitleRecord)
    requires L.Validate(l).Ok? && L.Render(l, account, record).Ok?
    ensures AllStand(L.Render(l, account, record).value.bytes, TitleShape.ShapeOf(l, propertyId).revealed,
      [l.statusLine, Lit("Content-Type: ") + l.contentType] + TitleKeys())
  {
    hide L.ResponsePieces, TextsOf, RangesOf, Flatten, Lit, KeyText, L.PadAll, L.OffsetsFrom, AllStand, L.HasTitleParts;
    LayoutLaws.LayoutInvariance(l, account, record);
    var v := L.PadAll(l, account, record).value;
    L.PadAllFits(l, account, record);
    L.ResponseHasParts(l, v);
    var ps := L.ResponsePieces(l, v);
    TitleKinds(l, v, StatusLine);
    TitleKinds(l, v, ContentTypeLine);
    TitleKinds(l, v, Key);
    KindStands(ps, StatusLine);
    KindStands(ps, ContentTypeLine);
    KindStands(ps, Key);
    RevealedStand(Flatten(ps), RangesOf(ps, StatusLine, 0), RangesOf(ps, ContentTypeLine, 0), RangesOf(ps, Key, 0),
      l.statusLine, Lit("Content-Type: ") + l.contentType, TitleKeys());
  }

  // ---------- And in a record response ----------

  lemma {:induction false} FieldKinds(fields: seq<R.RecordField>, values: seq<Bytes>, t: Tag)
    requires t in {StatusLine, ContentTypeLine, Key} && |values| <= |fields|
    ensures TextsOf(R.FieldPieces(fields, values), t) == if t == Key then KeysText(fields[..|values|]) else []
  {
    hide TextsOf, KeyPiece, Quoted, Lit, KeyText;
    if values == [] {
      LayoutLaws.NoTexts([], t);
    } else {
      var n := |values| - 1;
      FieldKinds(fields, values[..n], t);
      var before := R.FieldPieces(fields, values[..n]);
      var comma := if n > 0 then [L.PlainPiece(",")] else [];
      var key := KeyPiece(fields[n].key);
      KeyTextIs(fields[n].key);
      KeyTag(fields[n].key);
      LayoutLaws.NoTexts(comma, t);
      LayoutLaws.OneText(key, t);
      LayoutLaws.QuotedTexts(Tag.Field, values[n], t);
      TextsConcat(before, comma, t);
      TextsConcat(before + comma, [key], t);
      TextsConcat(before + comma + [key], Quoted(Tag.Field, values[n]), t);
      assert fields[..n + 1][..n] == fields[..n];
    }
  }

  lemma KeyTag(name: Bytes)
    ensures KeyPiece(name).tag == Key
  {
  }

  /** The keys of the fields, in order. */
  function KeysText(fields: seq<R.RecordField>): (r: seq<Bytes>)
    ensures |r| == |fields|
  {
    if fields == [] then [] else KeysText(fields[..|fields| - 1]) + [KeyText(fields[|fields| - 1].key)]
  }

  lemma RecordFrontKinds(account: Bytes, t: Tag)
    requires t in {StatusLine, ContentTypeLine, Key}
    ensures TextsOf(R.FrontPieces(account), t) == if t == Key then [KeyText(Lit("account")), KeyText(Lit("record"))] else []
  {
    hide TextsOf, Lit, KeyText, KeyPiece, Quoted;
    var a := [L.PlainPiece("{"), KeyPiece(Lit("account"))];
    var b := [L.PlainPiece(","), KeyPiece(Lit("record"))];
    var c := [L.PlainPiece("{")];
    var x := Quoted(Account, account);
    OpenKeyTexts("{", "account", t);
    OpenKeyTexts(",", "record", t);
    LayoutLaws.OneText(c[0], t);
    LayoutLaws.QuotedTexts(Account, account, t);
    assert R.FrontPieces(account) == a + x + b + c;
    TextsConcat(a, x, t);
    TextsConcat(a + x, b, t);
    TextsConcat(a + x + b, c, t);
  }

  lemma RecordKinds(l: R.RecordLayout, v: R.Values, t: Tag)
    requires t in {StatusLine, ContentTypeLine, Key} && |v.fields| == |l.fields|
    ensures TextsOf(R.ResponsePieces(l, v), t) ==
      if t == StatusLine then [l.statusLine]
      else if t == ContentTypeLine then [Lit("Content-Type: ") + l.contentType]
      else [KeyText(Lit("account")), KeyText(Lit("record"))] + KeysText(l.fields)
  {
    hide TextsOf, R.FrontPieces, R.FieldPieces, L.HeadPieces, Flatten, Lit, KeyText, KeysText;
    var front, fields, end := R.FrontPieces(v.account), R.FieldPieces(l.fields, v.fields), [L.PlainPiece("}}")];
    RecordFrontKinds(v.account, t);
    FieldKinds(l.fields, v.fields, t);
    assert l.fields[..|l.fields|] == l.fields;
    LayoutLaws.OneText(end[0], t);
    HeadKinds(l.statusLine, l.contentType, |Flatten(R.BodyPieces(l, v))|, t);
    TextsConcat(front, fields, t);
    TextsConcat(front + fields, end, t);
    TextsConcat(L.HeadPieces(l.statusLine, l.contentType, |Flatten(R.BodyPieces(l, v))|), R.BodyPieces(l, v), t);
  }

  /** What stands at the ranges a record shape reveals. */
  lemma RecordReveals(l: R.RecordLayout, subject: Bytes, account: Bytes, values: seq<Bytes>)
    requires R.IsValid(l) && R.Render(l, account, values).Ok?
    ensures AllStand(R.Render(l, account, values).value.bytes, RecordLaws.ShapeOf(l, subject).revealed,
      [l.statusLine, Lit("Content-Type: ") + l.contentType] + ([KeyText(Lit("account")), KeyText(Lit("record"))] + KeysText(l.fields)))
  {
    hide R.ResponsePieces, TextsOf, RangesOf, Flatten, Lit, KeyText, R.PadAll, AllStand, KeysText, R.HasParts, R.IsValid;
    RecordLaws.LayoutInvariance(l, account, values);
    var v := R.PadAll(l, account, values).value;
    R.PadAllFits(l, account, values);
    R.ResponseHasParts(l, v);
    var ps := R.ResponsePieces(l, v);
    RecordKinds(l, v, StatusLine);
    RecordKinds(l, v, ContentTypeLine);
    RecordKinds(l, v, Key);
    KindStands(ps, StatusLine);
    KindStands(ps, ContentTypeLine);
    KindStands(ps, Key);
    RevealedStand(Flatten(ps), RangesOf(ps, StatusLine, 0), RangesOf(ps, ContentTypeLine, 0), RangesOf(ps, Key, 0),
      l.statusLine, Lit("Content-Type: ") + l.contentType, [KeyText(Lit("account")), KeyText(Lit("record"))] + KeysText(l.fields));
  }

  // ---------- The exchange ----------

  /** The request of a shape, and its template: the response for an empty record. */
  lemma TitleExchange(l: L.Layout, propertyId: Bytes)
    requires L.Validate(l).Ok?
    ensures var s := TitleShape.ShapeOf(l, propertyId);
      && s.serverName == l.serverName
      && s.requestLine == Lit("GET ") + (l.pathPrefix + propertyId) + Lit(" HTTP/1.1")
      && |s.template| == s.len && L.Render(l, [], L.TitleRecord([], [], [], [], [])).Ok?
      && s.template == L.Render(l, [], L.TitleRecord([], [], [], [], [])).value.bytes
  {
    hide L.Render;
    LayoutLaws.RendersIff(l, [], LayoutLaws.BLANK);
    LayoutLaws.LayoutInvariance(l, [], LayoutLaws.BLANK);
  }

  lemma RecordExchange(l: R.RecordLayout, subject: Bytes)
    requires R.IsValid(l)
    ensures var s := RecordLaws.ShapeOf(l, subject);
      && s.serverName == l.serverName
      && s.requestLine == Lit("GET ") + (l.pathPrefix + subject) + Lit(" HTTP/1.1")
      && |s.template| == s.len && R.Render(l, [], seq(|l.fields|, i => [])).Ok?
      && s.template == R.Render(l, [], seq(|l.fields|, i => [])).value.bytes
  {
    hide R.Render, R.IsValid;
    RecordLaws.RendersIff(l, [], RecordLaws.Blanks(l));
    RecordLaws.LayoutInvariance(l, [], RecordLaws.Blanks(l));
    assert RecordLaws.Blanks(l) == seq(|l.fields|, i => []);
  }
}
