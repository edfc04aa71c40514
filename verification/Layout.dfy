/** The fixed-layout title response. */
module Layout {
  import opened Wrappers
  import opened Bytes
  import opened Text
  import opened Pieces

  const KEY_ACCOUNT := "account"
  const KEY_RECORD := "record"
  const KEY_PROPERTY_ID := "propertyId"
  const KEY_OWNERS := "owners"
  const KEY_ENCUMBRANCE := "encumbrance"
  const KEY_ASSESSED_VALUE := "assessedValue"
  const KEY_RECORD_DATE := "recordDate"

  datatype Layout = Layout(
    id: Bytes,
    serverName: Bytes,
    pathPrefix: Bytes,
    statusLine: Bytes,
    contentType: Bytes,
    padding: Bytes,
    accountWidth: nat,
    propertyIdWidth: nat,
    ownerSlots: nat,
    encumbranceWidth: nat,
    assessedValueWidth: nat,
    recordDateWidth: nat)

  datatype LayoutError = Padding | OwnerSlots | Width

  /** `validate`. */
  function Validate(l: Layout): Result<(), LayoutError> {
    if !(|l.padding| == 1 && l.padding[0] < 0x80) then Err(Padding)
    else if l.ownerSlots == 0 then Err(OwnerSlots)
    else if 0 in [l.accountWidth, l.propertyIdWidth, l.encumbranceWidth, l.assessedValueWidth, l.recordDateWidth] then Err(Width)
    else Ok(())
  }

  /** A layout pads with one ASCII character, has an owner slot, and leaves no field without width. */
  lemma ValidateIff(l: Layout)
    ensures Validate(l).Ok? <==>
      && |l.padding| == 1 && l.padding[0] < 128 && 0 < l.ownerSlots
      && 0 < l.accountWidth && 0 < l.propertyIdWidth && 0 < l.encumbranceWidth && 0 < l.assessedValueWidth && 0 < l.recordDateWidth
  {
  }

  datatype TitleRecord = TitleRecord(
    propertyId: Bytes,
    owners: seq<Bytes>,
    encumbrance: Bytes,
    assessedValue: Bytes,
    recordDate: Bytes)

  /** The padded values of one response. */
  datatype Values = Values(
    account: Bytes,
    propertyId: Bytes,
    owners: seq<Bytes>,
    encumbrance: Bytes,
    assessedValue: Bytes,
    recordDate: Bytes)

  datatype RenderError = TooManyOwners | BadValue(error: ValueError)

  function Pad(l: Layout, value: Bytes, width: nat): Result<Bytes, RenderError>
    requires Validate(l).Ok?
  {
    match PadValue(l.padding[0], value, width)
    case Ok(v) => Ok(v)
    case Err(e) => Err(BadValue(e))
  }

  /** The value of owner slot `i`: empty past the last owner. */
  function OwnerAt(record: TitleRecord, i: nat): Bytes {
    if i < |record.owners| then record.owners[i] else []
  }

  /** The first `n` owner slots. */
  function PadOwners(l: Layout, record: TitleRecord, n: nat): Result<seq<Bytes>, RenderError>
    requires Validate(l).Ok?
  {
    if n == 0 then Ok([])
    else
      var before :- PadOwners(l, record, n - 1);
      var last :- Pad(l, OwnerAt(record, n - 1), l.accountWidth);
      Ok(before + [last])
  }

  /** The fields behind the owners. */
  function PadBack(l: Layout, record: TitleRecord): Result<(Bytes, Bytes, Bytes), RenderError>
    requires Validate(l).Ok?
  {
    var encumbrance :- Pad(l, record.encumbrance, l.encumbranceWidth);
    var assessedValue :- Pad(l, record.assessedValue, l.assessedValueWidth);
    var recordDate :- Pad(l, record.recordDate, l.recordDateWidth);
    Ok((encumbrance, assessedValue, recordDate))
  }

  /** Every value of the response, padded in the order they are written. */
  function PadAll(l: Layout, account: Bytes, record: TitleRecord): Result<Values, RenderError>
    requires Validate(l).Ok?
  {
    if l.ownerSlots < |record.owners| then Err(TooManyOwners)
    else
      var account :- Pad(l, account, l.accountWidth);
      var propertyId :- Pad(l, record.propertyId, l.propertyIdWidth);
      var owners :- PadOwners(l, record, l.ownerSlots);
      var (encumbrance, assessedValue, recordDate) :- PadBack(l, record);
      Ok(Values(account, propertyId, owners, encumbrance, assessedValue, recordDate))
  }

  // ---------- The response as pieces ----------

  function PlainPiece(s: string): Piece {
    Piece(Plain, Lit(s))
  }

  function FrontPieces(account: Bytes, propertyId: Bytes): seq<Piece> {
    [PlainPiece("{"), KeyPiece(Lit(KEY_ACCOUNT))] + Quoted(Account, account)
    + [PlainPiece(","), KeyPiece(Lit(KEY_RECORD)), PlainPiece("{"), KeyPiece(Lit(KEY_PROPERTY_ID))]
    + Quoted(PropertyId, propertyId)
    + [PlainPiece(","), KeyPiece(Lit(KEY_OWNERS)), PlainPiece("[")]
  }

  function OwnerPieces(owners: seq<Bytes>): seq<Piece> {
    if owners == [] then []
    else
      var n := |owners| - 1;
      OwnerPieces(owners[..n]) + (if n > 0 then [PlainPiece(",")] else []) + Quoted(Owner, owners[n])
  }

  function BackPieces(encumbrance: Bytes, assessedValue: Bytes, recordDate: Bytes): seq<Piece> {
    [PlainPiece("],"), KeyPiece(Lit(KEY_ENCUMBRANCE))] + Quoted(Unreported, encumbrance)
    + [PlainPiece(","), KeyPiece(Lit(KEY_ASSESSED_VALUE))] + Quoted(Unreported, assessedValue)
    + [PlainPiece(","), KeyPiece(Lit(KEY_RECORD_DATE))] + Quoted(Unreported, recordDate)
    + [PlainPiece("}}")]
  }

  function BodyPieces(v: Values): seq<Piece> {
    FrontPieces(v.account, v.propertyId) + OwnerPieces(v.owners)
    + BackPieces(v.encumbrance, v.assessedValue, v.recordDate)
  }

  /** The response head for a body of `length` bytes. */
  function HeadPieces(statusLine: Bytes, contentType: Bytes, length: nat): seq<Piece> {
    [Piece(StatusLine, statusLine), PlainPiece("\r\n"),
     Piece(ContentTypeLine, Lit("Content-Type: ") + contentType), PlainPiece("\r\n"),
     PlainPiece("Content-Length: " + Decimal(length) + "\r\n"), PlainPiece("Connection: close\r\n\r\n")]
  }

  function ResponsePieces(l: Layout, v: Values): seq<Piece> {
    HeadPieces(l.statusLine, l.contentType, |Flatten(BodyPieces(v))|) + BodyPieces(v)
  }

  // ---------- Ranges ----------

  datatype ResponseRanges = ResponseRanges(
    len: nat,
    statusLine: Range,
    contentTypeLine: Range,
    keys: seq<Range>,
    account: Range,
    owners: Range,
    ownerSlotOffsets: seq<nat>,
    propertyId: Range)
  {
    function Revealed(): seq<Range> {
      [statusLine, contentTypeLine] + keys
    }

    function Hidden(): seq<Range> {
      [account, owners, propertyId]
    }
  }

  datatype Rendered = Rendered(bytes: Bytes, ranges: ResponseRanges)

  ghost predicate HasTitleParts(ps: seq<Piece>) {
    forall t | t in {StatusLine, ContentTypeLine, Account, PropertyId, Owner} :: RangesOf(ps, t, 0) != []
  }

  /** The reported ranges, read off the pieces. */
  ghost function TitleRanges(ps: seq<Piece>): ResponseRanges
    requires HasTitleParts(ps)
  {
    FirstStartsFirst(ps, Owner);
    var slots := RangesOf(ps, Owner, 0);
    ResponseRanges(
      |Flatten(ps)|,
      RangesOf(ps, StatusLine, 0)[0],
      RangesOf(ps, ContentTypeLine, 0)[0],
      RangesOf(ps, Key, 0),
      RangesOf(ps, Account, 0)[0],
      Range(slots[0].start, slots[|slots| - 1].end),
      OffsetsFrom(slots, slots[0].start),
      RangesOf(ps, PropertyId, 0)[0])
  }

  /** Start of each range, relative to `start`. */
  function OffsetsFrom(rs: seq<Range>, start: nat): (r: seq<nat>)
    requires forall q | q in rs :: start <= q.start
    ensures |r| == |rs| && forall i | 0 <= i < |rs| :: r[i] == rs[i].start - start
  {
    if rs == [] then [] else assert rs[0] in rs; [rs[0].start - start] + OffsetsFrom(rs[1..], start)
  }

  lemma FirstStartsFirst(ps: seq<Piece>, tag: Tag)
    ensures var rs := RangesOf(ps, tag, 0); forall q | q in rs :: rs[0].start <= q.start
  {
    KindInOrder(ps, tag, 0);
    RangesWithin(ps, tag, 0);
    var rs := RangesOf(ps, tag, 0);
    forall q | q in rs
      ensures rs[0].start <= q.start
    {
      var i :| 0 <= i < |rs| && rs[i] == q;
      assert rs[0] in rs;
    }
  }

  /** Every value has its width. */
  predicate Fits(l: Layout, v: Values) {
    && |v.account| == l.accountWidth && |v.propertyId| == l.propertyIdWidth
    && |v.owners| == l.ownerSlots && (forall o | o in v.owners :: |o| == l.accountWidth)
    && |v.encumbrance| == l.encumbranceWidth && |v.assessedValue| == l.assessedValueWidth
    && |v.recordDate| == l.recordDateWidth
  }

  lemma {:induction false} PadOwnersFits(l: Layout, record: TitleRecord, n: nat)
    requires Validate(l).Ok? && PadOwners(l, record, n).Ok?
    ensures |PadOwners(l, record, n).value| == n
    ensures forall o | o in PadOwners(l, record, n).value :: |o| == l.accountWidth
  {
    if n > 0 {
      PadOwnersFits(l, record, n - 1);
    }
  }

  lemma PadAllFits(l: Layout, account: Bytes, record: TitleRecord)
    requires Validate(l).Ok? && PadAll(l, account, record).Ok?
    ensures Fits(l, PadAll(l, account, record).value)
  {
    PadOwnersFits(l, record, l.ownerSlots);
  }

  lemma {:induction false} TagPresent(ps: seq<Piece>, i: nat, at: nat)
    requires i < |ps|
    ensures RangesOf(ps, ps[i].tag, at) != []
  {
    if i > 0 {
      TagPresent(ps[1..], i - 1, at + |ps[0].text|);
    }
  }

  lemma FrontHasParts(account: Bytes, propertyId: Bytes)
    ensures var ps := FrontPieces(account, propertyId);
      11 <= |ps| && ps[3].tag == Account && ps[10].tag == PropertyId
  {
  }

  lemma LastOwnerPiece(owners: seq<Bytes>)
    requires owners != []
    ensures var ps := OwnerPieces(owners); 3 <= |ps| && ps[|ps| - 2].tag == Owner
  {
  }

  lemma ResponseHasParts(l: Layout, v: Values)
    requires v.owners != []
    ensures HasTitleParts(ResponsePieces(l, v))
  {
    hide FrontPieces, OwnerPieces, BackPieces, RangesOf, Flatten, Decimal;
    var ps := ResponsePieces(l, v);
    var front, owners := FrontPieces(v.account, v.propertyId), OwnerPieces(v.owners);
    FrontHasParts(v.account, v.propertyId);
    LastOwnerPiece(v.owners);
    assert ps[9] == front[3] && ps[16] == front[10];
    var k := 6 + |front| + |owners| - 2;
    assert ps[k] == owners[|owners| - 2];
    TagPresent(ps, 0, 0);
    TagPresent(ps, 2, 0);
    TagPresent(ps, 9, 0);
    TagPresent(ps, 16, 0);
    TagPresent(ps, k, 0);
  }

  /** What `render_response` answers. */
  ghost function Render(l: Layout, account: Bytes, record: TitleRecord): Result<Rendered, RenderError>
    requires Validate(l).Ok?
  {
    var v :- PadAll(l, account, record);
    PadAllFits(l, account, record);
    ResponseHasParts(l, v);
    Ok(Rendered(Flatten(ResponsePieces(l, v)), TitleRanges(ResponsePieces(l, v))))
  }

  lemma {:induction false} PadOwnersFails(l: Layout, record: TitleRecord, i: nat, n: nat)
    requires Validate(l).Ok? && i <= n && PadOwners(l, record, i).Err?
    ensures PadOwners(l, record, n) == PadOwners(l, record, i)
    decreases n
  {
    if i < n {
      PadOwnersFails(l, record, i, n - 1);
    }
  }

  ghost predicate HeadRanges(head: seq<Piece>, s: Range, c: Range) {
    forall t: Tag :: t != Plain ==>
      RangesOf(head, t, 0) == if t == StatusLine then [s] else if t == ContentTypeLine then [c] else []
  }

  /** Writes the response head. */
  method WriteHead(head: Writer, statusLine: Bytes, contentType: Bytes, length: nat) returns (s: Range, c: Range)
    requires head.Valid() && head.pieces == []
    modifies head
    ensures head.Valid() && head.pieces == HeadPieces(statusLine, contentType, length)
    ensures HeadRanges(head.pieces, s, c)
  {
    hide Flatten, Lit, Decimal;
    s := head.Literal(statusLine, StatusLine);
    var x := head.Literal(Lit("\r\n"), Plain);
    c := head.Literal(Lit("Content-Type: ") + contentType, ContentTypeLine);
    x := head.Literal(Lit("\r\n"), Plain);
    x := head.Literal(Lit("Content-Length: " + Decimal(length) + "\r\n"), Plain);
    x := head.Literal(Lit("Connection: close\r\n\r\n"), Plain);
  }

  /** Writes some punctuation and a key. */
  method WriteOpenKey(body: Writer, open: string, key: string) returns (k: Range)
    requires body.Valid()
    modifies body
    ensures body.Valid() && body.pieces == old(body.pieces) + [PlainPiece(open), KeyPiece(Lit(key))]
    ensures forall t: Tag :: t != Plain ==> RangesOf(body.pieces, t, 0) == RangesOf(old(body.pieces), t, 0) + (if t == Key then [k] else [])
  {
    hide Flatten, Lit, RangesOf, KeyPiece;
    var x := body.Literal(Lit(open), Plain);
    k := body.WriteKey(Lit(key));
  }

  lemma FrontInParts(account: Bytes, propertyId: Bytes)
    ensures FrontPieces(account, propertyId)
      == [PlainPiece("{"), KeyPiece(Lit(KEY_ACCOUNT))] + Quoted(Account, account)
       + [PlainPiece(","), KeyPiece(Lit(KEY_RECORD))] + [PlainPiece("{"), KeyPiece(Lit(KEY_PROPERTY_ID))]
       + Quoted(PropertyId, propertyId)
       + [PlainPiece(","), KeyPiece(Lit(KEY_OWNERS))] + [PlainPiece("[")]
  {
  }

  method WriteFront(body: Writer, account: Bytes, propertyId: Bytes) returns (keys: seq<Range>, a: Range, p: Range)
    requires body.Valid() && body.pieces == []
    modifies body
    ensures body.Valid() && body.pieces == FrontPieces(account, propertyId)
    ensures forall t: Tag :: t != Plain ==>
      RangesOf(body.pieces, t, 0) == if t == Key then keys else if t == Account then [a] else if t == PropertyId then [p] else []
  {
    hide Flatten, Lit, FrontPieces, KeyPiece, Quoted;
    var k := WriteOpenKey(body, "{", KEY_ACCOUNT);
    keys := [k];
    a := body.WriteString(account, Account);
    k := WriteOpenKey(body, ",", KEY_RECORD);
    keys := keys + [k];
    k := WriteOpenKey(body, "{", KEY_PROPERTY_ID);
    keys := keys + [k];
    p := body.WriteString(propertyId, PropertyId);
    k := WriteOpenKey(body, ",", KEY_OWNERS);
    keys := keys + [k];
    var x := body.Literal(Lit("["), Plain);
    FrontInParts(account, propertyId);
  }

  /** Writes one owner slot, behind a comma unless it is the first. */
  method WriteSlot(body: Writer, first: bool, owner: Bytes) returns (slot: Range)
    requires body.Valid()
    modifies body
    ensures body.Valid() && body.pieces == old(body.pieces) + (if first then [] else [PlainPiece(",")]) + Quoted(Owner, owner)
    ensures forall t: Tag :: t != Plain ==> RangesOf(body.pieces, t, 0) == RangesOf(old(body.pieces), t, 0) + (if t == Owner then [slot] else [])
  {
    hide RangesOf, Flatten, Lit, Quoted;
    if !first {
      var x := body.Literal(Lit(","), Plain);
    }
    slot := body.WriteString(owner, Owner);
  }

  /** Writes a key and a padded value that is not reported. */
  method WriteMember(l: Layout, body: Writer, open: string, key: string, value: Bytes, width: nat)
    returns (r: Result<Range, RenderError>, ghost padded: Bytes)
    requires Validate(l).Ok? && body.Valid()
    modifies body
    ensures body.Valid()
    ensures r.Err? ==> Pad(l, value, width) == Err(r.error)
    ensures r.Ok? ==> Pad(l, value, width) == Ok(padded)
    ensures r.Ok? ==> body.pieces == old(body.pieces) + [PlainPiece(open), KeyPiece(Lit(key))] + Quoted(Unreported, padded)
    ensures r.Ok? ==> forall t: Tag :: t != Plain && t != Unreported ==>
      RangesOf(body.pieces, t, 0) == RangesOf(old(body.pieces), t, 0) + (if t == Key then [r.value] else [])
  {
    hide Pad, RangesOf, Flatten, Lit, Quoted, KeyPiece;
    padded := [];
    var k := WriteOpenKey(body, open, key);
    var v := Pad(l, value, width);
    if v.Err? {
      return Err(v.error), padded;
    }
    padded := v.value;
    var x := body.WriteString(v.value, Unreported);
    r := Ok(k);
  }

  lemma NoOwnerPieces()
    ensures OwnerPieces([]) == []
  {
  }

  lemma OwnerPiecesAppend(owners: seq<Bytes>, o: Bytes)
    ensures OwnerPieces(owners + [o])
      == OwnerPieces(owners) + (if owners != [] then [PlainPiece(",")] else []) + Quoted(Owner, o)
  {
    assert (owners + [o])[..|owners|] == owners;
  }

  /** Pads and writes every owner slot, unused ones empty. */
  method WriteOwners(l: Layout, body: Writer, record: TitleRecord) returns (r: Result<seq<Range>, RenderError>, ghost owners: seq<Bytes>)
    requires Validate(l).Ok? && body.Valid()
    modifies body
    ensures body.Valid()
    ensures r.Err? ==> PadOwners(l, record, l.ownerSlots) == Err(r.error)
    ensures r.Ok? ==> PadOwners(l, record, l.ownerSlots) == Ok(owners) && |r.value| == |owners|
    ensures r.Ok? ==> body.pieces == old(body.pieces) + OwnerPieces(owners)
    ensures r.Ok? ==> forall t: Tag :: t != Plain ==>
      RangesOf(body.pieces, t, 0) == RangesOf(old(body.pieces), t, 0) + (if t == Owner then r.value else [])
  {
    hide Pad, RangesOf, Flatten, Lit, Quoted, OwnerPieces, PlainPiece, OwnerAt;
    NoOwnerPieces();
    var slots: seq<Range> := [];
    owners := [];
    ghost var before := body.pieces;
    for i := 0 to l.ownerSlots
      invariant body.Valid() && |owners| == |slots| == i && PadOwners(l, record, i) == Ok(owners)
      invariant body.pieces == before + OwnerPieces(owners)
      invariant forall t: Tag :: t != Plain ==>
        RangesOf(body.pieces, t, 0) == RangesOf(old(body.pieces), t, 0) + (if t == Owner then slots else [])
    {
      var owner := Pad(l, OwnerAt(record, i), l.accountWidth);
      if owner.Err? {
        PadOwnersFails(l, record, i + 1, l.ownerSlots);
        return Err(owner.error), owners;
      }
      var slot := WriteSlot(body, i == 0, owner.value);
      slots := slots + [slot];
      OwnerPiecesAppend(owners, owner.value);
      owners := owners + [owner.value];
    }
    r := Ok(slots);
  }

  lemma Gather<T>(before: seq<T>, a: seq<T>, b: seq<T>, c: seq<T>, d: seq<T>, e: seq<T>, f: seq<T>, g: seq<T>)
    ensures before + a + b + c + d + e + f + g == before + (a + b + c + d + e + f + g)
  {
  }

  lemma LastPlain(s: string)
    ensures [PlainPiece(s)] == [Piece(Plain, Lit(s))]
  {
  }

  /** Pads and writes the fields behind the owners. */
  method WriteBack(l: Layout, body: Writer, record: TitleRecord) returns (r: Result<seq<Range>, RenderError>, ghost v: (Bytes, Bytes, Bytes))
    requires Validate(l).Ok? && body.Valid()
    modifies body
    ensures body.Valid()
    ensures r.Err? ==> PadBack(l, record) == Err(r.error)
    ensures r.Ok? ==> PadBack(l, record) == Ok(v) && body.pieces == old(body.pieces) + BackPieces(v.0, v.1, v.2)
    ensures r.Ok? ==> forall t: Tag :: t != Plain && t != Unreported ==>
      RangesOf(body.pieces, t, 0) == RangesOf(old(body.pieces), t, 0) + (if t == Key then r.value else [])
  {
    hide Pad, RangesOf, Flatten, Lit, KeyPiece, Quoted, PlainPiece;
    v := ([], [], []);
    var k, e := WriteMember(l, body, "],", KEY_ENCUMBRANCE, record.encumbrance, l.encumbranceWidth);
    if k.Err? {
      return k.PropagateFailure(), v;
    }
    var keys := [k.value];
    ghost var a, d;
    k, a := WriteMember(l, body, ",", KEY_ASSESSED_VALUE, record.assessedValue, l.assessedValueWidth);
    if k.Err? {
      return k.PropagateFailure(), v;
    }
    keys := keys + [k.value];
    k, d := WriteMember(l, body, ",", KEY_RECORD_DATE, record.recordDate, l.recordDateWidth);
    if k.Err? {
      return k.PropagateFailure(), v;
    }
    keys := keys + [k.value];
    var x := body.Literal(Lit("}}"), Plain);
    v := (e, a, d);
    r := Ok(keys);
    Gather(old(body.pieces), [PlainPiece("],"), KeyPiece(Lit(KEY_ENCUMBRANCE))], Quoted(Unreported, e),
      [PlainPiece(","), KeyPiece(Lit(KEY_ASSESSED_VALUE))], Quoted(Unreported, a),
      [PlainPiece(","), KeyPiece(Lit(KEY_RECORD_DATE))], Quoted(Unreported, d), [PlainPiece("}}")]);
    LastPlain("}}");
  }

  /** Ranges in the body move behind the head. */
  lemma RangesBehindHead(head: seq<Piece>, body: seq<Piece>, tag: Tag)
    ensures RangesOf(head + body, tag, 0) == RangesOf(head, tag, 0) + ShiftAll(RangesOf(body, tag, 0), |Flatten(head)|)
  {
    RangesConcat(head, body, tag, 0);
    RangesAt(body, tag, |Flatten(head)|);
  }

  /** The ranges of a written body. */
  datatype BodyParts = BodyParts(keys: seq<Range>, account: Range, propertyId: Range, slots: seq<Range>)

  function BodyRanges(b: BodyParts, t: Tag): seq<Range> {
    if t == Key then b.keys
    else if t == Account then [b.account]
    else if t == PropertyId then [b.propertyId]
    else if t == Owner then b.slots
    else []
  }

  method WriteBody(l: Layout, body: Writer, account: Bytes, record: TitleRecord)
    returns (r: Result<BodyParts, RenderError>, ghost v: Values)
    requires Validate(l).Ok? && body.Valid() && body.pieces == [] && |record.owners| <= l.ownerSlots
    modifies body
    ensures r.Err? ==> PadAll(l, account, record) == Err(r.error)
    ensures r.Ok? ==> PadAll(l, account, record) == Ok(v) && body.Valid() && body.pieces == BodyPieces(v) && |r.value.slots| == |v.owners|
    ensures r.Ok? ==> forall t: Tag :: t != Plain && t != Unreported ==> RangesOf(body.pieces, t, 0) == BodyRanges(r.value, t)
  {
    hide Pad, RangesOf, Flatten, Lit, FrontPieces, OwnerPieces, BackPieces, PadOwners, PadBack;
    v := Values([], [], [], [], [], []);
    var a := Pad(l, account, l.accountWidth);
    if a.Err? {
      return Err(a.error), v;
    }
    var p := Pad(l, record.propertyId, l.propertyIdWidth);
    if p.Err? {
      return Err(p.error), v;
    }
    var keys, accountRange, propertyRange := WriteFront(body, a.value, p.value);
    var slots, owners := WriteOwners(l, body, record);
    if slots.Err? {
      return Err(slots.error), v;
    }
    var moreKeys, back := WriteBack(l, body, record);
    if moreKeys.Err? {
      return Err(moreKeys.error), v;
    }
    v := Values(a.value, p.value, owners, back.0, back.1, back.2);
    r := Ok(BodyParts(keys + moreKeys.value, accountRange, propertyRange, slots.value));
  }

  lemma WholeRanges(head: seq<Piece>, body: seq<Piece>, s: Range, c: Range, b: BodyParts, t: Tag)
    requires HeadRanges(head, s, c) && t != Plain && RangesOf(body, t, 0) == BodyRanges(b, t)
    ensures RangesOf(head + body, t, 0) ==
      if t == StatusLine then [s]
      else if t == ContentTypeLine then [c]
      else ShiftAll(BodyRanges(b, t), |Flatten(head)|)
  {
    hide RangesOf, Flatten;
    RangesBehindHead(head, body, t);
    assert ShiftAll([], |Flatten(head)|) == [];
  }

  /** The ranges of the whole response, from those of its head and its body. */
  function Place(s: Range, c: Range, b: BodyParts, headLength: nat, bodyLength: nat): ResponseRanges
    requires b.slots != [] && forall q | q in ShiftAll(b.slots, headLength) :: ShiftAll(b.slots, headLength)[0].start <= q.start
  {
    var slots := ShiftAll(b.slots, headLength);
    ResponseRanges(
      headLength + bodyLength, s, c, ShiftAll(b.keys, headLength), b.account.Shift(headLength),
      Range(slots[0].start, slots[|slots| - 1].end), OffsetsFrom(slots, slots[0].start), b.propertyId.Shift(headLength))
  }

  lemma PartsMove(head: seq<Piece>, body: seq<Piece>, s: Range, c: Range, b: BodyParts)
    requires HeadRanges(head, s, c)
    requires forall t: Tag :: t != Plain && t != Unreported ==> RangesOf(body, t, 0) == BodyRanges(b, t)
    ensures var (ps, n) := (head + body, |Flatten(head)|);
      && RangesOf(ps, StatusLine, 0) == [s] && RangesOf(ps, ContentTypeLine, 0) == [c]
      && RangesOf(ps, Key, 0) == ShiftAll(b.keys, n) && RangesOf(ps, Account, 0) == [b.account.Shift(n)]
      && RangesOf(ps, PropertyId, 0) == [b.propertyId.Shift(n)] && RangesOf(ps, Owner, 0) == ShiftAll(b.slots, n)
  {
    hide RangesOf, Flatten, ShiftAll;
    WholeRanges(head, body, s, c, b, StatusLine);
    WholeRanges(head, body, s, c, b, ContentTypeLine);
    WholeRanges(head, body, s, c, b, Key);
    WholeRanges(head, body, s, c, b, Account);
    WholeRanges(head, body, s, c, b, PropertyId);
    WholeRanges(head, body, s, c, b, Owner);
    ShiftOne(b.account, |Flatten(head)|);
    ShiftOne(b.propertyId, |Flatten(head)|);
  }

  lemma Assembled(head: seq<Piece>, body: seq<Piece>, s: Range, c: Range, b: BodyParts)
    requires b.slots != [] && HeadRanges(head, s, c)
    requires forall t: Tag :: t != Plain && t != Unreported ==> RangesOf(body, t, 0) == BodyRanges(b, t)
    ensures HasTitleParts(head + body)
    ensures var slots := ShiftAll(b.slots, |Flatten(head)|);
      && (forall q | q in slots :: slots[0].start <= q.start)
      && TitleRanges(head + body) == Place(s, c, b, |Flatten(head)|, |Flatten(body)|)
  {
    hide RangesOf, Flatten, OffsetsFrom, BodyRanges, ShiftAll, HeadRanges;
    PartsMove(head, body, s, c, b);
    FlattenConcat(head, body);
    FirstStartsFirst(head + body, Owner);
  }

  lemma RefusesTooMany(l: Layout, account: Bytes, record: TitleRecord)
    requires Validate(l).Ok?
    ensures l.ownerSlots < |record.owners| ==> PadAll(l, account, record) == Err(TooManyOwners)
  {
  }

  /** Renders the full response, head after body, with the byte range of every part. */
  method RenderResponse(l: Layout, account: Bytes, record: TitleRecord) returns (r: Result<Rendered, RenderError>)
    requires Validate(l).Ok?
    ensures r == Render(l, account, record)
  {
    hide RangesOf, Flatten, FrontPieces, OwnerPieces, BackPieces, HeadPieces, TitleRanges, Place, PadAll, BodyRanges;
    if l.ownerSlots < |record.owners| {
      RefusesTooMany(l, account, record);
      return Err(TooManyOwners);
    }
    var body := new Writer();
    var parts, v := WriteBody(l, body, account, record);
    if parts.Err? {
      return Err(parts.error);
    }
    PadAllFits(l, account, record);
    ResponseHasParts(l, v);
    var head := new Writer();
    var statusLine, contentTypeLine := WriteHead(head, l.statusLine, l.contentType, |body.bytes|);
    Assembled(head.pieces, body.pieces, statusLine, contentTypeLine, parts.value);
    FlattenConcat(head.pieces, body.pieces);
    r := Ok(Rendered(head.bytes + body.bytes, Place(statusLine, contentTypeLine, parts.value, |head.bytes|, |body.bytes|)));
  }
}
