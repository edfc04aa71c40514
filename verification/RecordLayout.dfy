/** Responses that carry one record of padded fields, as the Apply and Settle phases attest them. */
module RecordLayout {
  import opened Wrappers
  import opened Bytes
  import opened Pieces
  import L = Layout

  datatype RecordField = RecordField(key: Bytes, width: nat)

  datatype RecordLayout = RecordLayout(
    id: Bytes,
    serverName: Bytes,
    pathPrefix: Bytes,
    statusLine: Bytes,
    contentType: Bytes,
    padding: Bytes,
    accountWidth: nat,
    fields: seq<RecordField>)

  // ---------- Which layouts are accepted ----------

  datatype FieldProblem = ZeroWidth | NotPlain | Reserved | Duplicate

  datatype LayoutError = Padding | AccountWidth | NoFields | BadField(index: nat, problem: FieldProblem)

  predicate IsKeyByte(b: Byte) {
    0x30 <= b <= 0x39 || 0x41 <= b <= 0x5a || 0x61 <= b <= 0x7a || b == 0x5f
  }

  /** A plain identifier. */
  predicate IsPlain(key: Bytes) {
    key != [] && forall i | 0 <= i < |key| :: IsKeyByte(key[i])
  }

  lemma PlainChars(s: string)
    requires IsAscii(s)
    ensures IsPlain(AsciiBytes(s)) <==>
      s != "" && forall i | 0 <= i < |s| :: 'a' <= s[i] <= 'z' || 'A' <= s[i] <= 'Z' || '0' <= s[i] <= '9' || s[i] == '_'
  {
    forall i | 0 <= i < |s|
      ensures AsciiBytes(s)[i] as char == s[i]
    {
    }
  }

  predicate IsReserved(key: Bytes) {
    key == Lit(L.KEY_ACCOUNT) || key == Lit(L.KEY_RECORD)
  }

  /** What is wrong with field `i`, given the fields in front of it. */
  function ProblemOf(fields: seq<RecordField>, i: nat): Option<FieldProblem>
    requires i < |fields|
  {
    var f := fields[i];
    if f.width == 0 then Some(ZeroWidth)
    else if !IsPlain(f.key) then Some(NotPlain)
    else if IsReserved(f.key) then Some(Reserved)
    else if exists j | 0 <= j < i :: fields[j].key == f.key then Some(Duplicate)
    else None
  }

  /** A layout every response of which can be told apart field by field. */
  predicate IsValid(l: RecordLayout) {
    && |l.padding| == 1 && l.padding[0] < 0x80
    && l.accountWidth > 0
    && l.fields != []
    && (forall i | 0 <= i < |l.fields| :: l.fields[i].width > 0 && IsPlain(l.fields[i].key) && !IsReserved(l.fields[i].key))
    && forall i, j | 0 <= i < j < |l.fields| :: l.fields[i].key != l.fields[j].key
  }

  lemma ValidIff(l: RecordLayout)
    ensures IsValid(l) <==>
      && |l.padding| == 1 && l.padding[0] < 0x80 && l.accountWidth > 0 && l.fields != []
      && forall i | 0 <= i < |l.fields| :: ProblemOf(l.fields, i).None?
  {
    hide Lit, IsPlain, IsReserved;
    if IsValid(l) {
      forall i | 0 <= i < |l.fields|
        ensures ProblemOf(l.fields, i).None?
      {
      }
    }
    if forall i | 0 <= i < |l.fields| :: ProblemOf(l.fields, i).None? {
      forall i, j | 0 <= i < j < |l.fields|
        ensures l.fields[i].key != l.fields[j].key
      {
        assert ProblemOf(l.fields, j).None?;
      }
      forall i | 0 <= i < |l.fields|
        ensures l.fields[i].width > 0 && IsPlain(l.fields[i].key) && !IsReserved(l.fields[i].key)
      {
        assert ProblemOf(l.fields, i).None?;
      }
    }
  }

  /** `validate`: the first problem, field by field. */
  method Validate(l: RecordLayout) returns (r: Result<(), LayoutError>)
    ensures r.Ok? <==> IsValid(l)
    ensures r.Err? && r.error.BadField? ==>
      && r.error.index < |l.fields|
      && ProblemOf(l.fields, r.error.index) == Some(r.error.problem)
      && forall j | 0 <= j < r.error.index :: ProblemOf(l.fields, j).None?
  {
    hide ProblemOf, IsValid;
    ValidIff(l);
    if !(|l.padding| == 1 && l.padding[0] < 0x80) {
      return Err(Padding);
    }
    if l.accountWidth == 0 {
      return Err(AccountWidth);
    }
    if l.fields == [] {
      return Err(NoFields);
    }
    for i := 0 to |l.fields|
      invariant forall j | 0 <= j < i :: ProblemOf(l.fields, j).None?
    {
      var problem := ProblemOf(l.fields, i);
      if problem.Some? {
        return Err(BadField(i, problem.value));
      }
    }
    r := Ok(());
  }

  // ---------- The response ----------

  datatype RenderError = WrongCount | BadValue(error: ValueError)

  function Pad(l: RecordLayout, value: Bytes, width: nat): Result<Bytes, RenderError>
    requires IsValid(l)
  {
    match PadValue(l.padding[0], value, width)
    case Ok(v) => Ok(v)
    case Err(e) => Err(BadValue(e))
  }

  /** The padded values of the first `n` fields. */
  function PadFields(l: RecordLayout, values: seq<Bytes>, n: nat): Result<seq<Bytes>, RenderError>
    requires IsValid(l) && n <= |values| == |l.fields|
  {
    if n == 0 then Ok([])
    else
      var before :- PadFields(l, values, n - 1);
      var last :- Pad(l, values[n - 1], l.fields[n - 1].width);
      Ok(before + [last])
  }

  datatype Values = Values(account: Bytes, fields: seq<Bytes>)

  function PadAll(l: RecordLayout, account: Bytes, values: seq<Bytes>): Result<Values, RenderError>
    requires IsValid(l)
  {
    if |values| != |l.fields| then Err(WrongCount)
    else
      var account :- Pad(l, account, l.accountWidth);
      var fields :- PadFields(l, values, |values|);
      Ok(Values(account, fields))
  }

  function FrontPieces(account: Bytes): seq<Piece> {
    [L.PlainPiece("{"), KeyPiece(Lit(L.KEY_ACCOUNT))] + Quoted(Account, account)
    + [L.PlainPiece(","), KeyPiece(Lit(L.KEY_RECORD)), L.PlainPiece("{")]
  }

  /** The first `|values|` fields of a record. */
  function FieldPieces(fields: seq<RecordField>, values: seq<Bytes>): seq<Piece>
    requires |values| <= |fields|
  {
    if values == [] then []
    else
      var n := |values| - 1;
      FieldPieces(fields, values[..n]) + (if n > 0 then [L.PlainPiece(",")] else []) + [KeyPiece(fields[n].key)]
      + Quoted(Field, values[n])
  }

  function BodyPieces(l: RecordLayout, v: Values): seq<Piece>
    requires |v.fields| <= |l.fields|
  {
    FrontPieces(v.account) + FieldPieces(l.fields, v.fields) + [L.PlainPiece("}}")]
  }

  function ResponsePieces(l: RecordLayout, v: Values): seq<Piece>
    requires |v.fields| <= |l.fields|
  {
    L.HeadPieces(l.statusLine, l.contentType, |Flatten(BodyPieces(l, v))|) + BodyPieces(l, v)
  }

  datatype RecordRanges = RecordRanges(
    len: nat,
    statusLine: Range,
    contentTypeLine: Range,
    keys: seq<Range>,
    account: Range,
    fields: seq<Range>)
  {
    function Revealed(): seq<Range> {
      [statusLine, contentTypeLine] + keys
    }

    function Hidden(): seq<Range> {
      [account] + fields
    }
  }

  datatype Rendered = Rendered(bytes: Bytes, ranges: RecordRanges)

  ghost predicate HasParts(ps: seq<Piece>) {
    forall t | t in {StatusLine, ContentTypeLine, Account} :: RangesOf(ps, t, 0) != []
  }

  /** The reported ranges, read off the pieces. */
  ghost function RangesIn(ps: seq<Piece>): RecordRanges
    requires HasParts(ps)
  {
    RecordRanges(
      |Flatten(ps)|,
      RangesOf(ps, StatusLine, 0)[0],
      RangesOf(ps, ContentTypeLine, 0)[0],
      RangesOf(ps, Key, 0),
      RangesOf(ps, Account, 0)[0],
      RangesOf(ps, Field, 0))
  }

  /** Every value has its width. */
  predicate Fits(l: RecordLayout, v: Values) {
    && |v.account| == l.accountWidth && |v.fields| == |l.fields|
    && forall i | 0 <= i < |v.fields| :: |v.fields[i]| == l.fields[i].width
  }

  lemma {:induction false} PadFieldsFits(l: RecordLayout, values: seq<Bytes>, n: nat)
    requires IsValid(l) && n <= |values| == |l.fields| && PadFields(l, values, n).Ok?
    ensures |PadFields(l, values, n).value| == n
    ensures forall i | 0 <= i < n ::
      Pad(l, values[i], l.fields[i].width) == Ok(PadFields(l, values, n).value[i]) && |PadFields(l, values, n).value[i]| == l.fields[i].width
  {
    if n > 0 {
      PadFieldsFits(l, values, n - 1);
    }
  }

  lemma PadAllFits(l: RecordLayout, account: Bytes, values: seq<Bytes>)
    requires IsValid(l) && PadAll(l, account, values).Ok?
    ensures Fits(l, PadAll(l, account, values).value)
  {
    PadFieldsFits(l, values, |values|);
  }

  lemma ResponseHasParts(l: RecordLayout, v: Values)
    requires |v.fields| <= |l.fields|
    ensures HasParts(ResponsePieces(l, v)) && RangesOf(ResponsePieces(l, v), Key, 0) != []
  {
    hide FieldPieces, RangesOf, Flatten;
    var ps := ResponsePieces(l, v);
    assert |FrontPieces(v.account)| == 8;
    assert ps[7] == FrontPieces(v.account)[1] && ps[9] == FrontPieces(v.account)[3];
    L.TagPresent(ps, 0, 0);
    L.TagPresent(ps, 2, 0);
    L.TagPresent(ps, 7, 0);
    L.TagPresent(ps, 9, 0);
  }

  /** What `render_response` answers. */
  ghost function Render(l: RecordLayout, account: Bytes, values: seq<Bytes>): Result<Rendered, RenderError>
    requires IsValid(l)
  {
    var v :- PadAll(l, account, values);
    PadAllFits(l, account, values);
    ResponseHasParts(l, v);
    Ok(Rendered(Flatten(ResponsePieces(l, v)), RangesIn(ResponsePieces(l, v))))
  }

  // ---------- Rendering ----------

  method WriteFront(body: Writer, account: Bytes) returns (keys: seq<Range>, a: Range)
    requires body.Valid() && body.pieces == []
    modifies body
    ensures body.Valid() && body.pieces == FrontPieces(account)
    ensures forall t: Tag :: t != Plain ==>
      RangesOf(body.pieces, t, 0) == if t == Key then keys else if t == Account then [a] else []
  {
    hide Flatten, Lit;
    var x := body.Literal(Lit("{"), Plain);
    var k := body.WriteKey(Lit(L.KEY_ACCOUNT));
    keys := [k];
    a := body.WriteString(account, Account);
    x := body.Literal(Lit(","), Plain);
    k := body.WriteKey(Lit(L.KEY_RECORD));
    keys := keys + [k];
    x := body.Literal(Lit("{"), Plain);
  }

  lemma NoFieldPieces(fields: seq<RecordField>)
    ensures FieldPieces(fields, []) == []
  {
  }

  lemma FieldPiecesAppend(fields: seq<RecordField>, values: seq<Bytes>, v: Bytes)
    requires |values| < |fields|
    ensures FieldPieces(fields, values + [v])
      == FieldPieces(fields, values) + (if values != [] then [L.PlainPiece(",")] else []) + [KeyPiece(fields[|values|].key)] + Quoted(Field, v)
  {
    assert (values + [v])[..|values|] == values;
  }

  lemma {:induction false} PadFieldsFails(l: RecordLayout, values: seq<Bytes>, i: nat, n: nat)
    requires IsValid(l) && i <= n <= |values| == |l.fields| && PadFields(l, values, i).Err?
    ensures PadFields(l, values, n) == PadFields(l, values, i)
    decreases n
  {
    if i < n {
      PadFieldsFails(l, values, i, n - 1);
    }
  }

  /** Writes the comma and the key of a field. */
  method WriteFieldKey(body: Writer, first: bool, key: Bytes) returns (k: Range)
    requires body.Valid()
    modifies body
    ensures body.Valid() && body.pieces == old(body.pieces) + (if first then [] else [L.PlainPiece(",")]) + [KeyPiece(key)]
    ensures forall t: Tag :: t != Plain ==>
      RangesOf(body.pieces, t, 0) == RangesOf(old(body.pieces), t, 0) + (if t == Key then [k] else [])
  {
    hide RangesOf, Flatten, Lit;
    if !first {
      var x := body.Literal(Lit(","), Plain);
    }
    k := body.WriteKey(key);
  }

  /** Pads and writes every field behind its key. */
  method WriteFields(l: RecordLayout, body: Writer, values: seq<Bytes>)
    returns (r: Result<(seq<Range>, seq<Range>), RenderError>, ghost padded: seq<Bytes>)
    requires IsValid(l) && |values| == |l.fields| && body.Valid()
    modifies body
    ensures body.Valid() && |padded| <= |l.fields|
    ensures r.Err? ==> PadFields(l, values, |values|) == Err(r.error)
    ensures r.Ok? ==> PadFields(l, values, |values|) == Ok(padded) && body.pieces == old(body.pieces) + FieldPieces(l.fields, padded)
    ensures r.Ok? ==> forall t: Tag :: t != Plain ==>
      RangesOf(body.pieces, t, 0)
      == RangesOf(old(body.pieces), t, 0) + (if t == Key then r.value.0 else if t == Field then r.value.1 else [])
  {
    hide Pad, RangesOf, Flatten, Lit, FieldPieces, KeyPiece, Quoted, IsValid;
    var keys: seq<Range>, ranges: seq<Range> := [], [];
    padded := [];
    ghost var before := body.pieces;
    NoFieldPieces(l.fields);
    for i := 0 to |values|
      invariant body.Valid() && |padded| == i && PadFields(l, values, i) == Ok(padded)
      invariant body.pieces == before + FieldPieces(l.fields, padded)
      invariant forall t: Tag :: t != Plain ==>
        RangesOf(body.pieces, t, 0) == RangesOf(old(body.pieces), t, 0) + (if t == Key then keys else if t == Field then ranges else [])
    {
      var k := WriteFieldKey(body, i == 0, l.fields[i].key);
      keys := keys + [k];
      var value := Pad(l, values[i], l.fields[i].width);
      if value.Err? {
        PadFieldsFails(l, values, i + 1, |values|);
        return Err(value.error), padded;
      }
      var range := body.WriteString(value.value, Field);
      ranges := ranges + [range];
      FieldPiecesAppend(l.fields, padded, value.value);
      padded := padded + [value.value];
    }
    r := Ok((keys, ranges));
  }

  datatype BodyParts = BodyParts(keys: seq<Range>, account: Range, fields: seq<Range>)

  function BodyRanges(b: BodyParts, t: Tag): seq<Range> {
    if t == Key then b.keys else if t == Account then [b.account] else if t == Field then b.fields else []
  }

  method WriteBody(l: RecordLayout, body: Writer, account: Bytes, values: seq<Bytes>)
    returns (r: Result<BodyParts, RenderError>, ghost v: Values)
    requires IsValid(l) && body.Valid() && body.pieces == [] && |values| == |l.fields|
    modifies body
    ensures r.Err? ==> PadAll(l, account, values) == Err(r.error)
    ensures r.Ok? ==> PadAll(l, account, values) == Ok(v) && |v.fields| <= |l.fields| && body.Valid() && body.pieces == BodyPieces(l, v)
    ensures r.Ok? ==> forall t: Tag :: t != Plain ==> RangesOf(body.pieces, t, 0) == BodyRanges(r.value, t)
  {
    hide Pad, RangesOf, Flatten, Lit, FrontPieces, FieldPieces, PadFields;
    v := Values([], []);
    var a := Pad(l, account, l.accountWidth);
    if a.Err? {
      return Err(a.error), v;
    }
    var keys, accountRange := WriteFront(body, a.value);
    var fields, padded := WriteFields(l, body, values);
    if fields.Err? {
      return Err(fields.error), v;
    }
    var x := body.Literal(Lit("}}"), Plain);
    v := Values(a.value, padded);
    r := Ok(BodyParts(keys + fields.value.0, accountRange, fields.value.1));
  }

  lemma WholeRanges(head: seq<Piece>, body: seq<Piece>, s: Range, c: Range, b: BodyParts, t: Tag)
    requires L.HeadRanges(head, s, c) && t != Plain && RangesOf(body, t, 0) == BodyRanges(b, t)
    ensures RangesOf(head + body, t, 0) ==
      if t == StatusLine then [s] else if t == ContentTypeLine then [c] else ShiftAll(BodyRanges(b, t), |Flatten(head)|)
  {
    hide RangesOf, Flatten;
    L.RangesBehindHead(head, body, t);
    assert ShiftAll([], |Flatten(head)|) == [];
  }

  function Place(s: Range, c: Range, b: BodyParts, headLength: nat, bodyLength: nat): RecordRanges {
    RecordRanges(headLength + bodyLength, s, c, ShiftAll(b.keys, headLength), b.account.Shift(headLength), ShiftAll(b.fields, headLength))
  }

  lemma Assembled(head: seq<Piece>, body: seq<Piece>, s: Range, c: Range, b: BodyParts)
    requires L.HeadRanges(head, s, c) && forall t: Tag :: t != Plain ==> RangesOf(body, t, 0) == BodyRanges(b, t)
    ensures HasParts(head + body) && RangesIn(head + body) == Place(s, c, b, |Flatten(head)|, |Flatten(body)|)
  {
    hide RangesOf, Flatten;
    WholeRanges(head, body, s, c, b, StatusLine);
    WholeRanges(head, body, s, c, b, ContentTypeLine);
    WholeRanges(head, body, s, c, b, Key);
    WholeRanges(head, body, s, c, b, Account);
    WholeRanges(head, body, s, c, b, Field);
    FlattenConcat(head, body);
  }

  /** Renders one value per field behind the account, and reports where each part landed. */
  method RenderResponse(l: RecordLayout, account: Bytes, values: seq<Bytes>) returns (r: Result<Rendered, RenderError>)
    requires IsValid(l)
    ensures r == Render(l, account, values)
  {
    hide RangesOf, Flatten, FrontPieces, FieldPieces, BodyPieces, L.HeadPieces, RangesIn, BodyRanges, Place, IsValid;
    if |values| != |l.fields| {
      return Err(WrongCount);
    }
    hide PadAll;
    var body := new Writer();
    var parts, v := WriteBody(l, body, account, values);
    if parts.Err? {
      return Err(parts.error);
    }
    PadAllFits(l, account, values);
    ResponseHasParts(l, v);
    var head := new Writer();
    var statusLine, contentTypeLine := L.WriteHead(head, l.statusLine, l.contentType, |body.bytes|);
    Assembled(head.pieces, body.pieces, statusLine, contentTypeLine, parts.value);
    FlattenConcat(head.pieces, body.pieces);
    r := Ok(Rendered(head.bytes + body.bytes, Place(statusLine, contentTypeLine, parts.value, |head.bytes|, |body.bytes|)));
  }
}
