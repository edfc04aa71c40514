/** Where things stand in a title response: evenly spaced owner slots, and revealed and hidden ranges that
    never overlap. */
module LayoutGeometry {
  import opened Bytes
  import opened Pieces
  import opened Layout
  import opened LayoutLaws

  // ---------- Owner slots ----------

  /** Bytes from one owner slot to the next: the slot, its quotes and a comma. */
  function Stride(w: nat): nat {
    w + 3
  }

  function Slot(at: nat, w: nat, k: nat): Range {
    Range(at + 1 + k * Stride(w), at + 1 + k * Stride(w) + w)
  }

  function Slots(at: nat, w: nat, n: nat): (r: seq<Range>)
    ensures |r| == n && forall k | 0 <= k < n :: r[k] == Slot(at, w, k)
  {
    seq(n, (k: nat) => Slot(at, w, k))
  }

  lemma OnePiece(p: Piece, t: Tag, at: nat)
    ensures Flatten([p]) == p.text
    ensures RangesOf([p], t, at) == if p.tag == t then [Range(at, at + |p.text|)] else []
  {
    assert [p][1..] == [];
  }

  lemma QuotedLayout(tag: Tag, value: Bytes, at: nat)
    requires tag != Plain
    ensures Flatten(Quoted(tag, value)) == [QUOTE] + value + [QUOTE]
    ensures RangesOf(Quoted(tag, value), tag, at) == [Range(at + 1, at + 1 + |value|)]
  {
    hide Flatten, RangesOf;
    var quote, middle := Piece(Plain, [QUOTE]), Piece(tag, value);
    OnePiece(quote, tag, at);
    OnePiece(middle, tag, at + 1);
    OnePiece(quote, tag, at + 1 + |value|);
    FlattenConcat([quote], [middle]);
    FlattenConcat([quote] + [middle], [quote]);
    RangesConcat([quote], [middle], tag, at);
    RangesConcat([quote] + [middle], [quote], tag, at);
    assert Quoted(tag, value) == [quote] + [middle] + [quote];
  }

  lemma CommaLayout(at: nat)
    ensures Flatten([PlainPiece(",")]) == Lit(",") && |Lit(",")| == 1 && RangesOf([PlainPiece(",")], Owner, at) == []
  {
    assert [PlainPiece(",")][1..] == [];
  }

  predicate AllOfWidth(owners: seq<Bytes>, w: nat) {
    forall i | 0 <= i < |owners| :: |owners[i]| == w
  }

  /** All owners but the last, the comma in front of the last, and the last. */
  lemma OwnerPiecesLast(owners: seq<Bytes>) returns (before: seq<Piece>, comma: seq<Piece>)
    requires owners != []
    ensures var n := |owners| - 1;
      && before == OwnerPieces(owners[..n]) && comma == (if n > 0 then [PlainPiece(",")] else [])
      && OwnerPieces(owners) == before + comma + Quoted(Owner, owners[n])
      && Flatten(OwnerPieces(owners)) == Flatten(before) + Flatten(comma) + ([QUOTE] + owners[n] + [QUOTE])
      && |Flatten(comma)| == (if n > 0 then 1 else 0)
  {
    hide Flatten, Quoted, PlainPiece;
    var n := |owners| - 1;
    before, comma := OwnerPieces(owners[..n]), if n > 0 then [PlainPiece(",")] else [];
    CommaLayout(0);
    NoPieces();
    QuotedLayout(Owner, owners[n], 0);
    FlattenConcat(before, comma);
    FlattenConcat(before + comma, Quoted(Owner, owners[n]));
  }

  lemma NoPieces()
    ensures Flatten([]) == [] && forall t: Tag, at: nat :: RangesOf([], t, at) == []
  {
  }

  /** The pieces of `n` owners cover `n` slots, their quotes and the commas between them. */
  lemma {:induction false} OwnerPiecesLength(owners: seq<Bytes>, w: nat)
    requires AllOfWidth(owners, w)
    ensures |Flatten(OwnerPieces(owners))| + (if owners == [] then 0 else 1) == |owners| * Stride(w)
    ensures owners != [] ==> var f := Flatten(OwnerPieces(owners)); |f| > 0 && f[|f| - 1] == QUOTE
  {
    if owners == [] {
      NoPieces();
    } else {
      hide Flatten, OwnerPieces;
      var n := |owners| - 1;
      OwnerPiecesLength(owners[..n], w);
      var before, comma := OwnerPiecesLast(owners);
      assert (n + 1) * Stride(w) == n * Stride(w) + Stride(w);
    }
  }

  lemma LastSlot(at: nat, w: nat, n: nat)
    ensures Slots(at, w, n + 1) == Slots(at, w, n) + [Slot(at, w, n)]
  {
  }

  /** The last owner adds one range, behind its quote. */
  lemma LastOwnerRange(owners: seq<Bytes>, at: nat)
    requires owners != []
    ensures var n := |owners| - 1;
      var start := at + |Flatten(OwnerPieces(owners[..n]))| + (if n > 0 then 1 else 0) + 1;
      RangesOf(OwnerPieces(owners), Owner, at)
        == RangesOf(OwnerPieces(owners[..n]), Owner, at) + [Range(start, start + |owners[n]|)]
  {
    hide Flatten, OwnerPieces, RangesOf, Quoted, PlainPiece;
    var n := |owners| - 1;
    var before, comma := OwnerPiecesLast(owners);
    FlattenConcat(before, comma);
    RangesConcat(before, comma, Owner, at);
    RangesConcat(before + comma, Quoted(Owner, owners[n]), Owner, at);
    CommaLayout(at + |Flatten(before)|);
    NoPieces();
    QuotedLayout(Owner, owners[n], at + |Flatten(before + comma)|);
  }

  lemma {:induction false} OwnerSlotRanges(owners: seq<Bytes>, w: nat, at: nat)
    requires AllOfWidth(owners, w)
    ensures RangesOf(OwnerPieces(owners), Owner, at) == Slots(at, w, |owners|)
  {
    hide Flatten, RangesOf, Slots;
    if owners == [] {
      NoPieces();
      NoSlots(at, w);
    } else {
      hide OwnerPieces;
      var n := |owners| - 1;
      OwnerSlotRanges(owners[..n], w, at);
      OwnerPiecesLength(owners[..n], w);
      LastOwnerRange(owners, at);
      LastSlot(at, w, n);
    }
  }

  lemma NoSlots(at: nat, w: nat)
    ensures Slots(at, w, 0) == []
  {
  }

  const BETWEEN_SLOTS: Bytes := [QUOTE] + Lit(",") + [QUOTE]

  lemma OwnerPiecesEnd(owners: seq<Bytes>)
    requires |owners| > 1
    ensures var n := |owners| - 1;
      Flatten(OwnerPieces(owners)) == Flatten(OwnerPieces(owners[..n])) + (Lit(",") + ([QUOTE] + owners[n] + [QUOTE]))
  {
    hide Flatten, OwnerPieces, Quoted, PlainPiece, Lit;
    var before, comma := OwnerPiecesLast(owners);
    CommaLayout(0);
    Regroup(Flatten(before), Lit(","), [QUOTE] + owners[|owners| - 1] + [QUOTE]);
  }

  lemma GapAtEnd(f: Bytes, owner: Bytes)
    requires |f| > 0 && f[|f| - 1] == QUOTE && |Lit(",")| == 1
    ensures (f + (Lit(",") + ([QUOTE] + owner + [QUOTE])))[|f| - 1..|f| + 2] == BETWEEN_SLOTS
  {
  }

  lemma SliceOfFront(f: Bytes, g: Bytes, i: nat, j: nat)
    requires i <= j <= |f|
    ensures (f + g)[i..j] == f[i..j]
  {
  }

  /** Between two slots stand a quote, a comma and a quote. */
  lemma {:induction false} OwnerGaps(owners: seq<Bytes>, w: nat, k: nat)
    requires AllOfWidth(owners, w) && k + 1 < |owners|
    ensures Slot(0, w, k).end + 3 == Slot(0, w, k + 1).start <= |Flatten(OwnerPieces(owners))|
    ensures Flatten(OwnerPieces(owners))[Slot(0, w, k).end..Slot(0, w, k + 1).start] == BETWEEN_SLOTS
  {
    hide OwnerPieces, Flatten, Lit;
    var n := |owners| - 1;
    var f := Flatten(OwnerPieces(owners[..n]));
    OwnerPiecesLength(owners[..n], w);
    OwnerPiecesEnd(owners);
    CommaLayout(0);
    assert (k + 1) * Stride(w) == k * Stride(w) + Stride(w);
    if k + 1 < n {
      OwnerGaps(owners[..n], w, k);
      SliceOfFront(f, Lit(",") + ([QUOTE] + owners[n] + [QUOTE]), Slot(0, w, k).end, Slot(0, w, k + 1).start);
    } else {
      assert Slot(0, w, k).end == |f| - 1;
      GapAtEnd(f, owners[n]);
    }
  }

  // ---------- The whole response ----------

  /** Everything in front of the owners. */
  function BeforeOwners(l: Layout, v: Values): seq<Piece> {
    HeadPieces(l.statusLine, l.contentType, |Flatten(BodyPieces(v))|) + FrontPieces(v.account, v.propertyId)
  }

  function OwnersAt(l: Layout, v: Values): nat {
    |Flatten(BeforeOwners(l, v))|
  }

  lemma ResponseParts(l: Layout, v: Values)
    ensures ResponsePieces(l, v)
      == BeforeOwners(l, v) + OwnerPieces(v.owners) + BackPieces(v.encumbrance, v.assessedValue, v.recordDate)
  {
    hide HeadPieces, FrontPieces, OwnerPieces, BackPieces, Flatten;
  }

  lemma FrontHasNoOwners(l: Layout, v: Values, at: nat)
    ensures RangesOf(BeforeOwners(l, v), Owner, at) == []
  {
    hide Flatten, RangesOf, Lit;
    NoRanges(BeforeOwners(l, v), Owner, at);
  }

  lemma BackHasNoOwners(e: Bytes, a: Bytes, d: Bytes, at: nat)
    ensures RangesOf(BackPieces(e, a, d), Owner, at) == []
  {
    hide RangesOf, Lit;
    NoRanges(BackPieces(e, a, d), Owner, at);
  }

  /** Where the owner slots of a response are. */
  lemma ResponseSlots(l: Layout, v: Values)
    requires Fits(l, v)
    ensures RangesOf(ResponsePieces(l, v), Owner, 0) == Slots(OwnersAt(l, v), l.accountWidth, l.ownerSlots)
  {
    hide ResponsePieces, BeforeOwners, OwnerPieces, BackPieces, Flatten, RangesOf;
    var front, owners := BeforeOwners(l, v), OwnerPieces(v.owners);
    var back := BackPieces(v.encumbrance, v.assessedValue, v.recordDate);
    assert forall i | 0 <= i < |v.owners| :: v.owners[i] in v.owners;
    ResponseParts(l, v);
    RangesConcat(front, owners, Owner, 0);
    RangesConcat(front + owners, back, Owner, 0);
    FrontHasNoOwners(l, v, 0);
    BackHasNoOwners(v.encumbrance, v.assessedValue, v.recordDate, |Flatten(front + owners)|);
    OwnerSlotRanges(v.owners, l.accountWidth, OwnersAt(l, v));
  }

  lemma {:induction false} OwnerPiecesAreOwners(owners: seq<Bytes>)
    ensures forall i | 0 <= i < |OwnerPieces(owners)| :: OwnerPieces(owners)[i].tag in {Plain, Owner}
  {
    if owners != [] {
      OwnerPiecesAreOwners(owners[..|owners| - 1]);
    }
  }

  /** Nothing else that is reported lies between the first and the last owner slot. */
  lemma OwnersStandAlone(l: Layout, v: Values, t: Tag)
    requires t != Plain && t != Owner && Fits(l, v) && l.ownerSlots > 0
    ensures var last := Slot(OwnersAt(l, v), l.accountWidth, l.ownerSlots - 1);
      forall r | r in RangesOf(ResponsePieces(l, v), t, 0) :: r.end <= OwnersAt(l, v) || last.end < r.start
  {
    hide ResponsePieces, BeforeOwners, OwnerPieces, BackPieces, Flatten, RangesOf;
    var front, owners := BeforeOwners(l, v), OwnerPieces(v.owners);
    var back := BackPieces(v.encumbrance, v.assessedValue, v.recordDate);
    var at := OwnersAt(l, v);
    assert forall i | 0 <= i < |v.owners| :: v.owners[i] in v.owners;
    ResponseParts(l, v);
    RangesConcat(front, owners, t, 0);
    RangesConcat(front + owners, back, t, 0);
    OwnerPiecesAreOwners(v.owners);
    NoRanges(owners, t, at);
    FlattenConcat(front, owners);
    OwnerPiecesLength(v.owners, l.accountWidth);
    RangesWithin(front, t, 0);
    RangesWithin(back, t, |Flatten(front + owners)|);
    var n := l.ownerSlots;
    assert n * Stride(l.accountWidth) == (n - 1) * Stride(l.accountWidth) + Stride(l.accountWidth);
  }

  lemma OwnersOfRanges(l: Layout, v: Values)
    requires Fits(l, v) && HasTitleParts(ResponsePieces(l, v))
    ensures var (rs, w) := (TitleRanges(ResponsePieces(l, v)), l.accountWidth);
      && l.ownerSlots > 0
      && rs.owners == Range(Slot(OwnersAt(l, v), w, 0).start, Slot(OwnersAt(l, v), w, l.ownerSlots - 1).end)
      && |rs.ownerSlotOffsets| == l.ownerSlots
      && forall k | 0 <= k < l.ownerSlots :: rs.ownerSlotOffsets[k] == k * Stride(w)
  {
    hide ResponsePieces, BeforeOwners, OffsetsFrom, Flatten, RangesOf;
    ResponseSlots(l, v);
    FirstStartsFirst(ResponsePieces(l, v), Owner);
    assert 0 * Stride(l.accountWidth) == 0;
  }

  lemma GapInResponse(l: Layout, v: Values, k: nat)
    requires Fits(l, v) && k + 1 < l.ownerSlots
    ensures var (bytes, at, w) := (Flatten(ResponsePieces(l, v)), OwnersAt(l, v), l.accountWidth);
      && Slot(at, w, k).end + 3 == Slot(at, w, k + 1).start <= |bytes|
      && bytes[Slot(at, w, k).end..Slot(at, w, k).end + 3] == BETWEEN_SLOTS
  {
    hide ResponsePieces, BeforeOwners, OwnerPieces, BackPieces, Flatten, Slot;
    var front, owners := BeforeOwners(l, v), OwnerPieces(v.owners);
    var back := BackPieces(v.encumbrance, v.assessedValue, v.recordDate);
    assert forall i | 0 <= i < |v.owners| :: v.owners[i] in v.owners;
    ResponseParts(l, v);
    FlattenConcat(front, owners);
    FlattenConcat(front + owners, back);
    OwnerGaps(v.owners, l.accountWidth, k);
    SlotMoves(l.accountWidth, k, OwnersAt(l, v));
    SlotMoves(l.accountWidth, k + 1, OwnersAt(l, v));
    SliceInside(Flatten(front), Flatten(owners), Flatten(back), Slot(0, l.accountWidth, k).end, 3);
  }

  lemma SlotMoves(w: nat, k: nat, at: nat)
    ensures Slot(at, w, k) == Slot(0, w, k).Shift(at)
  {
  }

  lemma SliceInside(a: Bytes, b: Bytes, c: Bytes, i: nat, n: nat)
    requires i + n <= |b|
    ensures (a + b + c)[|a| + i..|a| + i + n] == b[i..i + n]
  {
  }

  /** Slot `k` starts `k` strides into the owners' range, and the range ends with the last slot. */
  predicate EvenSlots(l: Layout, rs: ResponseRanges) {
    && |rs.ownerSlotOffsets| == l.ownerSlots > 0
    && (forall k | 0 <= k < l.ownerSlots :: rs.ownerSlotOffsets[k] == k * Stride(l.accountWidth))
    && rs.owners.end == rs.owners.start + (l.ownerSlots - 1) * Stride(l.accountWidth) + l.accountWidth
  }

  /** Quote, comma, quote at `i`. */
  predicate GapAt(bytes: Bytes, i: nat) {
    i + 3 <= |bytes| && bytes[i..i + 3] == BETWEEN_SLOTS
  }

  /** A quote, a comma and a quote stand between any two slots. */
  predicate SlotsSeparated(l: Layout, rs: ResponseRanges, bytes: Bytes) {
    forall k | 0 <= k < l.ownerSlots - 1 :: GapAt(bytes, rs.owners.start + k * Stride(l.accountWidth) + l.accountWidth)
  }

  lemma EvenSlotsOf(l: Layout, v: Values)
    requires Fits(l, v) && HasTitleParts(ResponsePieces(l, v))
    ensures EvenSlots(l, TitleRanges(ResponsePieces(l, v)))
  {
    hide ResponsePieces, TitleRanges, HasTitleParts, OwnersAt;
    OwnersOfRanges(l, v);
    assert 0 * Stride(l.accountWidth) == 0;
  }

  lemma SeparatedOf(l: Layout, v: Values)
    requires Fits(l, v) && HasTitleParts(ResponsePieces(l, v))
    ensures SlotsSeparated(l, TitleRanges(ResponsePieces(l, v)), Flatten(ResponsePieces(l, v)))
  {
    hide ResponsePieces, TitleRanges, HasTitleParts, OwnersAt, Flatten;
    OwnersOfRanges(l, v);
    var rs, w := TitleRanges(ResponsePieces(l, v)), l.accountWidth;
    assert 0 * Stride(w) == 0;
    forall k | 0 <= k < l.ownerSlots - 1
      ensures GapAt(Flatten(ResponsePieces(l, v)), rs.owners.start + k * Stride(w) + w)
    {
      GapInResponse(l, v, k);
      assert rs.owners.start + k * Stride(w) + w == Slot(OwnersAt(l, v), w, k).end;
    }
  }

  /** The owner slots as the circuit reads them, for every response of a layout. */
  lemma OwnerSlotsAreEven(l: Layout, account: Bytes, record: TitleRecord)
    requires Validate(l).Ok? && Render(l, account, record).Ok?
    ensures EvenSlots(l, Template(l).ranges)
    ensures SlotsSeparated(l, Template(l).ranges, Render(l, account, record).value.bytes)
  {
    hide ResponsePieces, TitleRanges, Flatten, HasTitleParts, EvenSlots, SlotsSeparated, PadAll;
    var v := PadAll(l, account, record).value;
    LayoutInvariance(l, account, record);
    PadAllFits(l, account, record);
    ResponseHasParts(l, v);
    EvenSlotsOf(l, v);
    SeparatedOf(l, v);
  }
}
