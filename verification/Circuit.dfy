/** Circuit parameters derived from the title layout, and the public inputs of phi_R, phi_A and phi_S. */
module Circuit {
  import opened Wrappers
  import opened Bytes
  import opened Text
  import opened Field
  import opened Pieces
  import opened Layout
  import opened LayoutLaws
  import opened LayoutGeometry
  import opened Settlement

  // ---------- Parameters of phi_R ----------

  datatype PhiRParams = PhiRParams(
    accountWidth: nat,
    ownerSlots: nat,
    ownerStride: nat,
    ownersLen: nat,
    propertyIdWidth: nat,
    padding: Byte)

  datatype ParamsError = Unrenderable(error: RenderError) | UnevenSlots

  /** The parameters in closed form. */
  function ParamsOf(l: Layout): PhiRParams
    requires Validate(l).Ok?
  {
    PhiRParams(l.accountWidth, l.ownerSlots, Stride(l.accountWidth),
      (l.ownerSlots - 1) * Stride(l.accountWidth) + l.accountWidth, l.propertyIdWidth, l.padding[0])
  }

  lemma EvenSteps(w: nat, k: nat)
    ensures (k + 1) * Stride(w) - k * Stride(w) == Stride(w)
  {
  }

  /** Reads the parameters off the rendered template. The even-spacing check never fails for a validated
      layout, and the parameters are the closed form. */
  method FromLayout(l: Layout) returns (r: Result<PhiRParams, ParamsError>)
    requires Validate(l).Ok?
    ensures r == Ok(ParamsOf(l))
  {
    hide Render;
    var template := RenderResponse(l, [], BLANK);
    RendersIff(l, [], BLANK);
    OwnerSlotsAreEven(l, [], BLANK);
    var ranges := template.value.ranges;
    var offsets := ranges.ownerSlotOffsets;
    var w := l.accountWidth;
    assert 0 * Stride(w) == 0 && 1 * Stride(w) == Stride(w);
    var stride: int := if |offsets| > 1 then offsets[1] - offsets[0] else w + 3;
    var even := true;
    for i := 0 to |offsets| - 1
      invariant even
    {
      EvenSteps(w, i);
      even := even && offsets[i + 1] - offsets[i] == stride;
    }
    r := if even then
      Ok(PhiRParams(w, l.ownerSlots, stride, ranges.owners.end - ranges.owners.start, l.propertyIdWidth, l.padding[0]))
    else Err(UnevenSlots);
  }

  // ---------- txData.propertyId ----------

  datatype WordError = TooWide | BadIdentifier(error: RenderError)

  /** `property_id_word`: the padded identifier followed by zero bytes. */
  function PropertyIdWord(l: Layout, propertyId: Bytes): (r: Result<Word, WordError>)
    requires Validate(l).Ok?
    ensures r.Ok? <==> l.propertyIdWidth <= 32 && Acceptable(propertyId, l.propertyIdWidth)
  {
    if 32 < l.propertyIdWidth then Err(TooWide)
    else
      match Pad(l, propertyId, l.propertyIdWidth)
      case Ok(value) => Ok(ZeroExtended(value))
      case Err(e) => Err(BadIdentifier(e))
  }

  /** The word shows what the response shows: two identifiers have one word exactly if they stand alike in
      a response. */
  lemma WordShowsTheResponse(l: Layout, a: Bytes, b: Bytes)
    requires Validate(l).Ok? && PropertyIdWord(l, a).Ok? && PropertyIdWord(l, b).Ok?
    ensures PropertyIdWord(l, a) == PropertyIdWord(l, b)
      <==> Pad(l, a, l.propertyIdWidth) == Pad(l, b, l.propertyIdWidth)
  {
    ZeroExtendedInjective(Pad(l, a, l.propertyIdWidth).value, Pad(l, b, l.propertyIdWidth).value);
  }

  /** The word byte by byte: the identifier, the layout's padding up to its width, and zeros. */
  lemma PropertyIdWordIs(l: Layout, propertyId: Bytes, i: nat)
    requires Validate(l).Ok? && PropertyIdWord(l, propertyId).Ok? && i < 32
    ensures |propertyId| <= l.propertyIdWidth <= 32
    ensures PropertyIdWord(l, propertyId).value[i] ==
      if i < |propertyId| then propertyId[i] else if i < l.propertyIdWidth then l.padding[0] else 0
  {
    hide Printable;
  }

  // ---------- Public inputs ----------

  /** Limbs of several words, in order. */
  function AllLimbs(words: seq<Word>): (r: seq<string>)
    ensures |r| == 2 * |words|
  {
    if words == [] then [] else AllLimbs(words[..|words| - 1]) + Limbs(words[|words| - 1])
  }

  lemma {:induction false} AllLimbsAreElements(words: seq<Word>)
    ensures forall s | s in AllLimbs(words) :: IsElement(s)
  {
    if words != [] {
      hide Limbs, IsElement;
      AllLimbsAreElements(words[..|words| - 1]);
      var last := Limbs(words[|words| - 1]);
      LimbsAreElements(words[|words| - 1]);
      assert forall s | s in last :: s == last[0] || s == last[1];
    }
  }

  lemma SplitEqual<T>(a: seq<T>, x: seq<T>, b: seq<T>, y: seq<T>)
    requires |a| == |b| && a + x == b + y
    ensures a == b && x == y
  {
    assert a == (a + x)[..|a|] && b == (b + y)[..|b|];
    assert x == (a + x)[|a|..] && y == (b + y)[|b|..];
  }

  lemma LastLimbs(words: seq<Word>)
    requires words != []
    ensures AllLimbs(words) == AllLimbs(words[..|words| - 1]) + Limbs(words[|words| - 1])
  {
    hide Limbs;
  }

  lemma AllAndLast<T>(s: seq<T>)
    requires s != []
    ensures s == s[..|s| - 1] + [s[|s| - 1]]
  {
  }

  lemma {:induction false} AllLimbsInjective(a: seq<Word>, b: seq<Word>)
    requires |a| == |b| && AllLimbs(a) == AllLimbs(b)
    ensures a == b
  {
    if a != [] {
      hide Limbs, AllLimbs;
      var n := |a| - 1;
      LastLimbs(a);
      LastLimbs(b);
      SplitEqual(AllLimbs(a[..n]), Limbs(a[n]), AllLimbs(b[..n]), Limbs(b[n]));
      AllLimbsInjective(a[..n], b[..n]);
      LimbsInjective(a[n], b[n]);
      AllAndLast(a);
      AllAndLast(b);
    }
  }

  method PushLimbs(words: seq<Word>) returns (out: seq<string>)
    ensures out == AllLimbs(words)
  {
    out := [];
    assert words[..0] == [];
    for i := 0 to |words|
      invariant out == AllLimbs(words[..i])
    {
      assert words[..i + 1][..i] == words[..i];
      out := out + Limbs(words[i]);
    }
    assert words[..|words|] == words;
  }

  datatype PhiRPublic = PhiRPublic(accountHash: Word, ownersHash: Word, propertyHash: Word, propertyId: Word, digest: Word) {
    function Words(): seq<Word> {
      [accountHash, ownersHash, propertyHash, propertyId]
    }

    function Inputs(): seq<string> {
      AllLimbs(Words()) + [BindValue(digest)]
    }
  }

  datatype PhiAPublic = PhiAPublic(accountHash: Word, incomeHash: Word, cB: string, amount: string, digest: Word) {
    function Words(): seq<Word> {
      [accountHash, incomeHash]
    }

    function Inputs(): seq<string> {
      AllLimbs(Words()) + [cB, amount, BindValue(digest)]
    }
  }

  datatype PhiSPublic = PhiSPublic(propertyHash: Word, tenantHash: Word, dateHash: Word, propertyId: Word, cB: string,
    engagementDay: nat, digest: Word)
  {
    function Words(): seq<Word> {
      [propertyHash, tenantHash, dateHash, propertyId]
    }

    function Inputs(): seq<string> {
      AllLimbs(Words()) + [cB, Decimal(engagementDay), BindValue(digest)]
    }
  }

  datatype InputError = AmountTooLarge | NotCanonical | DayTooLarge

  const AMOUNT_BOUND: nat := 0x1_0000_0000_0000_0000_0000_0000
  const DAY_BOUND: nat := 0x800_0000

  /** `PhiAPublic::new`. */
  function NewPhiA(accountHash: Word, incomeHash: Word, cB: Word, amount: nat, digest: Word): Result<PhiAPublic, InputError> {
    if AMOUNT_BOUND <= amount then Err(AmountTooLarge)
    else
      match FieldElement(cB)
      case Some(c) => Ok(PhiAPublic(accountHash, incomeHash, c, Decimal(amount), digest))
      case None => Err(NotCanonical)
  }

  /** `PhiSPublic::new`. */
  function NewPhiS(propertyHash: Word, tenantHash: Word, dateHash: Word, propertyId: Word, cB: Word, day: nat, digest: Word)
    : Result<PhiSPublic, InputError>
  {
    if DAY_BOUND <= day then Err(DayTooLarge)
    else
      match FieldElement(cB)
      case Some(c) => Ok(PhiSPublic(propertyHash, tenantHash, dateHash, propertyId, c, day, digest))
      case None => Err(NotCanonical)
  }

  method PhiRInputs(p: PhiRPublic) returns (out: seq<string>)
    ensures out == p.Inputs()
  {
    out := PushLimbs([p.accountHash, p.ownersHash, p.propertyHash, p.propertyId]);
    out := out + [BindValue(p.digest)];
  }

  method PhiAInputs(p: PhiAPublic) returns (out: seq<string>)
    ensures out == p.Inputs()
  {
    out := PushLimbs([p.accountHash, p.incomeHash]);
    out := out + [p.cB] + [p.amount] + [BindValue(p.digest)];
  }

  method PhiSInputs(p: PhiSPublic) returns (out: seq<string>)
    ensures out == p.Inputs()
  {
    out := PushLimbs([p.propertyHash, p.tenantHash, p.dateHash, p.propertyId]);
    out := out + [p.cB] + [Decimal(p.engagementDay)] + [BindValue(p.digest)];
  }

  ghost predicate AllElements(inputs: seq<string>) {
    forall s | s in inputs :: IsElement(s)
  }

  /** Inputs `2i` and `2i + 1` denote word `i`, by its two 128-bit halves. */
  predicate Denotes(inputs: seq<string>, i: nat, word: Word) {
    && 2 * i + 1 < |inputs| && AllDigits(inputs[2 * i]) && AllDigits(inputs[2 * i + 1])
    && Value(inputs[2 * i]) * TWO_128 + Value(inputs[2 * i + 1]) == BigEndian(word) && Value(inputs[2 * i + 1]) < TWO_128
  }

  /** Input `i` denotes the number `n`. */
  predicate IsNumber(inputs: seq<string>, i: nat, n: nat) {
    i < |inputs| && AllDigits(inputs[i]) && Value(inputs[i]) == n
  }

  lemma {:induction false} LimbsInOrder(words: seq<Word>, more: seq<string>, i: nat)
    requires i < |words|
    ensures Denotes(AllLimbs(words) + more, i, words[i])
  {
    hide BigEndian, Value, Limbs;
    var n := |words| - 1;
    if i < n {
      LimbsInOrder(words[..n], Limbs(words[n]) + more, i);
      assert AllLimbs(words) + more == AllLimbs(words[..n]) + (Limbs(words[n]) + more);
    } else {
      LimbsDenote(words[n]);
    }
  }

  /** What the inputs of phi_R denote, in the circuit's order. */
  lemma PhiRDenotes(p: PhiRPublic)
    ensures var out := p.Inputs();
      && |out| == 9
      && Denotes(out, 0, p.accountHash) && Denotes(out, 1, p.ownersHash) && Denotes(out, 2, p.propertyHash)
      && Denotes(out, 3, p.propertyId) && IsNumber(out, 8, BigEndian(p.digest) % R)
  {
    hide BigEndian, Value, Decimal, AllLimbs, Denotes;
    forall i: nat | i < 4
      ensures Denotes(p.Inputs(), i, p.Words()[i])
    {
      LimbsInOrder(p.Words(), [BindValue(p.digest)], i);
    }
    assert p.Words()[0] == p.accountHash && p.Words()[1] == p.ownersHash && p.Words()[2] == p.propertyHash;
    assert p.Words()[3] == p.propertyId;
  }

  /** What the inputs of phi_A denote, in the circuit's order. */
  lemma PhiADenotes(accountHash: Word, incomeHash: Word, cB: Word, amount: nat, digest: Word)
    requires NewPhiA(accountHash, incomeHash, cB, amount, digest).Ok?
    ensures var out := NewPhiA(accountHash, incomeHash, cB, amount, digest).value.Inputs();
      && |out| == 7
      && Denotes(out, 0, accountHash) && Denotes(out, 1, incomeHash)
      && IsNumber(out, 4, BigEndian(cB)) && IsNumber(out, 5, amount) && IsNumber(out, 6, BigEndian(digest) % R)
  {
    hide BigEndian, Value, Decimal, AllLimbs, Denotes;
    var p := NewPhiA(accountHash, incomeHash, cB, amount, digest).value;
    forall i: nat | i < 2
      ensures Denotes(p.Inputs(), i, p.Words()[i])
    {
      LimbsInOrder(p.Words(), [p.cB, p.amount, BindValue(p.digest)], i);
    }
    assert p.Words()[0] == accountHash && p.Words()[1] == incomeHash;
  }

  /** What the inputs of phi_S denote, in the circuit's order. */
  lemma PhiSDenotes(propertyHash: Word, tenantHash: Word, dateHash: Word, propertyId: Word, cB: Word, day: nat, digest: Word)
    requires NewPhiS(propertyHash, tenantHash, dateHash, propertyId, cB, day, digest).Ok?
    ensures var out := NewPhiS(propertyHash, tenantHash, dateHash, propertyId, cB, day, digest).value.Inputs();
      && |out| == 11
      && Denotes(out, 0, propertyHash) && Denotes(out, 1, tenantHash) && Denotes(out, 2, dateHash) && Denotes(out, 3, propertyId)
      && IsNumber(out, 8, BigEndian(cB)) && IsNumber(out, 9, day) && IsNumber(out, 10, BigEndian(digest) % R)
  {
    hide BigEndian, Value, Decimal, AllLimbs, Denotes;
    var p := NewPhiS(propertyHash, tenantHash, dateHash, propertyId, cB, day, digest).value;
    forall i: nat | i < 4
      ensures Denotes(p.Inputs(), i, p.Words()[i])
    {
      LimbsInOrder(p.Words(), [p.cB, Decimal(day), BindValue(p.digest)], i);
    }
    assert p.Words()[0] == propertyHash && p.Words()[1] == tenantHash && p.Words()[2] == dateHash;
    assert p.Words()[3] == propertyId;
  }

  /** Digests that no proof can tell apart. */
  predicate SameDigest(a: Word, b: Word) {
    (BigEndian(a) - BigEndian(b)) % R == 0
  }

  lemma InputsSplit(a: seq<Word>, b: seq<Word>, x: seq<string>, y: seq<string>)
    requires |a| == |b| && AllLimbs(a) + x == AllLimbs(b) + y
    ensures a == b && x == y
  {
    hide AllLimbs;
    SplitEqual(AllLimbs(a), x, AllLimbs(b), y);
    AllLimbsInjective(a, b);
  }

  /** phi_R: nine field elements that fix every commitment, the property, and the digest modulo r. */
  lemma PhiRBinds(p: PhiRPublic, q: PhiRPublic)
    ensures |p.Inputs()| == 9 && AllElements(p.Inputs())
    ensures p.Inputs() == q.Inputs() <==> p.Words() == q.Words() && SameDigest(p.digest, q.digest)
  {
    hide AllLimbs, BindValue, IsElement, BigEndian;
    AllLimbsAreElements(p.Words());
    BindAlikeIff(p.digest, q.digest);
    assert [BindValue(p.digest)][0] == BindValue(p.digest) && [BindValue(q.digest)][0] == BindValue(q.digest);
    if p.Inputs() == q.Inputs() {
      InputsSplit(p.Words(), q.Words(), [BindValue(p.digest)], [BindValue(q.digest)]);
    }
  }

  lemma AmountIsElement(amount: nat)
    requires amount < AMOUNT_BOUND
    ensures IsElement(Decimal(amount))
  {
    hide Decimal, Value;
    ElementOf(amount);
  }

  /** phi_A: seven field elements that fix both commitments, c_B, the amount, and the digest modulo r. */
  lemma PhiABinds(h: Word, i: Word, c: Word, amount: nat, d: Word, h': Word, i': Word, c': Word, amount': nat, d': Word)
    requires NewPhiA(h, i, c, amount, d).Ok? && NewPhiA(h', i', c', amount', d').Ok?
    ensures var (p, q) := (NewPhiA(h, i, c, amount, d).value, NewPhiA(h', i', c', amount', d').value);
      && |p.Inputs()| == 7 && AllElements(p.Inputs())
      && (p.Inputs() == q.Inputs() <==> h == h' && i == i' && c == c' && amount == amount' && SameDigest(d, d'))
  {
    hide AllLimbs, BindValue, IsElement, BigEndian, FieldElement, Decimal, Value;
    var p, q := NewPhiA(h, i, c, amount, d).value, NewPhiA(h', i', c', amount', d').value;
    AllLimbsAreElements(p.Words());
    BindAlikeIff(d, d');
    FieldElementInjective(c, c');
    AmountIsElement(amount);
    var x, y := [p.cB, p.amount, BindValue(d)], [q.cB, q.amount, BindValue(d')];
    assert x[0] == p.cB && x[1] == p.amount && x[2] == BindValue(d);
    assert y[0] == q.cB && y[1] == q.amount && y[2] == BindValue(d');
    if p.Inputs() == q.Inputs() {
      InputsSplit(p.Words(), q.Words(), x, y);
      assert p.Words()[0] == h && p.Words()[1] == i && q.Words()[0] == h' && q.Words()[1] == i';
      assert Value(p.amount) == amount && Value(q.amount) == amount';
    }
  }

  /** phi_S: eleven field elements that fix the commitments, the property, c_B, the day, and the digest
      modulo r. */
  lemma PhiSBinds(w: seq<Word>, c: Word, day: nat, d: Word, w': seq<Word>, c': Word, day': nat, d': Word)
    requires |w| == |w'| == 4
    requires NewPhiS(w[0], w[1], w[2], w[3], c, day, d).Ok? && NewPhiS(w'[0], w'[1], w'[2], w'[3], c', day', d').Ok?
    ensures var p := NewPhiS(w[0], w[1], w[2], w[3], c, day, d).value;
      var q := NewPhiS(w'[0], w'[1], w'[2], w'[3], c', day', d').value;
      && |p.Inputs()| == 11 && AllElements(p.Inputs())
      && (p.Inputs() == q.Inputs() <==> w == w' && c == c' && day == day' && SameDigest(d, d'))
  {
    hide AllLimbs, BindValue, IsElement, BigEndian, FieldElement, Decimal, Value;
    var p := NewPhiS(w[0], w[1], w[2], w[3], c, day, d).value;
    var q := NewPhiS(w'[0], w'[1], w'[2], w'[3], c', day', d').value;
    assert p.Words() == w && q.Words() == w';
    AllLimbsAreElements(w);
    BindAlikeIff(d, d');
    FieldElementInjective(c, c');
    AmountIsElement(day);
    var x, y := [p.cB, Decimal(day), BindValue(d)], [q.cB, Decimal(day'), BindValue(d')];
    assert x[0] == p.cB && x[1] == Decimal(day) && x[2] == BindValue(d);
    assert y[0] == q.cB && y[1] == Decimal(day') && y[2] == BindValue(d');
    if p.Inputs() == q.Inputs() {
      InputsSplit(w, w', x, y);
      assert Value(Decimal(day)) == day && Value(Decimal(day')) == day';
    }
  }

  // ---------- The inputs, exactly ----------

  /** The nine inputs of phi_R: four words by halves, and the digest modulo r, as canonical numerals. */
  ghost predicate RegisterInputs(inputs: seq<string>, account: Word, owners: Word, property: Word, propertyId: Word, digest: Word) {
    && |inputs| == 9 && AllElements(inputs)
    && Denotes(inputs, 0, account) && Denotes(inputs, 1, owners) && Denotes(inputs, 2, property)
    && Denotes(inputs, 3, propertyId) && IsNumber(inputs, 8, BigEndian(digest) % R)
  }

  /** The seven inputs of phi_A. */
  ghost predicate ApplyInputs(inputs: seq<string>, account: Word, income: Word, cB: Word, amount: nat, digest: Word) {
    && |inputs| == 7 && AllElements(inputs)
    && Denotes(inputs, 0, account) && Denotes(inputs, 1, income)
    && IsNumber(inputs, 4, BigEndian(cB)) && IsNumber(inputs, 5, amount) && IsNumber(inputs, 6, BigEndian(digest) % R)
  }

  /** The eleven inputs of phi_S. */
  ghost predicate SettleInputs(inputs: seq<string>, property: Word, tenant: Word, date: Word, propertyId: Word, cB: Word, day: nat,
      digest: Word)
  {
    && |inputs| == 11 && AllElements(inputs)
    && Denotes(inputs, 0, property) && Denotes(inputs, 1, tenant) && Denotes(inputs, 2, date) && Denotes(inputs, 3, propertyId)
    && IsNumber(inputs, 8, BigEndian(cB)) && IsNumber(inputs, 9, day) && IsNumber(inputs, 10, BigEndian(digest) % R)
  }

  lemma SplitOnce(hi: nat, lo: nat, hi': nat, lo': nat)
    requires lo < TWO_128 && lo' < TWO_128 && hi * TWO_128 + lo == hi' * TWO_128 + lo'
    ensures hi == hi' && lo == lo'
  {
    MultiplesAreFar(TWO_128, hi - hi');
  }

  lemma ElementAt(inputs: seq<string>, i: nat)
    requires AllElements(inputs) && i < |inputs|
    ensures AllDigits(inputs[i]) && inputs[i] == Decimal(Value(inputs[i]))
  {
    hide Value, Decimal;
    assert inputs[i] in inputs;
  }

  lemma SameWord(a: seq<string>, b: seq<string>, i: nat, word: Word)
    requires Denotes(a, i, word) && Denotes(b, i, word) && AllElements(a) && AllElements(b)
    ensures a[2 * i] == b[2 * i] && a[2 * i + 1] == b[2 * i + 1]
  {
    hide BigEndian, Value, Decimal, AllElements;
    ElementAt(a, 2 * i);
    ElementAt(b, 2 * i);
    ElementAt(a, 2 * i + 1);
    ElementAt(b, 2 * i + 1);
    SplitOnce(Value(a[2 * i]), Value(a[2 * i + 1]), Value(b[2 * i]), Value(b[2 * i + 1]));
  }

  lemma SameNumber(a: seq<string>, b: seq<string>, i: nat, n: nat)
    requires IsNumber(a, i, n) && IsNumber(b, i, n) && AllElements(a) && AllElements(b)
    ensures a[i] == b[i]
  {
    hide Value, Decimal, AllElements;
    ElementAt(a, i);
    ElementAt(b, i);
  }

  lemma RegisterInputsOnce(a: seq<string>, b: seq<string>, account: Word, owners: Word, property: Word, propertyId: Word, digest: Word)
    requires RegisterInputs(a, account, owners, property, propertyId, digest)
    requires RegisterInputs(b, account, owners, property, propertyId, digest)
    ensures a == b
  {
    hide Denotes, IsNumber, AllElements;
    SameWord(a, b, 0, account);
    SameWord(a, b, 1, owners);
    SameWord(a, b, 2, property);
    SameWord(a, b, 3, propertyId);
    SameNumber(a, b, 8, BigEndian(digest) % R);
  }

  lemma ApplyInputsOnce(a: seq<string>, b: seq<string>, account: Word, income: Word, cB: Word, amount: nat, digest: Word)
    requires ApplyInputs(a, account, income, cB, amount, digest) && ApplyInputs(b, account, income, cB, amount, digest)
    ensures a == b
  {
    hide Denotes, IsNumber, AllElements;
    SameWord(a, b, 0, account);
    SameWord(a, b, 1, income);
    SameNumber(a, b, 4, BigEndian(cB));
    SameNumber(a, b, 5, amount);
    SameNumber(a, b, 6, BigEndian(digest) % R);
  }

  lemma SettleInputsOnce(a: seq<string>, b: seq<string>, property: Word, tenant: Word, date: Word, propertyId: Word, cB: Word, day: nat,
      digest: Word)
    requires SettleInputs(a, property, tenant, date, propertyId, cB, day, digest)
    requires SettleInputs(b, property, tenant, date, propertyId, cB, day, digest)
    ensures a == b
  {
    hide Denotes, IsNumber, AllElements;
    SameWord(a, b, 0, property);
    SameWord(a, b, 1, tenant);
    SameWord(a, b, 2, date);
    SameWord(a, b, 3, propertyId);
    SameNumber(a, b, 8, BigEndian(cB));
    SameNumber(a, b, 9, day);
    SameNumber(a, b, 10, BigEndian(digest) % R);
  }

  /** The inputs of phi_R are the one list of canonical numerals that denotes these values in this order. */
  lemma PhiRExact(account: Word, owners: Word, property: Word, propertyId: Word, digest: Word, inputs: seq<string>)
    ensures inputs == PhiRPublic(account, owners, property, propertyId, digest).Inputs()
      <==> RegisterInputs(inputs, account, owners, property, propertyId, digest)
  {
    hide RegisterInputs;
    var p := PhiRPublic(account, owners, property, propertyId, digest);
    PhiRInputsAre(p);
    if RegisterInputs(inputs, account, owners, property, propertyId, digest) {
      RegisterInputsOnce(inputs, p.Inputs(), account, owners, property, propertyId, digest);
    }
  }

  lemma PhiRInputsAre(p: PhiRPublic)
    ensures RegisterInputs(p.Inputs(), p.accountHash, p.ownersHash, p.propertyHash, p.propertyId, p.digest)
  {
    hide Denotes, IsNumber, AllElements;
    PhiRDenotes(p);
    PhiRBinds(p, p);
  }

  /** phi_A takes every amount below 2^96 and every canonical c_B; its inputs are the one list of canonical
      numerals that denotes these values in this order. */
  lemma PhiAExact(account: Word, income: Word, cB: Word, amount: nat, digest: Word, inputs: seq<string>)
    ensures NewPhiA(account, income, cB, amount, digest).Ok? <==> amount < 79228162514264337593543950336 && BigEndian(cB) < R
    ensures NewPhiA(account, income, cB, amount, digest).Ok? ==>
      (inputs == NewPhiA(account, income, cB, amount, digest).value.Inputs()
       <==> ApplyInputs(inputs, account, income, cB, amount, digest))
  {
    hide ApplyInputs, BigEndian, Decimal;
    if NewPhiA(account, income, cB, amount, digest).Ok? {
      PhiAInputsAre(account, income, cB, amount, digest);
      var out := NewPhiA(account, income, cB, amount, digest).value.Inputs();
      if ApplyInputs(inputs, account, income, cB, amount, digest) {
        ApplyInputsOnce(inputs, out, account, income, cB, amount, digest);
      }
    }
  }

  lemma PhiAInputsAre(account: Word, income: Word, cB: Word, amount: nat, digest: Word)
    requires NewPhiA(account, income, cB, amount, digest).Ok?
    ensures ApplyInputs(NewPhiA(account, income, cB, amount, digest).value.Inputs(), account, income, cB, amount, digest)
  {
    hide Denotes, IsNumber, AllElements, NewPhiA;
    PhiADenotes(account, income, cB, amount, digest);
    PhiABinds(account, income, cB, amount, digest, account, income, cB, amount, digest);
  }

  /** phi_S takes every day below 2^27 and every canonical c_B; its inputs are the one list of canonical
      numerals that denotes these values in this order. */
  lemma PhiSExact(property: Word, tenant: Word, date: Word, propertyId: Word, cB: Word, day: nat, digest: Word, inputs: seq<string>)
    ensures NewPhiS(property, tenant, date, propertyId, cB, day, digest).Ok? <==> day < 134217728 && BigEndian(cB) < R
    ensures NewPhiS(property, tenant, date, propertyId, cB, day, digest).Ok? ==>
      (inputs == NewPhiS(property, tenant, date, propertyId, cB, day, digest).value.Inputs()
       <==> SettleInputs(inputs, property, tenant, date, propertyId, cB, day, digest))
  {
    hide SettleInputs, BigEndian, Decimal;
    if NewPhiS(property, tenant, date, propertyId, cB, day, digest).Ok? {
      PhiSInputsAre(property, tenant, date, propertyId, cB, day, digest);
      var out := NewPhiS(property, tenant, date, propertyId, cB, day, digest).value.Inputs();
      if SettleInputs(inputs, property, tenant, date, propertyId, cB, day, digest) {
        SettleInputsOnce(inputs, out, property, tenant, date, propertyId, cB, day, digest);
      }
    }
  }

  lemma PhiSInputsAre(property: Word, tenant: Word, date: Word, propertyId: Word, cB: Word, day: nat, digest: Word)
    requires NewPhiS(property, tenant, date, propertyId, cB, day, digest).Ok?
    ensures SettleInputs(NewPhiS(property, tenant, date, propertyId, cB, day, digest).value.Inputs(),
      property, tenant, date, propertyId, cB, day, digest)
  {
    hide Denotes, IsNumber, AllElements, NewPhiS;
    PhiSDenotes(property, tenant, date, propertyId, cB, day, digest);
    var w := [property, tenant, date, propertyId];
    PhiSBinds(w, cB, day, digest, w, cB, day, digest);
  }

  /** Every engagement day passes phi_S's bound: only a non-canonical c_B is refused. */
  lemma EngagementDayFits(expiresAt: U64, tauLock: U64, utcOffset: I64, w: seq<Word>, c: Word, d: Word)
    requires |w| == 4 && EngagementDay(expiresAt, tauLock, utcOffset).Ok?
    ensures NewPhiS(w[0], w[1], w[2], w[3], c, EngagementDay(expiresAt, tauLock, utcOffset).value, d).Ok? <==> BigEndian(c) < R
  {
    hide BigEndian, Decimal, YmdOfDays;
    YmdOfDaysDefined((expiresAt as int - tauLock as int + utcOffset as int) / SECS_PER_DAY);
  }
}
