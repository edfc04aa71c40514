/** The mock notary: evaluates phi_A and phi_S on records given in the clear, and signs. */
module MockNotary {
  import opened Wrappers
  import opened Bytes
  import opened Field
  import opened NonceFile
  import opened NonceStore
  import opened Calendar
  import opened Settlement
  import opened Signing
  import Circuit
  import Layout

  // ---------- The counterparty commitment ----------

  const TWO_192: nat := TWO_64 * TWO_64 * TWO_64

  /** The integer that four 64-bit limbs denote, least significant first. */
  function LimbsValue(limbs: seq<nat>): nat
    requires |limbs| == 4
  {
    limbs[0] + TWO_64 * limbs[1] + TWO_128 * limbs[2] + TWO_192 * limbs[3]
  }

  /** Limb `i` of a big-endian word: eight bytes, counted from the end. */
  function LimbAt(word: Word, i: nat): nat
    requires i < 4
  {
    BigEndian(word[24 - 8 * i..32 - 8 * i])
  }

  lemma SplitWord(word: Word)
    ensures BigEndian(word) == LimbsValue([LimbAt(word, 0), LimbAt(word, 1), LimbAt(word, 2), LimbAt(word, 3)])
  {
    hide BigEndian, Pow256;
    Powers();
    BigEndianConcat(word[..24], word[24..]);
    BigEndianConcat(word[..16], word[16..24]);
    BigEndianConcat(word[..8], word[8..16]);
    assert word == word[..24] + word[24..] && word[..24] == word[..16] + word[16..24] && word[..16] == word[..8] + word[8..16];
    assert word[24..] == word[24..32] && word[..8] == word[0..8];
  }

  lemma LimbBelow(word: Word, i: nat)
    requires i < 4
    ensures LimbAt(word, i) < TWO_64
  {
    hide BigEndian, Pow256;
    Powers();
    BigEndianBelow(word[24 - 8 * i..32 - 8 * i]);
  }

  lemma FourLimbs(limbs: seq<nat>, word: Word)
    requires |limbs| == 4 && forall i | 0 <= i < 4 :: limbs[i] == LimbAt(word, i)
    ensures LimbsValue(limbs) == BigEndian(word)
  {
    hide BigEndian, LimbAt, LimbsValue;
    SplitWord(word);
    assert limbs == [LimbAt(word, 0), LimbAt(word, 1), LimbAt(word, 2), LimbAt(word, 3)];
  }

  /** `be_limbs`: the word's value in 64-bit limbs. */
  method BeLimbs(word: Word) returns (limbs: array<nat>)
    ensures fresh(limbs) && limbs.Length == 4
    ensures forall i | 0 <= i < 4 :: limbs[i] < TWO_64
    ensures LimbsValue(limbs[..]) == BigEndian(word)
  {
    hide BigEndian, LimbsValue;
    limbs := new nat[4](_ => 0);
    for i := 0 to 4
      invariant forall k | 0 <= k < i :: limbs[k] == LimbAt(word, k) < TWO_64
    {
      var start := 32 - 8 * (i + 1);
      limbs[i] := BigEndian(word[start..start + 8]);
      LimbBelow(word, i);
    }
    FourLimbs(limbs[..], word);
  }

  datatype CommitmentError = IdentifierTooLong | SaltNotCanonical

  /** `counterparty_commitment`: a two-input hash of the identifier, packed into one field element, and the
      salt. */
  function CommitmentOf(hash: (nat, nat) -> Word, identifier: Bytes, salt: Word): Result<Word, CommitmentError> {
    if 31 < |identifier| then Err(IdentifierTooLong)
    else if R <= BigEndian(salt) then Err(SaltNotCanonical)
    else Ok(hash(BigEndian(identifier) % R, BigEndian(salt)))
  }

  /** The salt's limbs are compared with the field order, not its bytes. */
  method Commitment(hash: (nat, nat) -> Word, identifier: Bytes, salt: Word) returns (r: Result<Word, CommitmentError>)
    ensures r == CommitmentOf(hash, identifier, salt)
  {
    hide BigEndian;
    if 31 < |identifier| {
      return Err(IdentifierTooLong);
    }
    var id := BigEndian(identifier) % R;
    var limbs := BeLimbs(salt);
    var value := LimbsValue(limbs[..]);
    if R <= value {
      return Err(SaltNotCanonical);
    }
    r := Ok(hash(id, value));
  }

  /** Two different inputs with one hash. */
  predicate Collides(hash: (nat, nat) -> Word, a: (nat, nat), b: (nat, nat)) {
    a != b && hash(a.0, a.1) == hash(b.0, b.1)
  }

  lemma IdentifierFits(identifier: Bytes)
    requires |identifier| <= 31
    ensures BigEndian(identifier) < R
  {
    hide BigEndian, Pow256;
    Powers();
    BigEndianBelow(identifier);
    Pow256Grows(|identifier|, 31);
  }

  lemma {:induction false} Pow256Grows(m: nat, n: nat)
    requires m <= n
    ensures Pow256(m) <= Pow256(n)
    decreases n
  {
    if m < n {
      Pow256Grows(m, n - 1);
    }
  }

  lemma SmallIsOwnRest(n: nat, m: nat)
    requires n < m
    ensures n % m == n
  {
  }

  /** An identifier is packed without loss. */
  lemma CommitmentHashes(hash: (nat, nat) -> Word, identifier: Bytes, salt: Word)
    requires CommitmentOf(hash, identifier, salt).Ok?
    ensures CommitmentOf(hash, identifier, salt).value == hash(BigEndian(identifier), BigEndian(salt))
  {
    hide BigEndian;
    IdentifierFits(identifier);
    SmallIsOwnRest(BigEndian(identifier), R);
  }

  /** A commitment fixes the salt and the identifier's value, unless the openings hand over a collision of
      the hash; among identifiers of one width it fixes the identifier. */
  lemma CommitmentBinds(hash: (nat, nat) -> Word, a: Bytes, s: Word, b: Bytes, t: Word)
    requires CommitmentOf(hash, a, s).Ok? && CommitmentOf(hash, b, t).Ok?
    ensures CommitmentOf(hash, a, s) == CommitmentOf(hash, b, t) <==>
      || (BigEndian(a) == BigEndian(b) && s == t)
      || Collides(hash, (BigEndian(a), BigEndian(s)), (BigEndian(b), BigEndian(t)))
    ensures |a| == |b| && BigEndian(a) == BigEndian(b) ==> a == b
  {
    hide BigEndian, CommitmentOf;
    CommitmentHashes(hash, a, s);
    CommitmentHashes(hash, b, t);
    if BigEndian(s) == BigEndian(t) {
      BigEndianInjective(s, t);
    }
    if |a| == |b| && BigEndian(a) == BigEndian(b) {
      BigEndianInjective(a, b);
    }
  }

  /** A leading zero byte is invisible to the commitment. */
  lemma LeadingZeroOpensToo(hash: (nat, nat) -> Word, identifier: Bytes, salt: Word)
    requires |identifier| < 31
    ensures CommitmentOf(hash, [0] + identifier, salt) == CommitmentOf(hash, identifier, salt)
  {
    BigEndianConcat([0], identifier);
    assert BigEndian([0]) == 0 by { assert [0 as Byte][..0] == []; }
  }

  // ---------- txData.propertyId ----------

  /** `property_word`. */
  function PropertyWord(propertyId: Bytes): Option<Word> {
    if propertyId == [] || 32 < |propertyId| then None else Some(ZeroExtended(propertyId))
  }

  /** The mock notary's word of a padded identifier is the layout's word of the identifier. */
  lemma PropertyWordsAgree(l: Layout.Layout, propertyId: Bytes)
    requires Layout.Validate(l).Ok? && Circuit.PropertyIdWord(l, propertyId).Ok?
    ensures Layout.Pad(l, propertyId, l.propertyIdWidth).Ok?
    ensures PropertyWord(Layout.Pad(l, propertyId, l.propertyIdWidth).value) == Some(Circuit.PropertyIdWord(l, propertyId).value)
  {
    assert |Layout.Pad(l, propertyId, l.propertyIdWidth).value| == l.propertyIdWidth;
  }

  // ---------- Requests ----------

  datatype Opening = Opening(identifier: Bytes, salt: Word)

  datatype EligibilityRecord = EligibilityRecord(account: Bytes, monthlyIncome: nat)

  datatype SettlementRecord = SettlementRecord(propertyId: Bytes, tenant: Bytes, recordDate: string)

  datatype MockPolicy = ApplyPolicy(incomeMultiple: nat) | SettlePolicy(tauLock: U64, utcOffset: I64)

  const U256_BOUND: nat := TWO_128 * TWO_128

  /** phi_A on a record in the clear, for x_A without its time: `x.tAtt` is not read. */
  predicate AcceptsApply(hash: (nat, nat) -> Word, policies: map<Word, MockPolicy>, x: Apply, record: EligibilityRecord, opening: Opening) {
    && x.policyId in policies && policies[x.policyId].ApplyPolicy?
    && CommitmentOf(hash, opening.identifier, opening.salt) == Ok(x.cB)
    && record.account == opening.identifier
    && var threshold := x.txData.amount * policies[x.policyId].incomeMultiple;
    && threshold < U256_BOUND
    && threshold <= record.monthlyIncome
  }

  /** phi_S on a record in the clear. */
  predicate AcceptsSettle(hash: (nat, nat) -> Word, policies: map<Word, MockPolicy>, x: Settle, record: SettlementRecord, opening: Opening) {
    && x.policyId in policies && policies[x.policyId].SettlePolicy?
    && var policy := policies[x.policyId];
    && CommitmentOf(hash, opening.identifier, opening.salt) == Ok(x.cB)
    && PropertyWord(record.propertyId) == Some(x.txData.propertyId)
    && record.tenant == opening.identifier
    && x.expiresAt < TWO_64
    && MockDateRule(record.recordDate, x.expiresAt as U64, policy.tauLock, policy.utcOffset).Ok?
  }

  datatype MockError =
    | NotAPolicyOfThePhase
    | BadCommitment(commitment: CommitmentError)
    | DoesNotOpen
    | OtherHolder
    | ThresholdOverflows
    | IncomeTooLow
    | BadPropertyWord
    | OtherProperty
    | OtherTenant
    | ExpiryExceeds64Bits
    | BadDate(date: DateError)
    | AppendFailed(record: RecordError)
    | KeyFails

  // ---------- The mock notary as a state machine ----------

  /** A request with the statement it asks for, time included. */
  datatype MockRequest =
    | MockApply(a: Apply, eligibility: EligibilityRecord, opening: Opening)
    | MockSettle(s: Settle, settlement: SettlementRecord, opening: Opening)

  datatype MockConfig = MockConfig(hash: (nat, nat) -> Word, policies: map<Word, MockPolicy>, crypto: Crypto)

  predicate Accepts(c: MockConfig, q: MockRequest) {
    match q
    case MockApply(x, record, opening) => AcceptsApply(c.hash, c.policies, x, record, opening)
    case MockSettle(x, record, opening) => AcceptsSettle(c.hash, c.policies, x, record, opening)
  }

  function MockNonce(q: MockRequest): Nonce {
    match q
    case MockApply(x, _, _) => x.eta
    case MockSettle(x, _, _) => x.eta
  }

  function MockDigest(c: MockConfig, q: MockRequest): Word {
    match q
    case MockApply(x, _, _) => c.crypto.digestApply(x)
    case MockSettle(x, _, _) => c.crypto.digestSettle(x)
  }

  /** `signed` is the history of requests a signature was returned for. */
  datatype MockState = MockState(disk: Disk, seen: set<Nonce>, signed: seq<MockRequest>)

  datatype MockStep = MockStep(state: MockState, result: Result<Bytes, Failure>)

  /** One request: refused without a change, or recorded and then signed. */
  function MockHandle(c: MockConfig, s: MockState, q: MockRequest, io: Io): MockStep {
    if !Accepts(c, q) then MockStep(s, Err(Refused))
    else
      var o := Recording(s.disk, s.seen, MockNonce(q), io);
      if o.result.Err? then MockStep(MockState(o.disk, o.seen, s.signed), Err(NotRecorded(o.result.error)))
      else
        match c.crypto.sign(MockDigest(c, q))
        case Some(sigma) => MockStep(MockState(o.disk, o.seen, s.signed + [q]), Ok(sigma))
        case None => MockStep(MockState(o.disk, o.seen, s.signed), Err(NotSigned))
  }

  function Summary(r: Result<Bytes, MockError>): Result<Bytes, Failure> {
    match r
    case Ok(sigma) => Ok(sigma)
    case Err(AppendFailed(record)) => Err(NotRecorded(record))
    case Err(KeyFails) => Err(NotSigned)
    case Err(_) => Err(Refused)
  }

  class MockNotary {
    const policies: map<Word, MockPolicy>
    const crypto: Crypto
    const hash: (nat, nat) -> Word
    const nonces: Store
    ghost var signed: seq<MockRequest>

    constructor (policies: map<Word, MockPolicy>, crypto: Crypto, hash: (nat, nat) -> Word, nonces: Store)
      ensures Config() == MockConfig(hash, policies, crypto) && this.nonces == nonces && signed == []
    {
      this.policies, this.crypto, this.hash, this.nonces := policies, crypto, hash, nonces;
      signed := [];
    }

    ghost function Config(): MockConfig {
      MockConfig(hash, policies, crypto)
    }

    ghost function Now(): MockState
      reads this, nonces, nonces.file
    {
      MockState(nonces.file.disk, nonces.seen, signed)
    }

    /** Records the nonce and signs the digest of an accepted request. */
    method Sign(eta: Nonce, digest: Word, ghost q: MockRequest, io: Io) returns (r: Result<Bytes, MockError>)
      requires Accepts(Config(), q) && eta == MockNonce(q) && digest == MockDigest(Config(), q)
      modifies this`signed, nonces, nonces.file
      ensures MockStep(Now(), Summary(r)) == MockHandle(Config(), old(Now()), q, io)
      ensures r.Ok? <==> eta !in old(nonces.seen) && io.Synced? && crypto.sign(digest).Some?
      ensures r.Ok? ==> crypto.sign(digest) == Some(r.value)
    {
      hide Recording, Accepts;
      RecordedIff(nonces.file.disk, nonces.seen, eta, io);
      var recorded := nonces.Record(eta, io);
      if recorded.Err? {
        return Err(AppendFailed(recorded.error));
      }
      var sigma := crypto.sign(digest);
      if sigma.None? {
        return Err(KeyFails);
      }
      signed := signed + [q];
      r := Ok(sigma.value);
    }

    method OpensTo(opening: Opening, cB: Word) returns (e: Option<MockError>)
      ensures e.None? <==> CommitmentOf(hash, opening.identifier, opening.salt) == Ok(cB)
      ensures e.Some? ==> !e.value.AppendFailed? && !e.value.KeyFails?
    {
      hide CommitmentOf;
      var c := Commitment(hash, opening.identifier, opening.salt);
      e := match c
        case Err(error) => Some(BadCommitment(error))
        case Ok(word) => if word == cB then None else Some(DoesNotOpen);
    }

    /** Signs x_A at `clock`, or refuses it and changes nothing. */
    method SignApply(request: Apply, record: EligibilityRecord, opening: Opening, clock: U64, io: Io)
      returns (x: Apply, r: Result<Bytes, MockError>)
      modifies this`signed, nonces, nonces.file
      ensures x == request.(tAtt := clock)
      ensures MockStep(Now(), Summary(r)) == MockHandle(Config(), old(Now()), MockApply(x, record, opening), io)
      ensures r.Ok? <==>
        && AcceptsApply(hash, policies, x, record, opening) && x.eta !in old(nonces.seen) && io.Synced?
        && crypto.sign(crypto.digestApply(x)).Some?
      ensures r.Ok? ==> crypto.sign(crypto.digestApply(x)) == Some(r.value)
    {
      hide CommitmentOf, Recording;
      x := request.(tAtt := clock);
      if x.policyId !in policies || !policies[x.policyId].ApplyPolicy? {
        return x, Err(NotAPolicyOfThePhase);
      }
      var opens := OpensTo(opening, x.cB);
      if opens.Some? {
        return x, Err(opens.value);
      }
      if record.account != opening.identifier {
        return x, Err(OtherHolder);
      }
      var threshold := x.txData.amount * policies[x.policyId].incomeMultiple;
      if U256_BOUND <= threshold {
        return x, Err(ThresholdOverflows);
      }
      if record.monthlyIncome < threshold {
        return x, Err(IncomeTooLow);
      }
      r := Sign(x.eta, crypto.digestApply(x), MockApply(x, record, opening), io);
    }

    /** Signs x_S at `clock`, or refuses it and changes nothing. */
    method SignSettle(request: Settle, record: SettlementRecord, opening: Opening, clock: U64, io: Io)
      returns (x: Settle, r: Result<Bytes, MockError>)
      modifies this`signed, nonces, nonces.file
      ensures x == request.(tAtt := clock)
      ensures MockStep(Now(), Summary(r)) == MockHandle(Config(), old(Now()), MockSettle(x, record, opening), io)
      ensures r.Ok? <==>
        && AcceptsSettle(hash, policies, x, record, opening) && x.eta !in old(nonces.seen) && io.Synced?
        && crypto.sign(crypto.digestSettle(x)).Some?
      ensures r.Ok? ==> crypto.sign(crypto.digestSettle(x)) == Some(r.value)
    {
      hide CommitmentOf, Recording, MockDateRule, PropertyWord;
      x := request.(tAtt := clock);
      if x.policyId !in policies || !policies[x.policyId].SettlePolicy? {
        return x, Err(NotAPolicyOfThePhase);
      }
      var policy := policies[x.policyId];
      var opens := OpensTo(opening, x.cB);
      if opens.Some? {
        return x, Err(opens.value);
      }
      var word := PropertyWord(record.propertyId);
      if word.None? {
        return x, Err(BadPropertyWord);
      }
      if word.value != x.txData.propertyId {
        return x, Err(OtherProperty);
      }
      if record.tenant != opening.identifier {
        return x, Err(OtherTenant);
      }
      if TWO_64 <= x.expiresAt {
        return x, Err(ExpiryExceeds64Bits);
      }
      var date := MockDateRule(record.recordDate, x.expiresAt as U64, policy.tauLock, policy.utcOffset);
      if date.Err? {
        return x, Err(BadDate(date.error));
      }
      r := Sign(x.eta, crypto.digestSettle(x), MockSettle(x, record, opening), io);
    }
  }

  /** What the mock notary accepts is what phi_A demands: c_B opens to the account, and the rent is at most
      the income divided by the policy's multiple. On a 256-bit income the overflow check refuses nothing more. */
  lemma MockMeetsPhiA(hash: (nat, nat) -> Word, policies: map<Word, MockPolicy>, x: Apply, record: EligibilityRecord, opening: Opening)
    requires x.policyId in policies && policies[x.policyId].ApplyPolicy? && 0 < policies[x.policyId].incomeMultiple
    requires record.monthlyIncome < 0x1_0000_0000_0000_0000_0000_0000_0000_0000_0000_0000_0000_0000_0000_0000_0000_0000
    ensures AcceptsApply(hash, policies, x, record, opening) <==>
      && CommitmentOf(hash, record.account, opening.salt) == Ok(x.cB)
      && record.account == opening.identifier
      && x.txData.amount <= record.monthlyIncome / policies[x.policyId].incomeMultiple
  {
    hide CommitmentOf;
    AtMostQuotient(x.txData.amount, policies[x.policyId].incomeMultiple, record.monthlyIncome);
  }

  lemma AtMostQuotient(a: nat, m: nat, n: nat)
    requires 0 < m
    ensures a * m <= n <==> a <= n / m
  {
    var q, r := n / m, n % m;
    assert n == m * q + r;
    if a <= q {
      MulMonotone(m, a, q);
    } else {
      MulMonotone(m, q + 1, a);
    }
  }

  /** When a commitment exists: the identifier fits one field element and the salt is one. */
  lemma CommitmentDefined(hash: (nat, nat) -> Word, identifier: Bytes, salt: Word)
    ensures CommitmentOf(hash, identifier, salt).Ok? <==> |identifier| <= 31 && BigEndian(salt) < R
    ensures CommitmentOf(hash, identifier, salt) == Err(IdentifierTooLong) <==> 32 <= |identifier|
  {
  }

  /** What the mock notary accepts is what phi_S demands of its public inputs: with an engagement day, the
      record date is at least that day, the property word is the layout's, and c_B opens to the tenant. */
  lemma MockMeetsPhiS(hash: (nat, nat) -> Word, policies: map<Word, MockPolicy>, x: Settle, record: SettlementRecord,
      opening: Opening, l: Layout.Layout, propertyId: Bytes)
    requires x.policyId in policies && policies[x.policyId].SettlePolicy? && x.expiresAt < TWO_64
    requires DayNumber(record.recordDate).Ok?
    requires EngagementDay(x.expiresAt as U64, policies[x.policyId].tauLock, policies[x.policyId].utcOffset).Ok?
    requires Layout.Validate(l).Ok? && Circuit.PropertyIdWord(l, propertyId).Ok?
    requires Layout.Pad(l, propertyId, l.propertyIdWidth) == Ok(record.propertyId)
    ensures AcceptsSettle(hash, policies, x, record, opening) <==>
      && CommitmentOf(hash, record.tenant, opening.salt) == Ok(x.cB)
      && record.tenant == opening.identifier
      && Circuit.PropertyIdWord(l, propertyId) == Ok(x.txData.propertyId)
      && EngagementDay(x.expiresAt as U64, policies[x.policyId].tauLock, policies[x.policyId].utcOffset).value
           <= RecordDateValue(record.recordDate)
  {
    hide CommitmentOf, MockDateRule, EngagementDay, DayNumber, RecordDateValue, PropertyWord, Circuit.PropertyIdWord, Layout.Pad;
    var policy := policies[x.policyId];
    PropertyWordsAgree(l, propertyId);
    RulesAgree(record.recordDate, x.expiresAt as U64, policy.tauLock, policy.utcOffset);
  }
}
