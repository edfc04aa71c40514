/** What the notary signs in the three phases, and why: statements, policies, and the state machine of a
    notary that refuses, records and signs. */
module Signing {
  import opened Wrappers
  import opened Bytes
  import opened Field
  import opened Shape
  import opened Presentation
  import opened NonceFile
  import opened NonceStore
  import opened Settlement
  import Circuit
  import Layout
  import TitleShape
  import RecordLayout
  import RecordLaws

  // ---------- Statements ----------

  datatype TxData = TxData(propertyId: Word, amount: nat, settlementShare: nat)

  /** x_R. */
  datatype Register = Register(cTx: Word, txData: TxData, policyId: Word, submitter: Bytes, eta: Nonce, tAtt: U64)

  /** x_A. */
  datatype Apply = Apply(txId: nat, cTx: Word, txData: TxData, cB: Word, policyId: Word, submitter: Bytes, eta: Nonce, tAtt: U64)

  /** x_S. */
  datatype Settle = Settle(engId: nat, txId: nat, cTx: Word, txData: TxData, cB: Word, expiresAt: nat, policyId: Word,
    submitter: Bytes, eta: Nonce, tAtt: U64)

  // ---------- Policies and requests ----------

  datatype RegisterPolicy = RegisterPolicy(layout: Layout.Layout, verifier: nat)

  datatype ApplyPolicy = ApplyPolicy(layout: RecordLayout.RecordLayout, verifier: nat)

  datatype SettlePolicy = SettlePolicy(layout: RecordLayout.RecordLayout, verifier: nat, utcOffset: I64)

  datatype RegisterRequest = RegisterRequest(presentation: Presentation, propertyId: Bytes, statement: Register, proof: Bytes)

  datatype ApplyRequest = ApplyRequest(presentation: Presentation, statement: Apply, proof: Bytes)

  datatype SettleRequest = SettleRequest(presentation: Presentation, notationId: Bytes, statement: Settle, proof: Bytes)

  /** The primitives: the EIP-712 digest of each phase's statement under the deployment's domain, whether a
      proof verifies under a verifying key and public inputs (or cannot be read), and the statement key. */
  datatype Crypto = Crypto(
    digestRegister: Register -> Word,
    digestApply: Apply -> Word,
    digestSettle: Settle -> Word,
    proves: (nat, Bytes, seq<string>) -> Option<bool>,
    sign: Word -> Option<Bytes>)

  /** What a notary is configured with. */
  datatype Notary = Notary(
    crypto: Crypto,
    attestationKey: Bytes,
    maxSessionSecs: U64,
    register: map<Word, RegisterPolicy>,
    apply: map<Word, ApplyPolicy>,
    settle: map<Word, SettlePolicy>,
    tauLock: Option<U64>)

  /** Layouts are validated when they are loaded. */
  ghost predicate Validated(n: Notary) {
    && (forall id | id in n.register :: Layout.Validate(n.register[id].layout).Ok?)
    && (forall id | id in n.apply :: RecordLayout.IsValid(n.apply[id].layout))
    && forall id | id in n.settle :: RecordLayout.IsValid(n.settle[id].layout)
  }

  /** At most 64 ASCII letters, digits and hyphens, and at least one. */
  predicate IsSubject(s: Bytes) {
    0 < |s| <= 64 && forall i | 0 <= i < |s| :: 0x30 <= s[i] <= 0x39 || 0x41 <= s[i] <= 0x5a || 0x61 <= s[i] <= 0x7a || s[i] == 0x2d
  }

  lemma SubjectChars(s: string)
    requires IsAscii(s)
    ensures IsSubject(AsciiBytes(s)) <==>
      1 <= |s| <= 64 && forall i | 0 <= i < |s| :: 'a' <= s[i] <= 'z' || 'A' <= s[i] <= 'Z' || '0' <= s[i] <= '9' || s[i] == '-'
  {
    forall i | 0 <= i < |s|
      ensures AsciiBytes(s)[i] as char == s[i]
    {
    }
  }

  // ---------- What justifies a signature ----------

  ghost predicate Verifies(p: Presentation, e: Expectation) {
    && AllWithin(e.shape.revealed, e.shape.len) && |e.shape.template| == e.shape.len
    && (p.output.Some? ==> Consistent(p.output.value))
    && Passes(p, e)
  }

  /** The attested hashes of the hidden values. */
  ghost function HashesIn(p: Presentation, s: ResponseShape): seq<Bytes>
    requires p.output.Some? && p.output.value.commitments.Some?
  {
    HiddenHashes(p.output.value.commitments.value, s.hidden)
  }

  predicate AreWords(hashes: seq<Bytes>) {
    forall i | 0 <= i < |hashes| :: |hashes[i]| == 32
  }

  ghost function RegisterExpectation(n: Notary, p: RegisterPolicy, q: RegisterRequest): Expectation
    requires Layout.Validate(p.layout).Ok?
  {
    Expectation(TitleShape.ShapeOf(p.layout, q.propertyId), n.attestationKey, n.maxSessionSecs)
  }

  /** x_R may be signed: the property of the request is the statement's, the presentation verifies against
      the policy's layout, the attested time is the statement's, and the proof verifies for the attested
      hashes and the statement's own digest. */
  ghost predicate JustifiesRegister(n: Notary, p: RegisterPolicy, q: RegisterRequest) {
    && Layout.Validate(p.layout).Ok?
    && var x, e := q.statement, RegisterExpectation(n, p, q);
    && Circuit.PropertyIdWord(p.layout, q.propertyId) == Ok(x.txData.propertyId)
    && Verifies(q.presentation, e)
    && AttestedTime(q.presentation.output.value) == Ok(x.tAtt)
    && var h := HashesIn(q.presentation, e.shape);
    && |h| == 3 && AreWords(h)
    && n.crypto.proves(p.verifier, q.proof,
         Circuit.PhiRPublic(h[0], h[1], h[2], x.txData.propertyId, n.crypto.digestRegister(x)).Inputs()) == Some(true)
  }

  ghost function ApplyExpectation(n: Notary, p: ApplyPolicy): Expectation
    requires RecordLayout.IsValid(p.layout)
  {
    Expectation(RecordLaws.ShapeOf(p.layout, []), n.attestationKey, n.maxSessionSecs)
  }

  ghost predicate JustifiesApply(n: Notary, p: ApplyPolicy, q: ApplyRequest) {
    && RecordLayout.IsValid(p.layout)
    && var x, e := q.statement, ApplyExpectation(n, p);
    && Verifies(q.presentation, e)
    && AttestedTime(q.presentation.output.value) == Ok(x.tAtt)
    && var h := HashesIn(q.presentation, e.shape);
    && |h| == 2 && AreWords(h)
    && var public := Circuit.NewPhiA(h[0], h[1], x.cB, x.txData.amount, n.crypto.digestApply(x));
    && public.Ok?
    && n.crypto.proves(p.verifier, q.proof, public.value.Inputs()) == Some(true)
  }

  ghost function SettleExpectation(n: Notary, p: SettlePolicy, q: SettleRequest): Expectation
    requires RecordLayout.IsValid(p.layout)
  {
    Expectation(RecordLaws.ShapeOf(p.layout, q.notationId), n.attestationKey, n.maxSessionSecs)
  }

  /** The engagement day of a statement, which the notary derives itself. */
  function DayOf(n: Notary, p: SettlePolicy, x: Settle): Option<nat> {
    if n.tauLock.None? || TWO_64 <= x.expiresAt then None
    else
      match EngagementDay(x.expiresAt as U64, n.tauLock.value, p.utcOffset)
      case Ok(day) => Some(day)
      case Err(_) => None
  }

  ghost predicate JustifiesSettle(n: Notary, p: SettlePolicy, q: SettleRequest) {
    && RecordLayout.IsValid(p.layout)
    && var x, e := q.statement, SettleExpectation(n, p, q);
    && IsSubject(q.notationId)
    && DayOf(n, p, x).Some?
    && Verifies(q.presentation, e)
    && AttestedTime(q.presentation.output.value) == Ok(x.tAtt)
    && var h := HashesIn(q.presentation, e.shape);
    && |h| == 4 && AreWords(h)
    && var public := Circuit.NewPhiS(h[1], h[2], h[3], x.txData.propertyId, x.cB, DayOf(n, p, x).value, n.crypto.digestSettle(x));
    && public.Ok?
    && n.crypto.proves(p.verifier, q.proof, public.value.Inputs()) == Some(true)
  }

  // ---------- The notary as a state machine ----------

  datatype Request = ForRegister(r: RegisterRequest) | ForApply(a: ApplyRequest) | ForSettle(s: SettleRequest)

  function NonceOf(q: Request): Nonce {
    match q
    case ForRegister(r) => r.statement.eta
    case ForApply(a) => a.statement.eta
    case ForSettle(s) => s.statement.eta
  }

  function DigestOf(n: Notary, q: Request): Word {
    match q
    case ForRegister(r) => n.crypto.digestRegister(r.statement)
    case ForApply(a) => n.crypto.digestApply(a.statement)
    case ForSettle(s) => n.crypto.digestSettle(s.statement)
  }

  /** The request names a policy of the map for its phase, and that policy justifies the signature. */
  ghost predicate Justified(n: Notary, q: Request) {
    match q
    case ForRegister(r) => r.statement.policyId in n.register && JustifiesRegister(n, n.register[r.statement.policyId], r)
    case ForApply(a) => a.statement.policyId in n.apply && JustifiesApply(n, n.apply[a.statement.policyId], a)
    case ForSettle(s) => s.statement.policyId in n.settle && JustifiesSettle(n, n.settle[s.statement.policyId], s)
  }

  /** `signed` is the history of requests a signature was returned for. */
  datatype State = State(disk: Disk, seen: set<Nonce>, signed: seq<Request>)

  datatype Failure = Refused | NotRecorded(error: RecordError) | NotSigned

  datatype Step = Step(state: State, result: Result<Bytes, Failure>)

  /** One request: it is refused unless it is justified and its nonce is new; then the nonce is recorded,
      and only then the key signs the statement's digest. */
  ghost function Handle(n: Notary, s: State, q: Request, io: Io): Step {
    if !Justified(n, q) || NonceOf(q) in s.seen then Step(s, Err(Refused))
    else
      var o := Recording(s.disk, s.seen, NonceOf(q), io);
      if o.result.Err? then Step(State(o.disk, o.seen, s.signed), Err(NotRecorded(o.result.error)))
      else
        match n.crypto.sign(DigestOf(n, q))
        case Some(sigma) => Step(State(o.disk, o.seen, s.signed + [q]), Ok(sigma))
        case None => Step(State(o.disk, o.seen, s.signed), Err(NotSigned))
  }

  ghost function Serve(n: Notary, s: State, qs: seq<(Request, Io)>): State
    decreases |qs|
  {
    if qs == [] then s else Serve(n, Handle(n, s, qs[0].0, qs[0].1).state, qs[1..])
  }

  /** Every signed request is justified, no two share a nonce whatever their phases, and all of their nonces
      are remembered. */
  ghost predicate Safe(n: Notary, s: State) {
    && (forall i | 0 <= i < |s.signed| :: Justified(n, s.signed[i]) && NonceOf(s.signed[i]) in s.seen)
    && forall i, j | 0 <= i < j < |s.signed| :: NonceOf(s.signed[i]) != NonceOf(s.signed[j])
  }

  lemma HandleKeepsSafe(n: Notary, s: State, q: Request, io: Io)
    requires Safe(n, s)
    ensures Safe(n, Handle(n, s, q, io).state)
    ensures s.seen <= Handle(n, s, q, io).state.seen
  {
    hide Justified;
  }

  /** Signing safety: over every sequence of requests of any phases, with any appends failing, every
      signature is justified, nonces are distinct across phases, and no nonce known at the start is signed. */
  lemma {:induction false} ServingIsSafe(n: Notary, s: State, qs: seq<(Request, Io)>)
    requires Safe(n, s)
    ensures Safe(n, Serve(n, s, qs))
    ensures s.signed <= Serve(n, s, qs).signed && s.seen <= Serve(n, s, qs).seen
    ensures forall i | |s.signed| <= i < |Serve(n, s, qs).signed| :: NonceOf(Serve(n, s, qs).signed[i]) !in s.seen
    decreases |qs|
  {
    hide Safe, Justified;
    if qs != [] {
      var t := Handle(n, s, qs[0].0, qs[0].1).state;
      HandleKeepsSafe(n, s, qs[0].0, qs[0].1);
      ServingIsSafe(n, t, qs[1..]);
      assert |t.signed| > |s.signed| ==> t.signed == s.signed + [qs[0].0] && NonceOf(qs[0].0) !in s.seen;
      assert t.signed <= Serve(n, s, qs).signed;
    }
  }

  // ---------- What a signed statement rests on ----------

  /** The attestation of a verified presentation is the notary's, and every hash taken from it belongs to
      the only commitment to its range. */
  ghost predicate RestsOn(p: Presentation, n: Notary, s: ResponseShape, hashes: seq<Bytes>) {
    && p.key == n.attestationKey && p.output.Some? && p.output.value.commitments.Some?
    && p.output.value.serverName == Some(s.serverName)
    && |hashes| == |s.hidden|
    && var cs := p.output.value.commitments.value;
    && multiset(Targets(cs)) == multiset(Expected(s))
    && forall i | 0 <= i < |s.hidden| ::
         && OnlyOne(cs, Target(Received, IndicesIn(s.hidden[i])))
         && forall k | 0 <= k < |cs| && cs[k].target == Target(Received, IndicesIn(s.hidden[i])) :: cs[k].hash == hashes[i]
  }

  lemma VerifiedRestsOn(p: Presentation, n: Notary, e: Expectation)
    requires Sound(e.shape) && e.key == n.attestationKey && Verifies(p, e)
    ensures RestsOn(p, n, e.shape, HashesIn(p, e.shape))
  {
    hide Sound, Expected, CountOf, FirstWith, IndicesIn, RevealsExactly;
    var cs := p.output.value.commitments.value;
    AcceptedIsBijection(p, e);
    HiddenCounted(cs, e.shape);
    forall i | 0 <= i < |e.shape.hidden|
      ensures OnlyOne(cs, Target(Received, IndicesIn(e.shape.hidden[i])))
    {
      OnceIsOne(cs, Target(Received, IndicesIn(e.shape.hidden[i])));
    }
    forall i, k | 0 <= i < |e.shape.hidden| && 0 <= k < |cs| && cs[k].target == Target(Received, IndicesIn(e.shape.hidden[i]))
      ensures cs[k].hash == HashesIn(p, e.shape)[i]
    {
      OnlyCommitment(cs, Target(Received, IndicesIn(e.shape.hidden[i])), k);
    }
  }

  /** The shape a request is checked against. */
  ghost function ShapeFor(n: Notary, q: Request): ResponseShape
    requires Justified(n, q)
  {
    match q
    case ForRegister(r) => TitleShape.ShapeOf(n.register[r.statement.policyId].layout, r.propertyId)
    case ForApply(a) => RecordLaws.ShapeOf(n.apply[a.statement.policyId].layout, [])
    case ForSettle(s) => RecordLaws.ShapeOf(n.settle[s.statement.policyId].layout, s.notationId)
  }

  function PresentationOf(q: Request): Presentation {
    match q
    case ForRegister(r) => r.presentation
    case ForApply(a) => a.presentation
    case ForSettle(s) => s.presentation
  }

  /** Every signed statement rests on an attestation of this notary that commits to exactly its policy's
      ranges; the public inputs of its proof were taken from those commitments. */
  lemma SignedRestsOnAttestation(n: Notary, q: Request)
    requires Justified(n, q)
    ensures PresentationOf(q).output.Some? && PresentationOf(q).output.value.commitments.Some?
    ensures RestsOn(PresentationOf(q), n, ShapeFor(n, q), HashesIn(PresentationOf(q), ShapeFor(n, q)))
  {
    hide Sound, Passes, TitleShape.ShapeOf, RecordLaws.ShapeOf, RestsOn;
    match q
    case ForRegister(r) =>
      var p := n.register[r.statement.policyId];
      TitleShape.ShapeIsSound(p.layout, r.propertyId);
      PassesHas(r.presentation, RegisterExpectation(n, p, r));
      VerifiedRestsOn(r.presentation, n, RegisterExpectation(n, p, r));
    case ForApply(a) =>
      var p := n.apply[a.statement.policyId];
      RecordLaws.ShapeIsSound(p.layout, []);
      PassesHas(a.presentation, ApplyExpectation(n, p));
      VerifiedRestsOn(a.presentation, n, ApplyExpectation(n, p));
    case ForSettle(s) =>
      var p := n.settle[s.statement.policyId];
      RecordLaws.ShapeIsSound(p.layout, s.notationId);
      PassesHas(s.presentation, SettleExpectation(n, p, s));
      VerifiedRestsOn(s.presentation, n, SettleExpectation(n, p, s));
  }

  lemma PassesHas(p: Presentation, e: Expectation)
    requires Verifies(p, e)
    ensures p.output.Some? && p.output.value.commitments.Some?
  {
  }
}
