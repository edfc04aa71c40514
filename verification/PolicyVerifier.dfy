/** The policy verifier: checks a request of one of three phases and signs its statement at most once. */
module PolicyVerifier {
  import opened Wrappers
  import opened Bytes
  import opened Shape
  import opened Presentation
  import opened NonceFile
  import opened NonceStore
  import opened Settlement
  import opened Field
  import opened Signing
  import Circuit
  import Layout
  import TitleShape
  import RecordLayout
  import RecordLaws

  datatype SignError =
    | UnknownPolicy
    | NoLockWindow
    | NonceAlreadySigned
    | BadProperty(word: Circuit.WordError)
    | OtherProperty
    | NotASubject
    | ExpiryExceeds64Bits
    | NoEngagementDay(date: DateError)
    | BadPresentation(check: CheckError)
    | OtherTime
    | WrongHiddenCount
    | BadInputs(input: Circuit.InputError)
    | UnreadableProof
    | ProofFails
    | AppendFailed(record: RecordError)
    | KeyFails

  function FailureOf(e: SignError): Failure {
    match e
    case AppendFailed(record) => NotRecorded(record)
    case KeyFails => NotSigned
    case _ => Refused
  }

  function Summary(r: Result<Bytes, SignError>): Result<Bytes, Failure> {
    match r
    case Ok(sigma) => Ok(sigma)
    case Err(e) => Err(FailureOf(e))
  }

  /** Whether verifying a presentation gave a consistent output, as a verified transcript does. */
  predicate WellVerified(p: Presentation) {
    p.output.Some? ==> Consistent(p.output.value)
  }

  class PolicyVerifier {
    const crypto: Crypto
    const attestationKey: Bytes
    const maxSessionSecs: U64
    const policies: map<Word, RegisterPolicy>
    var applyPolicies: map<Word, ApplyPolicy>
    var settlePolicies: map<Word, SettlePolicy>
    var tauLock: Option<U64>
    const nonces: Store
    ghost var signed: seq<Request>

    ghost function Config(): Notary
      reads this
    {
      Notary(crypto, attestationKey, maxSessionSecs, policies, applyPolicies, settlePolicies, tauLock)
    }

    ghost function Now(): State
      reads this, nonces, nonces.file
    {
      State(nonces.file.disk, nonces.seen, signed)
    }

    ghost predicate Valid()
      reads this
    {
      Validated(Config())
    }

    constructor (policies: map<Word, RegisterPolicy>, attestationKey: Bytes, maxSessionSecs: U64, crypto: Crypto, nonces: Store)
      requires forall id | id in policies :: Layout.Validate(policies[id].layout).Ok?
      ensures Valid() && this.nonces == nonces && signed == []
      ensures Config() == Notary(crypto, attestationKey, maxSessionSecs, policies, map[], map[], None)
    {
      this.policies := policies;
      this.attestationKey := attestationKey;
      this.maxSessionSecs := maxSessionSecs;
      this.crypto := crypto;
      this.nonces := nonces;
      applyPolicies, settlePolicies, tauLock, signed := map[], map[], None, [];
    }

    /** Sets the Apply and Settle policies and the deployment's lock window. */
    method WithPhases(apply: map<Word, ApplyPolicy>, settle: map<Word, SettlePolicy>, tauLock: Option<U64>)
      requires Valid()
      requires forall id | id in apply :: RecordLayout.IsValid(apply[id].layout)
      requires forall id | id in settle :: RecordLayout.IsValid(settle[id].layout)
      modifies this
      ensures Valid() && signed == old(signed)
      ensures Config() == old(Config()).(apply := apply, settle := settle, tauLock := tauLock)
    {
      applyPolicies, settlePolicies := apply, settle;
      this.tauLock := tauLock;
    }

    /** `check_shape` for a shape of one of the policies. */
    method CheckAgainst(p: Presentation, s: ResponseShape) returns (r: Result<Attested, CheckError>)
      requires Sound(s) && WellVerified(p)
      ensures r.Ok? <==> Verifies(p, Expectation(s, attestationKey, maxSessionSecs))
      ensures r.Ok? ==> AttestedTime(p.output.value) == Ok(r.value.tAtt)
      ensures r.Ok? ==> HashesIn(p, s) == r.value.hiddenHashes && AreWords(HashesIn(p, s))
    {
      hide Sound, Passes, AttestedTime, HiddenHashes;
      SoundRevealed(s);
      SoundTemplate(s);
      r := CheckShape(p, Expectation(s, attestationKey, maxSessionSecs));
      if r.Ok? {
        PassesHas(p, Expectation(s, attestationKey, maxSessionSecs));
        assert forall i | 0 <= i < |r.value.hiddenHashes| :: |r.value.hiddenHashes[i]| == 32;
      }
    }

    method VerifyProof(verifier: nat, proof: Bytes, inputs: seq<string>) returns (e: Option<SignError>)
      ensures e.None? <==> crypto.proves(verifier, proof, inputs) == Some(true)
      ensures e.Some? ==> FailureOf(e.value) == Refused
    {
      var valid := crypto.proves(verifier, proof, inputs);
      e := match valid
        case None => Some(UnreadableProof)
        case Some(true) => None
        case Some(false) => Some(ProofFails);
    }

    /** Records the nonce and signs the digest. */
    method RecordAndSign(eta: Nonce, digest: Word, io: Io) returns (r: Result<Bytes, SignError>)
      modifies nonces, nonces.file
      ensures var o := Recording(old(nonces.file.disk), old(nonces.seen), eta, io);
        && nonces.file.disk == o.disk && nonces.seen == o.seen
        && r == if o.result.Err? then Err(AppendFailed(o.result.error))
                else match crypto.sign(digest) case Some(sigma) => Ok(sigma) case None => Err(KeyFails)
    {
      hide Recording;
      var recorded := nonces.Record(eta, io);
      if recorded.Err? {
        return Err(AppendFailed(recorded.error));
      }
      var sigma := crypto.sign(digest);
      r := match sigma case Some(s) => Ok(s) case None => Err(KeyFails);
    }

    // ---------- Register ----------

    method CheckRegister(q: RegisterRequest) returns (e: Option<SignError>)
      requires Valid() && WellVerified(q.presentation)
      ensures e.None? <==> Justified(Config(), ForRegister(q)) && q.statement.eta !in nonces.seen
      ensures e.Some? ==> FailureOf(e.value) == Refused
    {
      hide Verifies, TitleShape.ShapeOf, AttestedTime, Circuit.PropertyIdWord, HashesIn, Layout.Validate, Sound;
      var x := q.statement;
      if x.policyId !in policies {
        return Some(UnknownPolicy);
      }
      var policy := policies[x.policyId];
      assert Layout.Validate(policy.layout).Ok? by { assert x.policyId in Config().register; }
      if x.eta in nonces.seen {
        return Some(NonceAlreadySigned);
      }
      var word := Circuit.PropertyIdWord(policy.layout, q.propertyId);
      if word.Err? {
        return Some(BadProperty(word.error));
      }
      if word.value != x.txData.propertyId {
        return Some(OtherProperty);
      }
      var shape := TitleShape.MakeShape(policy.layout, q.propertyId);
      TitleShape.ShapeIsSound(policy.layout, q.propertyId);
      var attested := CheckAgainst(q.presentation, shape);
      if attested.Err? {
        return Some(BadPresentation(attested.error));
      }
      if x.tAtt != attested.value.tAtt {
        return Some(OtherTime);
      }
      var h := attested.value.hiddenHashes;
      assert RegisterExpectation(Config(), policy, q).shape == shape;
      if |h| != 3 {
        return Some(WrongHiddenCount);
      }
      var digest := crypto.digestRegister(x);
      var inputs := Circuit.PhiRInputs(Circuit.PhiRPublic(h[0], h[1], h[2], x.txData.propertyId, digest));
      e := VerifyProof(policy.verifier, q.proof, inputs);
    }

    /** One step of the state machine on a Register request: signs x_R itself, exactly if all checks pass and its
        nonce is new and recorded. */
    method SignRegister(q: RegisterRequest, io: Io) returns (r: Result<Bytes, SignError>)
      requires Valid() && WellVerified(q.presentation)
      modifies this`signed, nonces, nonces.file
      ensures Valid() && Config() == old(Config())
      ensures Step(Now(), Summary(r)) == Handle(Config(), old(Now()), ForRegister(q), io)
      ensures r.Ok? <==>
        && Justified(Config(), ForRegister(q)) && q.statement.eta !in old(nonces.seen) && io.Synced?
        && crypto.sign(crypto.digestRegister(q.statement)).Some?
      ensures r.Ok? ==> crypto.sign(crypto.digestRegister(q.statement)) == Some(r.value)
    {
      hide Justified, Recording, Validated;
      RecordedIff(nonces.file.disk, nonces.seen, q.statement.eta, io);
      var refusal := CheckRegister(q);
      if refusal.Some? {
        return Err(refusal.value);
      }
      r := RecordAndSign(q.statement.eta, crypto.digestRegister(q.statement), io);
      if r.Ok? {
        signed := signed + [ForRegister(q)];
      }
    }

    // ---------- Apply ----------

    method CheckApply(q: ApplyRequest) returns (e: Option<SignError>)
      requires Valid() && WellVerified(q.presentation)
      ensures e.None? <==> Justified(Config(), ForApply(q)) && q.statement.eta !in nonces.seen
      ensures e.Some? ==> FailureOf(e.value) == Refused
    {
      hide Verifies, RecordLaws.ShapeOf, AttestedTime, HashesIn, RecordLayout.IsValid, Sound, Circuit.NewPhiA;
      var x := q.statement;
      if x.policyId !in applyPolicies {
        return Some(UnknownPolicy);
      }
      var policy := applyPolicies[x.policyId];
      assert RecordLayout.IsValid(policy.layout) by { assert x.policyId in Config().apply; }
      if x.eta in nonces.seen {
        return Some(NonceAlreadySigned);
      }
      var shape := RecordLaws.MakeShape(policy.layout, []);
      RecordLaws.ShapeIsSound(policy.layout, []);
      var attested := CheckAgainst(q.presentation, shape);
      if attested.Err? {
        return Some(BadPresentation(attested.error));
      }
      if x.tAtt != attested.value.tAtt {
        return Some(OtherTime);
      }
      var h := attested.value.hiddenHashes;
      assert ApplyExpectation(Config(), policy).shape == shape;
      if |h| != 2 {
        return Some(WrongHiddenCount);
      }
      var public := Circuit.NewPhiA(h[0], h[1], x.cB, x.txData.amount, crypto.digestApply(x));
      if public.Err? {
        return Some(BadInputs(public.error));
      }
      var inputs := Circuit.PhiAInputs(public.value);
      e := VerifyProof(policy.verifier, q.proof, inputs);
    }

    /** One step of the state machine on an Apply request: signs x_A itself, exactly if all checks pass and its
        nonce is new and recorded. */
    method SignApply(q: ApplyRequest, io: Io) returns (r: Result<Bytes, SignError>)
      requires Valid() && WellVerified(q.presentation)
      modifies this`signed, nonces, nonces.file
      ensures Valid() && Config() == old(Config())
      ensures Step(Now(), Summary(r)) == Handle(Config(), old(Now()), ForApply(q), io)
      ensures r.Ok? <==>
        && Justified(Config(), ForApply(q)) && q.statement.eta !in old(nonces.seen) && io.Synced?
        && crypto.sign(crypto.digestApply(q.statement)).Some?
      ensures r.Ok? ==> crypto.sign(crypto.digestApply(q.statement)) == Some(r.value)
    {
      hide Justified, Recording, Validated;
      RecordedIff(nonces.file.disk, nonces.seen, q.statement.eta, io);
      var refusal := CheckApply(q);
      if refusal.Some? {
        return Err(refusal.value);
      }
      r := RecordAndSign(q.statement.eta, crypto.digestApply(q.statement), io);
      if r.Ok? {
        signed := signed + [ForApply(q)];
      }
    }

    // ---------- Settle ----------

    /** The engagement day, after the checks in front of it. */
    method CheckDay(q: SettleRequest, policy: SettlePolicy) returns (r: Result<nat, SignError>)
      ensures r.Ok? <==> IsSubject(q.notationId) && q.statement.eta !in nonces.seen && DayOf(Config(), policy, q.statement).Some?
      ensures r.Ok? ==> DayOf(Config(), policy, q.statement) == Some(r.value)
      ensures r.Err? ==> FailureOf(r.error) == Refused
    {
      hide EngagementDay, IsSubject;
      var x := q.statement;
      if tauLock.None? {
        return Err(NoLockWindow);
      }
      if x.eta in nonces.seen {
        return Err(NonceAlreadySigned);
      }
      if !IsSubject(q.notationId) {
        return Err(NotASubject);
      }
      if TWO_64 <= x.expiresAt {
        return Err(ExpiryExceeds64Bits);
      }
      var day := EngagementDay(x.expiresAt as U64, tauLock.value, policy.utcOffset);
      r := match day case Ok(d) => Ok(d) case Err(e) => Err(NoEngagementDay(e));
    }

    method CheckSettle(q: SettleRequest) returns (e: Option<SignError>)
      requires Valid() && WellVerified(q.presentation)
      ensures e.None? <==> Justified(Config(), ForSettle(q)) && q.statement.eta !in nonces.seen
      ensures e.Some? ==> FailureOf(e.value) == Refused
    {
      hide Verifies, RecordLaws.ShapeOf, AttestedTime, HashesIn, RecordLayout.IsValid, Sound, Circuit.NewPhiS, DayOf, IsSubject;
      var x := q.statement;
      if x.policyId !in settlePolicies {
        return Some(UnknownPolicy);
      }
      var policy := settlePolicies[x.policyId];
      assert RecordLayout.IsValid(policy.layout) by { assert x.policyId in Config().settle; }
      var day := CheckDay(q, policy);
      if day.Err? {
        return Some(day.error);
      }
      var shape := RecordLaws.MakeShape(policy.layout, q.notationId);
      RecordLaws.ShapeIsSound(policy.layout, q.notationId);
      var attested := CheckAgainst(q.presentation, shape);
      if attested.Err? {
        return Some(BadPresentation(attested.error));
      }
      if x.tAtt != attested.value.tAtt {
        return Some(OtherTime);
      }
      var h := attested.value.hiddenHashes;
      assert SettleExpectation(Config(), policy, q).shape == shape;
      if |h| != 4 {
        return Some(WrongHiddenCount);
      }
      // The first hidden value is the account, which is no input of phi_S.
      var public := Circuit.NewPhiS(h[1], h[2], h[3], x.txData.propertyId, x.cB, day.value, crypto.digestSettle(x));
      if public.Err? {
        return Some(BadInputs(public.error));
      }
      var inputs := Circuit.PhiSInputs(public.value);
      e := VerifyProof(policy.verifier, q.proof, inputs);
    }

    /** One step of the state machine on a Settle request: signs x_S itself, exactly if all checks pass and its
        nonce is new and recorded. */
    method SignSettle(q: SettleRequest, io: Io) returns (r: Result<Bytes, SignError>)
      requires Valid() && WellVerified(q.presentation)
      modifies this`signed, nonces, nonces.file
      ensures Valid() && Config() == old(Config())
      ensures Step(Now(), Summary(r)) == Handle(Config(), old(Now()), ForSettle(q), io)
      ensures r.Ok? <==>
        && Justified(Config(), ForSettle(q)) && q.statement.eta !in old(nonces.seen) && io.Synced?
        && crypto.sign(crypto.digestSettle(q.statement)).Some?
      ensures r.Ok? ==> crypto.sign(crypto.digestSettle(q.statement)) == Some(r.value)
    {
      hide Justified, Recording, Validated;
      RecordedIff(nonces.file.disk, nonces.seen, q.statement.eta, io);
      var refusal := CheckSettle(q);
      if refusal.Some? {
        return Err(refusal.value);
      }
      r := RecordAndSign(q.statement.eta, crypto.digestSettle(q.statement), io);
      if r.Ok? {
        signed := signed + [ForSettle(q)];
      }
    }
  }

  lemma SoundTemplate(s: ResponseShape)
    requires Sound(s)
    ensures |s.template| == s.len
  {
  }
}
