/** What a statement needs to be signed, value by value: which attested hash stands for which input of the
    phase's circuit. */
module Evidence {
  import opened Wrappers
  import opened Bytes
  import opened Field
  import opened Pieces
  import opened Shape
  import opened Presentation
  import opened Settlement
  import opened Signing
  import Circuit
  import Layout
  import LayoutLaws
  import TitleShape
  import RecordLayout
  import RecordLaws

  /** The presentation passes against the shape, with `t` as its one attested time. */
  ghost predicate ShownAt(p: Presentation, n: Notary, s: ResponseShape, t: U64) {
    && Verifies(p, Expectation(s, n.attestationKey, n.maxSessionSecs))
    && OnlyExtension(p.output.value.extensions, Lit("pprev.t_att"), TimeBytes(t))
  }

  /** The only commitment to the received bytes of `r` has the hash `w`. */
  ghost predicate CommittedAt(p: Presentation, r: Range, w: Word) {
    && p.output.Some? && p.output.value.commitments.Some?
    && var cs := p.output.value.commitments.value;
    && OnlyOne(cs, Target(Received, IndicesIn(r)))
    && forall k | 0 <= k < |cs| && cs[k].target == Target(Received, IndicesIn(r)) :: cs[k].hash == w
  }

  lemma ShownIff(p: Presentation, n: Notary, s: ResponseShape, t: U64)
    ensures ShownAt(p, n, s, t) <==>
      && Verifies(p, Expectation(s, n.attestationKey, n.maxSessionSecs))
      && AttestedTime(p.output.value) == Ok(t)
  {
    hide AttestedTime, OnlyExtension, TimeBytes, Passes, Lit;
    if Verifies(p, Expectation(s, n.attestationKey, n.maxSessionSecs)) {
      PassesHas(p, Expectation(s, n.attestationKey, n.maxSessionSecs));
      AttestedTimeIs(p.output.value, t);
    }
  }

  /** The hashes taken from a verified presentation are those committed to at the hidden ranges, in order. */
  lemma HashesAreCommitted(p: Presentation, n: Notary, s: ResponseShape, i: nat)
    requires Sound(s) && Verifies(p, Expectation(s, n.attestationKey, n.maxSessionSecs)) && i < |s.hidden|
    ensures p.output.Some? && p.output.value.commitments.Some?
    ensures |HashesIn(p, s)| == |s.hidden| && |HashesIn(p, s)[i]| == 32
    ensures forall w: Word :: CommittedAt(p, s.hidden[i], w) <==> HashesIn(p, s)[i] == w
  {
    hide Sound, IndicesIn, Passes;
    PassesHas(p, Expectation(s, n.attestationKey, n.maxSessionSecs));
    VerifiedRestsOn(p, n, Expectation(s, n.attestationKey, n.maxSessionSecs));
    var cs := p.output.value.commitments.value;
    var k :| 0 <= k < |cs| && cs[k].target == Target(Received, IndicesIn(s.hidden[i]));
    FitsAt(p, Expectation(s, n.attestationKey, n.maxSessionSecs), i, k);
  }

  lemma FitsAt(p: Presentation, e: Expectation, i: nat, k: nat)
    requires Verifies(p, e)
    requires p.output.Some? && p.output.value.commitments.Some?
    requires var cs := p.output.value.commitments.value;
      i < |e.shape.hidden| && k < |cs| && cs[k].target == Target(Received, IndicesIn(e.shape.hidden[i]))
    ensures |p.output.value.commitments.value[k].hash| == 32
  {
    hide IndicesIn, Shows, CountsMatch, AllSha256;
  }

  // ---------- Register ----------

  /** The account, the owners and the property are committed to at their places in the title response, and
      the proof verifies for them, the statement's property and the statement's own digest. */
  ghost predicate ProvesRegister(n: Notary, p: RegisterPolicy, q: RegisterRequest, account: Word, owners: Word, property: Word,
      inputs: seq<string>)
    requires Layout.Validate(p.layout).Ok?
  {
    var places := LayoutLaws.Template(p.layout).ranges;
    && CommittedAt(q.presentation, places.account, account)
    && CommittedAt(q.presentation, places.owners, owners)
    && CommittedAt(q.presentation, places.propertyId, property)
    && Circuit.RegisterInputs(inputs, account, owners, property, q.statement.txData.propertyId, n.crypto.digestRegister(q.statement))
    && n.crypto.proves(p.verifier, q.proof, inputs) == Some(true)
  }

  /** Exactly when x_R may be signed. */
  lemma RegisterJustified(n: Notary, q: RegisterRequest)
    ensures Justified(n, ForRegister(q)) <==>
      && q.statement.policyId in n.register
      && var p := n.register[q.statement.policyId];
      && Layout.Validate(p.layout).Ok?
      && Circuit.PropertyIdWord(p.layout, q.propertyId) == Ok(q.statement.txData.propertyId)
      && ShownAt(q.presentation, n, TitleShape.ShapeOf(p.layout, q.propertyId), q.statement.tAtt)
      && exists account: Word, owners: Word, property: Word, inputs: seq<string> ::
           ProvesRegister(n, p, q, account, owners, property, inputs)
  {
    hide ShownAt, Verifies, AttestedTime, HashesIn, AreWords, TitleShape.ShapeOf, Circuit.PropertyIdWord, Layout.Validate,
      ProvesRegister;
    if q.statement.policyId in n.register && Layout.Validate(n.register[q.statement.policyId].layout).Ok? {
      var p := n.register[q.statement.policyId];
      var s := TitleShape.ShapeOf(p.layout, q.propertyId);
      ShownIff(q.presentation, n, s, q.statement.tAtt);
      if Verifies(q.presentation, Expectation(s, n.attestationKey, n.maxSessionSecs)) {
        RegisterProven(n, p, q);
      }
    }
  }

  lemma TitlePlaces(l: Layout.Layout, propertyId: Bytes)
    requires Layout.Validate(l).Ok?
    ensures var (s, places) := (TitleShape.ShapeOf(l, propertyId), LayoutLaws.Template(l).ranges);
      |s.hidden| == 3 && s.hidden[0] == places.account && s.hidden[1] == places.owners && s.hidden[2] == places.propertyId
  {
  }

  lemma RegisterProven(n: Notary, p: RegisterPolicy, q: RegisterRequest)
    requires Layout.Validate(p.layout).Ok? && Verifies(q.presentation, RegisterExpectation(n, p, q))
    ensures q.presentation.output.Some? && q.presentation.output.value.commitments.Some?
    ensures var h := HashesIn(q.presentation, TitleShape.ShapeOf(p.layout, q.propertyId));
      && |h| == 3 && AreWords(h)
      && (n.crypto.proves(p.verifier, q.proof,
            Circuit.PhiRPublic(h[0], h[1], h[2], q.statement.txData.propertyId, n.crypto.digestRegister(q.statement)).Inputs()) == Some(true)
          <==> exists account: Word, owners: Word, property: Word, inputs: seq<string> ::
                 ProvesRegister(n, p, q, account, owners, property, inputs))
  {
    hide Verifies, HashesIn, Layout.Validate, Sound, CommittedAt, Circuit.RegisterInputs, TitleShape.ShapeOf, LayoutLaws.Template;
    TitlePlaces(p.layout, q.propertyId);
    var s := TitleShape.ShapeOf(p.layout, q.propertyId);
    TitleShape.ShapeIsSound(p.layout, q.propertyId);
    HashesAreCommitted(q.presentation, n, s, 0);
    HashesAreCommitted(q.presentation, n, s, 1);
    HashesAreCommitted(q.presentation, n, s, 2);
    var h := HashesIn(q.presentation, s);
    var x := q.statement;
    forall inputs
      ensures inputs == Circuit.PhiRPublic(h[0], h[1], h[2], x.txData.propertyId, n.crypto.digestRegister(x)).Inputs()
        <==> Circuit.RegisterInputs(inputs, h[0], h[1], h[2], x.txData.propertyId, n.crypto.digestRegister(x))
    {
      Circuit.PhiRExact(h[0], h[1], h[2], x.txData.propertyId, n.crypto.digestRegister(x), inputs);
    }
    var inputs := Circuit.PhiRPublic(h[0], h[1], h[2], x.txData.propertyId, n.crypto.digestRegister(x)).Inputs();
    if n.crypto.proves(p.verifier, q.proof, inputs) == Some(true) {
      assert ProvesRegister(n, p, q, h[0], h[1], h[2], inputs);
    }
  }

  // ---------- Apply ----------

  lemma RecordPlaces(l: RecordLayout.RecordLayout, subject: Bytes)
    requires RecordLayout.IsValid(l)
    ensures var (s, places) := (RecordLaws.ShapeOf(l, subject), RecordLaws.Template(l).ranges);
      && |places.fields| == |l.fields| && |s.hidden| == 1 + |l.fields|
      && s.hidden[0] == places.account && forall i | 0 <= i < |l.fields| :: s.hidden[i + 1] == places.fields[i]
  {
    hide RecordLayout.IsValid, RecordLaws.Template;
    RecordLaws.ShapeIsSound(l, subject);
  }

  /** The hashes taken from a verified record presentation, by place: the account's, then each field's. */
  lemma RecordHashes(p: Presentation, n: Notary, l: RecordLayout.RecordLayout, subject: Bytes)
    requires RecordLayout.IsValid(l) && Verifies(p, Expectation(RecordLaws.ShapeOf(l, subject), n.attestationKey, n.maxSessionSecs))
    ensures p.output.Some? && p.output.value.commitments.Some?
    ensures var (h, places) := (HashesIn(p, RecordLaws.ShapeOf(l, subject)), RecordLaws.Template(l).ranges);
      && |places.fields| == |l.fields| && |h| == 1 + |l.fields| && AreWords(h)
      && (forall w: Word :: CommittedAt(p, places.account, w) <==> h[0] == w)
      && forall i, w: Word | 0 <= i < |l.fields| :: CommittedAt(p, places.fields[i], w) <==> h[i + 1] == w
  {
    hide Verifies, HashesIn, RecordLayout.IsValid, Sound, CommittedAt, RecordLaws.ShapeOf, RecordLaws.Template;
    var s := RecordLaws.ShapeOf(l, subject);
    RecordPlaces(l, subject);
    RecordLaws.ShapeIsSound(l, subject);
    HashesAreCommitted(p, n, s, 0);
    var h := HashesIn(p, s);
    forall i | 0 <= i < |l.fields|
      ensures forall w: Word :: CommittedAt(p, RecordLaws.Template(l).ranges.fields[i], w) <==> h[i + 1] == w
    {
      HashesAreCommitted(p, n, s, i + 1);
    }
    forall i | 0 <= i < |h|
      ensures |h[i]| == 32
    {
      HashesAreCommitted(p, n, s, i);
    }
  }

  /** The account and the income, the one field of the record, are committed to at their places, and the proof
      verifies for them, the statement's c_B and amount and the statement's own digest. */
  ghost predicate ProvesApply(n: Notary, p: ApplyPolicy, q: ApplyRequest, account: Word, income: Word, inputs: seq<string>)
    requires RecordLayout.IsValid(p.layout) && |RecordLaws.Template(p.layout).ranges.fields| == 1
  {
    var places := RecordLaws.Template(p.layout).ranges;
    && CommittedAt(q.presentation, places.account, account)
    && CommittedAt(q.presentation, places.fields[0], income)
    && Circuit.ApplyInputs(inputs, account, income, q.statement.cB, q.statement.txData.amount, n.crypto.digestApply(q.statement))
    && n.crypto.proves(p.verifier, q.proof, inputs) == Some(true)
  }

  /** Exactly when x_A may be signed. */
  lemma ApplyJustified(n: Notary, q: ApplyRequest)
    ensures Justified(n, ForApply(q)) <==>
      && q.statement.policyId in n.apply
      && var p := n.apply[q.statement.policyId];
      && RecordLayout.IsValid(p.layout)
      && |p.layout.fields| == 1 && |RecordLaws.Template(p.layout).ranges.fields| == 1
      && ShownAt(q.presentation, n, RecordLaws.ShapeOf(p.layout, []), q.statement.tAtt)
      && q.statement.txData.amount < 79228162514264337593543950336 && BigEndian(q.statement.cB) < R
      && exists account: Word, income: Word, inputs: seq<string> :: ProvesApply(n, p, q, account, income, inputs)
  {
    hide ShownAt, Verifies, AttestedTime, HashesIn, AreWords, RecordLaws.ShapeOf, RecordLayout.IsValid, ProvesApply, BigEndian,
      RecordLaws.Template, Circuit.NewPhiA;
    if q.statement.policyId in n.apply && RecordLayout.IsValid(n.apply[q.statement.policyId].layout) {
      var p := n.apply[q.statement.policyId];
      var s := RecordLaws.ShapeOf(p.layout, []);
      RecordPlaces(p.layout, []);
      ShownIff(q.presentation, n, s, q.statement.tAtt);
      if Verifies(q.presentation, Expectation(s, n.attestationKey, n.maxSessionSecs)) {
        ApplyProven(n, p, q);
      }
    }
  }

  lemma ApplyProven(n: Notary, p: ApplyPolicy, q: ApplyRequest)
    requires RecordLayout.IsValid(p.layout) && Verifies(q.presentation, ApplyExpectation(n, p))
    ensures q.presentation.output.Some? && q.presentation.output.value.commitments.Some?
    ensures |RecordLaws.Template(p.layout).ranges.fields| == |p.layout.fields|
    ensures var h := HashesIn(q.presentation, RecordLaws.ShapeOf(p.layout, []));
      && (|h| == 2 <==> |p.layout.fields| == 1)
      && (|h| == 2 ==>
            && AreWords(h)
            && var x := q.statement;
            && var public := Circuit.NewPhiA(h[0], h[1], x.cB, x.txData.amount, n.crypto.digestApply(x));
            && (public.Ok? <==> x.txData.amount < 79228162514264337593543950336 && BigEndian(x.cB) < R)
            && (public.Ok? ==>
                  (n.crypto.proves(p.verifier, q.proof, public.value.Inputs()) == Some(true)
                   <==> exists account: Word, income: Word, inputs: seq<string> :: ProvesApply(n, p, q, account, income, inputs))))
  {
    hide Verifies, HashesIn, RecordLayout.IsValid, CommittedAt, RecordLaws.ShapeOf, RecordLaws.Template, BigEndian, Circuit.NewPhiA,
      ProvesApply;
    RecordHashes(q.presentation, n, p.layout, []);
    var h := HashesIn(q.presentation, RecordLaws.ShapeOf(p.layout, []));
    if |h| == 2 {
      var places := RecordLaws.Template(p.layout).ranges;
      assert forall w: Word :: CommittedAt(q.presentation, places.fields[0], w) <==> h[0 + 1] == w;
      ApplyInputsProve(n, p, q, h[0], h[1]);
    }
  }

  lemma ApplyInputsProve(n: Notary, p: ApplyPolicy, q: ApplyRequest, account: Word, income: Word)
    requires RecordLayout.IsValid(p.layout) && |RecordLaws.Template(p.layout).ranges.fields| == 1
    requires var places := RecordLaws.Template(p.layout).ranges;
      && (forall w: Word :: CommittedAt(q.presentation, places.account, w) <==> account == w)
      && forall w: Word :: CommittedAt(q.presentation, places.fields[0], w) <==> income == w
    ensures var x := q.statement;
      var public := Circuit.NewPhiA(account, income, x.cB, x.txData.amount, n.crypto.digestApply(x));
      && (public.Ok? <==> x.txData.amount < 79228162514264337593543950336 && BigEndian(x.cB) < R)
      && (public.Ok? ==>
            (n.crypto.proves(p.verifier, q.proof, public.value.Inputs()) == Some(true)
             <==> exists account: Word, income: Word, inputs: seq<string> :: ProvesApply(n, p, q, account, income, inputs)))
  {
    hide RecordLayout.IsValid, CommittedAt, RecordLaws.Template, BigEndian, Circuit.NewPhiA, Circuit.ApplyInputs;
    var x := q.statement;
    var public := Circuit.NewPhiA(account, income, x.cB, x.txData.amount, n.crypto.digestApply(x));
    Circuit.PhiAExact(account, income, x.cB, x.txData.amount, n.crypto.digestApply(x), []);
    if public.Ok? {
      var inputs := public.value.Inputs();
      Circuit.PhiAExact(account, income, x.cB, x.txData.amount, n.crypto.digestApply(x), inputs);
      if n.crypto.proves(p.verifier, q.proof, inputs) == Some(true) {
        assert ProvesApply(n, p, q, account, income, inputs);
      }
      if a: Word, i: Word, some: seq<string> :| ProvesApply(n, p, q, a, i, some) {
        Circuit.PhiAExact(account, income, x.cB, x.txData.amount, n.crypto.digestApply(x), some);
      }
    }
  }

  // ---------- Settle ----------

  /** The property, the tenant and the date, the record's three fields, are committed to at their places, and
      the proof verifies for them, the statement's property and c_B, the engagement day and the statement's
      own digest. The account is shown but is no input. */
  ghost predicate ProvesSettle(n: Notary, p: SettlePolicy, q: SettleRequest, day: nat, property: Word, tenant: Word, date: Word,
      inputs: seq<string>)
    requires RecordLayout.IsValid(p.layout) && |RecordLaws.Template(p.layout).ranges.fields| == 3
  {
    var places := RecordLaws.Template(p.layout).ranges;
    && CommittedAt(q.presentation, places.fields[0], property)
    && CommittedAt(q.presentation, places.fields[1], tenant)
    && CommittedAt(q.presentation, places.fields[2], date)
    && Circuit.SettleInputs(inputs, property, tenant, date, q.statement.txData.propertyId, q.statement.cB, day,
         n.crypto.digestSettle(q.statement))
    && n.crypto.proves(p.verifier, q.proof, inputs) == Some(true)
  }

  /** The engagement day that the configured lock window and the policy's zone give the statement. */
  predicate EngagedOn(n: Notary, p: SettlePolicy, x: Settle, day: nat) {
    && n.tauLock.Some? && x.expiresAt < 0x1_0000_0000_0000_0000
    && EngagementDay(x.expiresAt as U64, n.tauLock.value, p.utcOffset) == Ok(day)
  }

  /** Exactly when x_S may be signed. */
  lemma SettleJustified(n: Notary, q: SettleRequest)
    ensures Justified(n, ForSettle(q)) <==>
      && q.statement.policyId in n.settle
      && var p := n.settle[q.statement.policyId];
      && RecordLayout.IsValid(p.layout) && IsSubject(q.notationId)
      && |p.layout.fields| == 3 && |RecordLaws.Template(p.layout).ranges.fields| == 3
      && ShownAt(q.presentation, n, RecordLaws.ShapeOf(p.layout, q.notationId), q.statement.tAtt)
      && BigEndian(q.statement.cB) < R
      && exists day: nat, property: Word, tenant: Word, date: Word, inputs: seq<string> ::
           EngagedOn(n, p, q.statement, day) && ProvesSettle(n, p, q, day, property, tenant, date, inputs)
  {
    hide ShownAt, Verifies, AttestedTime, HashesIn, AreWords, RecordLaws.ShapeOf, RecordLayout.IsValid, ProvesSettle, BigEndian,
      RecordLaws.Template, Circuit.NewPhiS, IsSubject, EngagementDay;
    if q.statement.policyId in n.settle && RecordLayout.IsValid(n.settle[q.statement.policyId].layout) {
      var p := n.settle[q.statement.policyId];
      var s := RecordLaws.ShapeOf(p.layout, q.notationId);
      RecordPlaces(p.layout, q.notationId);
      ShownIff(q.presentation, n, s, q.statement.tAtt);
      DayIs(n, p, q.statement);
      if Verifies(q.presentation, Expectation(s, n.attestationKey, n.maxSessionSecs)) && DayOf(n, p, q.statement).Some? {
        SettleProven(n, p, q, DayOf(n, p, q.statement).value);
      }
    }
  }

  lemma DayIs(n: Notary, p: SettlePolicy, x: Settle)
    ensures DayOf(n, p, x).None? ==> forall day :: !EngagedOn(n, p, x, day)
    ensures DayOf(n, p, x).Some? ==> forall day :: EngagedOn(n, p, x, day) <==> day == DayOf(n, p, x).value
  {
    hide EngagementDay;
  }

  lemma DayFits(n: Notary, p: SettlePolicy, x: Settle, day: nat)
    requires EngagedOn(n, p, x, day)
    ensures day < 134217728
  {
    hide YmdOfDays;
    YmdOfDaysDefined((x.expiresAt - n.tauLock.value as int + p.utcOffset as int) / SECS_PER_DAY);
  }

  lemma SettleProven(n: Notary, p: SettlePolicy, q: SettleRequest, day: nat)
    requires RecordLayout.IsValid(p.layout) && Verifies(q.presentation, SettleExpectation(n, p, q)) && EngagedOn(n, p, q.statement, day)
    ensures q.presentation.output.Some? && q.presentation.output.value.commitments.Some?
    ensures |RecordLaws.Template(p.layout).ranges.fields| == |p.layout.fields|
    ensures var h := HashesIn(q.presentation, RecordLaws.ShapeOf(p.layout, q.notationId));
      && (|h| == 4 <==> |p.layout.fields| == 3)
      && (|h| == 4 ==>
            && AreWords(h)
            && var x := q.statement;
            && var public := Circuit.NewPhiS(h[1], h[2], h[3], x.txData.propertyId, x.cB, day, n.crypto.digestSettle(x));
            && (public.Ok? <==> BigEndian(x.cB) < R)
            && (public.Ok? ==>
                  (n.crypto.proves(p.verifier, q.proof, public.value.Inputs()) == Some(true)
                   <==> exists property: Word, tenant: Word, date: Word, inputs: seq<string> ::
                          ProvesSettle(n, p, q, day, property, tenant, date, inputs))))
  {
    hide Verifies, HashesIn, RecordLayout.IsValid, CommittedAt, RecordLaws.ShapeOf, RecordLaws.Template, BigEndian, Circuit.NewPhiS,
      ProvesSettle;
    RecordHashes(q.presentation, n, p.layout, q.notationId);
    var h := HashesIn(q.presentation, RecordLaws.ShapeOf(p.layout, q.notationId));
    if |h| == 4 {
      var places := RecordLaws.Template(p.layout).ranges;
      assert forall w: Word :: CommittedAt(q.presentation, places.fields[0], w) <==> h[0 + 1] == w;
      assert forall w: Word :: CommittedAt(q.presentation, places.fields[1], w) <==> h[1 + 1] == w;
      assert forall w: Word :: CommittedAt(q.presentation, places.fields[2], w) <==> h[2 + 1] == w;
      SettleInputsProve(n, p, q, day, h[1], h[2], h[3]);
    }
  }

  lemma SettleInputsProve(n: Notary, p: SettlePolicy, q: SettleRequest, day: nat, property: Word, tenant: Word, date: Word)
    requires RecordLayout.IsValid(p.layout) && |RecordLaws.Template(p.layout).ranges.fields| == 3
    requires EngagedOn(n, p, q.statement, day)
    requires var places := RecordLaws.Template(p.layout).ranges;
      && (forall w: Word :: CommittedAt(q.presentation, places.fields[0], w) <==> property == w)
      && (forall w: Word :: CommittedAt(q.presentation, places.fields[1], w) <==> tenant == w)
      && forall w: Word :: CommittedAt(q.presentation, places.fields[2], w) <==> date == w
    ensures var x := q.statement;
      var public := Circuit.NewPhiS(property, tenant, date, x.txData.propertyId, x.cB, day, n.crypto.digestSettle(x));
      && (public.Ok? <==> BigEndian(x.cB) < R)
      && (public.Ok? ==>
            (n.crypto.proves(p.verifier, q.proof, public.value.Inputs()) == Some(true)
             <==> exists property: Word, tenant: Word, date: Word, inputs: seq<string> ::
                    ProvesSettle(n, p, q, day, property, tenant, date, inputs)))
  {
    hide RecordLayout.IsValid, CommittedAt, RecordLaws.Template, BigEndian, Circuit.NewPhiS, Circuit.SettleInputs, EngagementDay;
    DayFits(n, p, q.statement, day);
    var x := q.statement;
    var d := n.crypto.digestSettle(x);
    var public := Circuit.NewPhiS(property, tenant, date, x.txData.propertyId, x.cB, day, d);
    Circuit.PhiSExact(property, tenant, date, x.txData.propertyId, x.cB, day, d, []);
    if public.Ok? {
      var inputs := public.value.Inputs();
      Circuit.PhiSExact(property, tenant, date, x.txData.propertyId, x.cB, day, d, inputs);
      if n.crypto.proves(p.verifier, q.proof, inputs) == Some(true) {
        assert ProvesSettle(n, p, q, day, property, tenant, date, inputs);
      }
      if p1: Word, t1: Word, d1: Word, some: seq<string> :| ProvesSettle(n, p, q, day, p1, t1, d1, some) {
        Circuit.PhiSExact(property, tenant, date, x.txData.propertyId, x.cB, day, d, some);
      }
    }
  }
}
