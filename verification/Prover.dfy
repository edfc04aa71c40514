/** The commitments of a prover that follows the protocol, and why the policy verifier accepts them. */
module Prover {
  import opened Wrappers
  import opened Bytes
  import opened Pieces
  import opened Shape
  import opened Presentation
  import Layout
  import TitleShape
  import RecordLayout
  import RecordLaws

  datatype CommitError = RequestDiffers | LengthDiffers

  /** Commits to the request line, the response structure and every hidden value, once the transcript
      follows the shape. */
  method Commit(s: ResponseShape, sent: Bytes, received: Bytes) returns (r: Result<seq<Target>, CommitError>)
    ensures r.Ok? <==> s.requestLine + [13, 10] <= sent && |received| == s.len
    ensures r.Ok? ==> r.value == Expected(s)
  {
    if !(s.requestLine + Lit("\r\n") <= sent) {
      return Err(RequestDiffers);
    }
    if |received| != s.len {
      return Err(LengthDiffers);
    }
    var targets := [Target(Sent, IndicesIn(Range(0, |s.requestLine|)))];
    targets := targets + [Target(Received, IndicesOf(s.revealed))];
    for i := 0 to |s.hidden|
      invariant targets == Expected(s)[..i + 2]
    {
      targets := targets + [Target(Received, IndicesIn(s.hidden[i]))];
    }
    r := Ok(targets);
  }

  /** A presentation of one exchange by a prover that tells the truth and commits as `Commit` does. */
  ghost predicate Honest(p: Presentation, e: Expectation, sent: Bytes, received: Bytes) {
    && p.key == e.key && p.output.Some? && Consistent(p.output.value)
    && var o := p.output.value;
    && o.serverName == Some(e.shape.serverName) && o.receivedLength == |received|
    && o.transcript.Some? && o.commitments.Some?
    && PresentsTruthfully(o.transcript.value, e.shape, sent, received)
    && e.shape.requestLine + Lit("\r\n") <= sent
    && multiset(Targets(o.commitments.value)) == multiset(Expected(e.shape))
    && AllSha256(o.commitments.value)
    && forall k | 0 <= k < |o.commitments.value| :: |o.commitments.value[k].hash| == 32
  }

  /** The attested time exists and fits the connection time. */
  predicate InTime(p: Presentation, maxSessionSecs: Settlement.U64) {
    && p.output.Some? && AttestedTime(p.output.value).Ok?
    && CheckTimes(AttestedTime(p.output.value).value, p.output.value.connectionTime, maxSessionSecs).Ok?
  }

  lemma HonestAccepted(p: Presentation, e: Expectation, sent: Bytes, received: Bytes)
    requires Sound(e.shape) && Reveals(e.shape, received) && Honest(p, e, sent, received)
    ensures AllWithin(e.shape.revealed, e.shape.len) && (Passes(p, e) <==> InTime(p, e.maxSessionSecs))
  {
    hide Sound, Reveals, Passes, PresentsTruthfully, AttestedTime, CheckTimes, Expected;
    SoundRevealed(e.shape);
    assert e.shape.requestLine <= e.shape.requestLine + Lit("\r\n");
    HonestPasses(p, e, sent, received);
  }

  /** Every title response a registry can render is accepted from an honest prover, in time. */
  lemma HonestTitleAccepted(l: Layout.Layout, propertyId: Bytes, account: Bytes, record: Layout.TitleRecord,
      p: Presentation, e: Expectation, sent: Bytes)
    requires Layout.Validate(l).Ok? && Layout.Render(l, account, record).Ok?
    requires e.shape == TitleShape.ShapeOf(l, propertyId)
    requires Honest(p, e, sent, Layout.Render(l, account, record).value.bytes)
    ensures Sound(e.shape) && AllWithin(e.shape.revealed, e.shape.len)
    ensures Passes(p, e) <==> InTime(p, e.maxSessionSecs)
  {
    hide Layout.Render, TitleShape.ShapeOf, Honest, Passes, Sound, Reveals;
    TitleShape.ShapeIsSound(l, propertyId);
    TitleShape.ResponseReveals(l, propertyId, account, record);
    HonestAccepted(p, e, sent, Layout.Render(l, account, record).value.bytes);
  }

  /** And so is every record response. */
  lemma HonestRecordAccepted(l: RecordLayout.RecordLayout, subject: Bytes, account: Bytes, values: seq<Bytes>,
      p: Presentation, e: Expectation, sent: Bytes)
    requires RecordLayout.IsValid(l) && RecordLayout.Render(l, account, values).Ok?
    requires e.shape == RecordLaws.ShapeOf(l, subject)
    requires Honest(p, e, sent, RecordLayout.Render(l, account, values).value.bytes)
    ensures Sound(e.shape) && AllWithin(e.shape.revealed, e.shape.len)
    ensures Passes(p, e) <==> InTime(p, e.maxSessionSecs)
  {
    hide RecordLayout.Render, RecordLaws.ShapeOf, Honest, Passes, Sound, Reveals;
    RecordLaws.ShapeIsSound(l, subject);
    RecordLaws.ResponseReveals(l, subject, account, values);
    HonestAccepted(p, e, sent, RecordLayout.Render(l, account, values).value.bytes);
  }
}
