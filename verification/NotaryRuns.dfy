/** Whole lifetimes of a notary: starts, requests of every phase, failed appends, exits and power losses, for
    the policy verifier and for the mock notary. Both are one machine, which the nonce store's machine
    follows step by step. */
module NotaryRuns {
  import opened Wrappers
  import opened Bytes
  import opened NonceFile
  import Store = NonceStore
  import Signing
  import MockNotary

  /** How a notary treats a request: its nonce, whether it is accepted, and whether the key signs it. */
  datatype Desk<!Q> = Desk(nonceOf: Q -> Nonce, accepts: Q -> bool, signs: Q -> bool)

  datatype Life<Q> = Life(disk: Store.Disk, process: Store.Process, signed: seq<Q>)

  datatype LifeEvent<Q> =
    | Starts
    | Receives(q: Q, io: Store.Io)
    | Exits
    | LosesPower(tail: Bytes)
    | Wrecks(gaps: seq<Bytes>)

  ghost function Next<Q>(d: Desk<Q>, l: Life<Q>, e: LifeEvent<Q>): Life<Q> {
    match e
    case Starts =>
      (match (l.process, Load(l.disk.text))
       case (Down, Ok(seen)) => l.(process := Store.Up(seen))
       case _ => l)
    case Receives(q, io) =>
      if l.process.Down? || !d.accepts(q) then l
      else
        var o := Store.Recording(l.disk, l.process.seen, d.nonceOf(q), io);
        Life(o.disk, Store.Up(o.seen), if o.result.Ok? && d.signs(q) then l.signed + [q] else l.signed)
    case Exits => l.(process := Store.Down)
    case LosesPower(tail) =>
      if l.disk.durable <= |l.disk.text| then
        var text := l.disk.text[..l.disk.durable] + tail;
        Life(Store.Disk(text, |text|, l.disk.confirmed), Store.Down, l.signed)
      else l
    case Wrecks(gaps) =>
      if |gaps| == |l.disk.confirmed| + 1 then
        var text := Store.Interleaved(l.disk.confirmed, gaps);
        Life(Store.Disk(text, |text|, l.disk.confirmed), Store.Down, l.signed)
      else l
  }

  ghost function Run<Q>(d: Desk<Q>, l: Life<Q>, events: seq<LifeEvent<Q>>): Life<Q>
    decreases |events|
  {
    if events == [] then l else Run(d, Next(d, l, events[0]), events[1..])
  }

  function FirstLife<Q>(): Life<Q> {
    Life(Store.Disk([], 0, []), Store.Down, [])
  }

  // ---------- The nonce store's machine follows ----------

  ghost function NoncesOf<Q>(d: Desk<Q>, qs: seq<Q>): (r: seq<Nonce>)
    ensures |r| == |qs| && forall i | 0 <= i < |r| :: r[i] == d.nonceOf(qs[i])
  {
    seq(|qs|, i requires 0 <= i < |qs| => d.nonceOf(qs[i]))
  }

  /** A life, with every signed request reduced to its nonce. */
  ghost function Follows<Q>(d: Desk<Q>, l: Life<Q>): Store.Machine {
    Store.Machine(l.disk, l.process, NoncesOf(d, l.signed))
  }

  ghost function EventOf<Q>(d: Desk<Q>, e: LifeEvent<Q>): Store.Event {
    match e
    case Starts => Store.Open
    case Receives(q, io) => Store.Sign(d.nonceOf(q), io, d.signs(q))
    case Exits => Store.Exit
    case LosesPower(tail) => Store.PowerLoss(tail)
    case Wrecks(gaps) => Store.Wreckage(gaps)
  }

  /** A refused request changes nothing; every other event is one step of the nonce store's machine. */
  lemma StepFollows<Q>(d: Desk<Q>, l: Life<Q>, e: LifeEvent<Q>)
    ensures e.Receives? && !d.accepts(e.q) ==> Next(d, l, e) == l
    ensures !(e.Receives? && !d.accepts(e.q)) ==>
      Follows(d, Next(d, l, e)) == Store.Next(Follows(d, l), EventOf(d, e))
  {
    hide Store.Recording;
    if e.Receives? {
      assert NoncesOf(d, l.signed + [e.q]) == NoncesOf(d, l.signed) + [d.nonceOf(e.q)];
    }
  }

  ghost predicate AllAccepted<Q>(d: Desk<Q>, qs: seq<Q>) {
    forall i | 0 <= i < |qs| :: d.accepts(qs[i])
  }

  lemma NextKeepsAccepted<Q>(d: Desk<Q>, l: Life<Q>, e: LifeEvent<Q>)
    requires AllAccepted(d, l.signed)
    ensures AllAccepted(d, Next(d, l, e).signed)
  {
    hide Store.Recording;
  }

  lemma {:induction false} RunIsSafe<Q>(d: Desk<Q>, l: Life<Q>, events: seq<LifeEvent<Q>>)
    requires AllAccepted(d, l.signed) && Store.Inv(Follows(d, l))
    ensures AllAccepted(d, Run(d, l, events).signed) && Store.Inv(Follows(d, Run(d, l, events)))
    decreases |events|
  {
    hide Store.Inv, Store.Next, Next, AllAccepted;
    if events != [] {
      StepFollows(d, l, events[0]);
      NextKeepsAccepted(d, l, events[0]);
      Store.NextKeepsInv(Follows(d, l), EventOf(d, events[0]));
      RunIsSafe(d, Next(d, l, events[0]), events[1..]);
    }
  }

  /** What holds of every life: each signed request was accepted, no two share a nonce, every nonce is on a
      line the disk has confirmed, and a start that can read the file knows them all. */
  ghost predicate Safe<Q>(d: Desk<Q>, l: Life<Q>) {
    && AllAccepted(d, l.signed)
    && (forall i, j | 0 <= i < j < |l.signed| :: d.nonceOf(l.signed[i]) != d.nonceOf(l.signed[j]))
    && l.disk.durable <= |l.disk.text|
    && forall i | 0 <= i < |l.signed| ::
         && Recorded(l.disk.text[..l.disk.durable], d.nonceOf(l.signed[i]))
         && (Load(l.disk.text).Ok? ==> d.nonceOf(l.signed[i]) in Load(l.disk.text).value)
  }

  lemma EveryLifeIsSafe<Q>(d: Desk<Q>, events: seq<LifeEvent<Q>>)
    ensures Safe(d, Run(d, FirstLife(), events))
  {
    hide Run, Recorded, Load;
    assert NoncesOf(d, []) == [];
    RunIsSafe(d, FirstLife(), events);
    var l := Run(d, FirstLife(), events);
    Store.RestartKnows(Follows(d, l));
    var nonces := NoncesOf(d, l.signed);
    forall i | 0 <= i < |l.signed|
      ensures d.nonceOf(l.signed[i]) in nonces
    {
      assert nonces[i] in nonces;
    }
    forall i, j | 0 <= i < j < |l.signed|
      ensures d.nonceOf(l.signed[i]) != d.nonceOf(l.signed[j])
    {
      assert nonces[i] != nonces[j];
    }
  }

  // ---------- The policy verifier ----------

  ghost function VerifierDesk(n: Signing.Notary): Desk<Signing.Request> {
    Desk(Signing.NonceOf, q => Signing.Justified(n, q), q => n.crypto.sign(Signing.DigestOf(n, q)).Some?)
  }

  /** A request that a running policy verifier handles is a request received. */
  lemma HandleIsReceive(n: Signing.Notary, s: Signing.State, q: Signing.Request, io: Store.Io)
    ensures var t := Signing.Handle(n, s, q, io).state;
      Next(VerifierDesk(n), Life(s.disk, Store.Up(s.seen), s.signed), Receives(q, io)) == Life(t.disk, Store.Up(t.seen), t.signed)
  {
    hide Signing.Justified;
  }

  /** Over every sequence of starts, requests of all three phases, failing appends, exits and power losses,
      every statement the policy verifier signs is justified, and no nonce is signed twice, whatever the
      phases and however often it restarted. */
  lemma VerifierIsSafe(n: Signing.Notary, events: seq<LifeEvent<Signing.Request>>)
    ensures var l := Run(VerifierDesk(n), FirstLife(), events);
      && (forall i | 0 <= i < |l.signed| :: Signing.Justified(n, l.signed[i]))
      && (forall i, j | 0 <= i < j < |l.signed| :: Signing.NonceOf(l.signed[i]) != Signing.NonceOf(l.signed[j]))
      && (Load(l.disk.text).Ok? ==> forall i | 0 <= i < |l.signed| :: Signing.NonceOf(l.signed[i]) in Load(l.disk.text).value)
  {
    hide Run, Signing.Justified, Recorded, Load;
    EveryLifeIsSafe(VerifierDesk(n), events);
    var l := Run(VerifierDesk(n), FirstLife(), events);
    forall i | 0 <= i < |l.signed|
      ensures Signing.Justified(n, l.signed[i])
    {
      assert VerifierDesk(n).accepts(l.signed[i]);
    }
  }

  // ---------- The mock notary ----------

  ghost function MockDesk(c: MockNotary.MockConfig): Desk<MockNotary.MockRequest> {
    Desk(MockNotary.MockNonce, q => MockNotary.Accepts(c, q), q => c.crypto.sign(MockNotary.MockDigest(c, q)).Some?)
  }

  /** A request that a running mock notary handles is a request received. */
  lemma MockHandleIsReceive(c: MockNotary.MockConfig, s: MockNotary.MockState, q: MockNotary.MockRequest, io: Store.Io)
    ensures var t := MockNotary.MockHandle(c, s, q, io).state;
      Next(MockDesk(c), Life(s.disk, Store.Up(s.seen), s.signed), Receives(q, io)) == Life(t.disk, Store.Up(t.seen), t.signed)
  {
    hide MockNotary.Accepts;
  }

  /** And the same of the mock notary: every statement it signs met its predicate, and no nonce is signed
      twice over all its restarts. */
  lemma MockIsSafe(c: MockNotary.MockConfig, events: seq<LifeEvent<MockNotary.MockRequest>>)
    ensures var l := Run(MockDesk(c), FirstLife(), events);
      && (forall i | 0 <= i < |l.signed| :: MockNotary.Accepts(c, l.signed[i]))
      && (forall i, j | 0 <= i < j < |l.signed| :: MockNotary.MockNonce(l.signed[i]) != MockNotary.MockNonce(l.signed[j]))
      && (Load(l.disk.text).Ok? ==> forall i | 0 <= i < |l.signed| :: MockNotary.MockNonce(l.signed[i]) in Load(l.disk.text).value)
  {
    hide Run, MockNotary.Accepts, Recorded, Load;
    EveryLifeIsSafe(MockDesk(c), events);
    var l := Run(MockDesk(c), FirstLife(), events);
    forall i | 0 <= i < |l.signed|
      ensures MockNotary.Accepts(c, l.signed[i])
    {
      assert MockDesk(c).accepts(l.signed[i]);
    }
  }
}
