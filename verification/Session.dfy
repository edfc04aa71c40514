/** How one notarisation attempt ends, and what is retried: the race between the prover and the session
    driver, the classification of failures, and the retry loop. */
module Session {
  import opened Wrappers

  // ---------- Errors ----------

  datatype IoKind =
    | UnexpectedEof
    | ConnectionReset
    | ConnectionAborted
    | BrokenPipe
    | NotConnected
    | WriteZero
    | OtherIo

  /** What tlsn says of its own error. */
  datatype TlsnKind = User | Config | Internal | OtherTlsn

  datatype Link =
    /** `PreprocessingStalled`, the only error that is retried. */
    | Stall
    | Tlsn(tlsn: TlsnKind)
    | Io(io: IoKind)
    | MuxClosed
    | Message

  /** An error: its contexts and sources, outermost first. */
  type Error = seq<Link>

  const STALLED: Error := [Stall]

  /** The retry loop finds a stall in the error. */
  predicate ReadsAsStall(e: Error) {
    Stall in e
  }

  predicate IsClosure(link: Link) {
    || (link.Io? && link.io in {UnexpectedEof, ConnectionReset, ConnectionAborted, BrokenPipe, NotConnected, WriteZero})
    || link.MuxClosed?
  }

  predicate AnyClosure(e: Error) {
    exists i | 0 <= i < |e| :: IsClosure(e[i])
  }

  function FirstTlsn(e: Error): Option<TlsnKind> {
    if e == [] then None else if e[0].Tlsn? then Some(e[0].tlsn) else FirstTlsn(e[1..])
  }

  datatype Failure = Final | Closure | Lossy

  /** `failure_of`: whether a failure of the prover rules a cut out, shows one, or leaves it to the driver. */
  function FailureOf(e: Error): Failure {
    var tlsn := FirstTlsn(e);
    if tlsn == Some(User) || tlsn == Some(Config) then Final
    else if AnyClosure(e) then Closure
    else if tlsn == Some(Internal) then Lossy
    else Final
  }

  datatype DriverEnd = Clean | Broken(error: Error) | Panicked

  /** `closure`: the driver's end is a closed connection. */
  predicate ShowsClosure(end: DriverEnd) {
    end.Clean? || (end.Broken? && AnyClosure(end.error))
  }

  /** `e.context(..)`. */
  function WithContext(e: Error): Error {
    [Message] + e
  }

  /** `decide`: weighs the prover's failure against the driver's end, each of which may be missing, and
      answers with a stall or with the failure. */
  function Decide(failed: Option<Error>, ended: Option<DriverEnd>): Error {
    if ended.Some? && !ShowsClosure(ended.value) then
      match failed
      case Some(e) => WithContext(e)
      case None => [Message]
    else
      match failed
      case Some(e) =>
        (match FailureOf(e)
         case Final => e
         case Closure => STALLED
         case Lossy => if ended.Some? then STALLED else e)
      case None => if ended.Some? then STALLED else [Message]
  }

  // ---------- The prover ----------

  /** Where `run_mpc` is. */
  datatype Point =
    | Preprocessing
    | SettingFlag
    | Connecting
    | Exchanging
    | Returned(result: Result<(), Error>)

  /** The prover's half of an attempt: where it is, the flag it shares with the race, and whether the registry
      could have been reached. */
  datatype Prover = Prover(at: Point, preprocessed: bool, contacted: bool)

  /** What the awaited operation at the prover's point does: its timeout passes, it fails, or it succeeds. */
  datatype Outcome = TimesOut | Fails(error: Error) | Succeeds

  const IDLE := Prover(Preprocessing, false, false)

  /** Only preprocessing has a timeout, setting the flag cannot fail, and no library's error holds a
      `PreprocessingStalled`. */
  predicate CanHappen(p: Prover, o: Outcome) {
    && !p.at.Returned?
    && match o
       case TimesOut => p.at.Preprocessing?
       case Fails(e) => !p.at.SettingFlag? && !ReadsAsStall(e)
       case Succeeds => true
  }

  /** `run_mpc`, one operation at a time: preprocessing under its timeout, the flag, the connection to the
      registry, and the exchange with everything behind it. */
  function Proceed(p: Prover, o: Outcome): Prover {
    match p.at
    case Preprocessing =>
      (match o
       case TimesOut => p.(at := Returned(Err(STALLED)))
       case Fails(e) => p.(at := Returned(Err(e)))
       case Succeeds => p.(at := SettingFlag))
    case SettingFlag => p.(preprocessed := true, at := Connecting)
    case Connecting =>
      // A connection that fails may have reached the registry too.
      (match o
       case Fails(e) => p.(contacted := true, at := Returned(Err(e)))
       case _ => p.(contacted := true, at := Exchanging))
    case Exchanging =>
      (match o
       case Fails(e) => p.(at := Returned(Err(e)))
       case _ => p.(at := Returned(Ok(()))))
    case Returned(_) => p
  }

  predicate CanAdvance(p: Prover, os: seq<Outcome>)
    decreases |os|
  {
    os != [] ==> CanHappen(p, os[0]) && CanAdvance(Proceed(p, os[0]), os[1..])
  }

  /** One poll of the prover: as many of its operations as are ready. */
  function Advance(p: Prover, os: seq<Outcome>): Prover
    decreases |os|
  {
    if os == [] then p else Advance(Proceed(p, os[0]), os[1..])
  }

  /** The flag is set exactly between preprocessing and the connection. */
  predicate InOrder(p: Prover) {
    && (p.contacted ==> p.preprocessed)
    && match p.at
       case Preprocessing => !p.preprocessed
       case SettingFlag => !p.preprocessed
       case Connecting => p.preprocessed
       case Exchanging => p.preprocessed
       case Returned(Ok(_)) => p.preprocessed
       case Returned(Err(e)) => ReadsAsStall(e) ==> e == STALLED && !p.preprocessed
  }

  lemma ProceedKeepsOrder(p: Prover, o: Outcome)
    requires InOrder(p) && CanHappen(p, o)
    ensures InOrder(Proceed(p, o))
  {
  }

  /** However the prover is polled, the registry is contacted only after the flag is set, success is returned
      only then, and the prover's own stall only before. */
  lemma {:induction false} AdvanceKeepsOrder(p: Prover, os: seq<Outcome>)
    requires InOrder(p) && CanAdvance(p, os)
    ensures InOrder(Advance(p, os))
    decreases |os|
  {
    hide InOrder, CanHappen, Proceed;
    if os != [] {
      ProceedKeepsOrder(p, os[0]);
      AdvanceKeepsOrder(Proceed(p, os[0]), os[1..]);
    }
  }

  /** The prover's course: a preprocessing that takes too long is a stall and one that fails is its own error;
      then the flag is set, then the registry is contacted, whether or not the connection comes about, and
      only a finished exchange is a success. */
  lemma ProverCourse(e: Error)
    ensures Advance(IDLE, [TimesOut]) == Prover(Returned(Err([Stall])), false, false)
    ensures Advance(IDLE, [Fails(e)]) == Prover(Returned(Err(e)), false, false)
    ensures Advance(IDLE, [Succeeds]) == Prover(SettingFlag, false, false)
    ensures Advance(IDLE, [Succeeds, Succeeds]) == Prover(Connecting, true, false)
    ensures Advance(IDLE, [Succeeds, Succeeds, Fails(e)]) == Prover(Returned(Err(e)), true, true)
    ensures Advance(IDLE, [Succeeds, Succeeds, Succeeds]) == Prover(Exchanging, true, true)
    ensures Advance(IDLE, [Succeeds, Succeeds, Succeeds, Fails(e)]) == Prover(Returned(Err(e)), true, true)
    ensures Advance(IDLE, [Succeeds, Succeeds, Succeeds, Succeeds]) == Prover(Returned(Ok(())), true, true)
  {
    AdvanceTwice(IDLE, [Succeeds], [Succeeds]);
    AdvanceTwice(IDLE, [Succeeds, Succeeds], [Fails(e)]);
    AdvanceTwice(IDLE, [Succeeds, Succeeds], [Succeeds]);
    AdvanceTwice(IDLE, [Succeeds, Succeeds, Succeeds], [Fails(e)]);
    AdvanceTwice(IDLE, [Succeeds, Succeeds, Succeeds], [Succeeds]);
    assert [Succeeds] + [Succeeds] == [Succeeds, Succeeds];
    assert [Succeeds, Succeeds] + [Fails(e)] == [Succeeds, Succeeds, Fails(e)];
    assert [Succeeds, Succeeds] + [Succeeds] == [Succeeds, Succeeds, Succeeds];
    assert [Succeeds, Succeeds, Succeeds] + [Fails(e)] == [Succeeds, Succeeds, Succeeds, Fails(e)];
    assert [Succeeds, Succeeds, Succeeds] + [Succeeds] == [Succeeds, Succeeds, Succeeds, Succeeds];
  }

  /** Two polls are one poll of both their outcomes. */
  lemma {:induction false} AdvanceTwice(p: Prover, a: seq<Outcome>, b: seq<Outcome>)
    ensures Advance(p, a + b) == Advance(Advance(p, a), b)
    decreases |a|
  {
    if a == [] {
      assert a + b == b;
    } else {
      assert (a + b)[1..] == a[1..] + b;
      AdvanceTwice(Proceed(p, a[0]), a[1..], b);
    }
  }

  // ---------- The race ----------

  datatype Phase =
    /** Both the prover and the driver are awaited; a prover that is ready wins. */
    | Racing
    /** The prover failed ambiguously; the driver has a grace period to show a closure. */
    | AwaitingDriver(failure: Error)
    /** The driver ended before preprocessing completed; the prover has a grace period. */
    | AwaitingProver(end: DriverEnd)
    /** The prover finished; the attestation is requested over the driver's socket. */
    | Attesting
    | Ended(result: Result<(), Error>)

  /** One attempt. `consulted` records the driver's end that the race went by. */
  datatype State = State(phase: Phase, prover: Prover, driver: Option<DriverEnd>, consulted: Option<DriverEnd>)

  const START := State(Racing, IDLE, None, None)

  datatype Event =
    | DriverEnds(end: DriverEnd)
    | Poll(outcomes: seq<Outcome>)
    | PollDriver
    | GraceExpires
    | Attests(result: Result<(), Error>)

  predicate Enabled(s: State, e: Event) {
    match e
    case DriverEnds(_) => s.driver.None?
    case Poll(os) => (s.phase.Racing? || s.phase.AwaitingProver?) && CanAdvance(s.prover, os)
    case PollDriver => s.phase.AwaitingDriver?
    case GraceExpires => s.phase.AwaitingProver? || s.phase.AwaitingDriver?
    case Attests(r) => s.phase.Attesting? && (r.Err? ==> !ReadsAsStall(r.error))
  }

  function End(s: State, e: Error): State {
    s.(phase := Ended(Err(e)))
  }

  /** The prover returned while both were awaited. */
  function ProverFirst(s: State, result: Result<(), Error>): State {
    match result
    case Ok(_) => s.(phase := Attesting)
    case Err(e) =>
      if s.prover.preprocessed || ReadsAsStall(e) then End(s, e)
      else if FailureOf(e) == Lossy then s.(phase := AwaitingDriver(e))
      else End(s, Decide(Some(e), None))
  }

  /** The driver ended while both were awaited and the prover was not ready. */
  function DriverFirst(s: State, end: DriverEnd): State {
    var t := s.(consulted := Some(end));
    if s.prover.preprocessed then End(t, [Message]) else t.(phase := AwaitingProver(end))
  }

  /** `after_driver_end`, once the prover returned or its grace period is over; the flag is read again. */
  function AfterDriver(s: State, end: DriverEnd, outcome: Option<Result<(), Error>>): State {
    if s.prover.preprocessed then
      match outcome
      case Some(Err(e)) => End(s, WithContext(e))
      case _ => End(s, [Message])
    else
      match outcome
      case Some(Err(e)) =>
        if ReadsAsStall(e) then End(s, if ShowsClosure(end) then e else [Message])
        else End(s, Decide(Some(e), Some(end)))
      case Some(Ok(_)) => End(s, [Message])
      case None => End(s, Decide(None, Some(end)))
  }

  /** After a poll of the prover. */
  function Polled(t: State): State {
    match t.phase
    case Racing =>
      if t.prover.at.Returned? then ProverFirst(t, t.prover.at.result)
      else if t.driver.Some? then DriverFirst(t, t.driver.value)
      else t
    case AwaitingProver(end) =>
      if t.prover.at.Returned? then AfterDriver(t, end, Some(t.prover.at.result)) else t
    case _ => t
  }

  function Step(s: State, e: Event): State {
    match e
    case DriverEnds(end) => s.(driver := Some(end))
    case Poll(os) => Polled(s.(prover := Advance(s.prover, os)))
    case PollDriver =>
      (match (s.phase, s.driver)
       case (AwaitingDriver(e), Some(end)) => End(s.(consulted := Some(end)), Decide(Some(e), Some(end)))
       case _ => s)
    case GraceExpires =>
      (match s.phase
       case AwaitingProver(end) => AfterDriver(s, end, None)
       case AwaitingDriver(e) => End(s, Decide(Some(e), None))
       case _ => s)
    case Attests(r) => s.(phase := Ended(r))
  }

  predicate IsRun(s: State, events: seq<Event>)
    decreases |events|
  {
    events != [] ==> Enabled(s, events[0]) && IsRun(Step(s, events[0]), events[1..])
  }

  function Run(s: State, events: seq<Event>): State
    decreases |events|
  {
    if events == [] then s else Run(Step(s, events[0]), events[1..])
  }

  // ---------- Which ends are stalls ----------

  /** The prover's failure, if it returned one. */
  function ProverError(s: State): Option<Error> {
    match s.prover.at
    case Returned(Err(e)) => Some(e)
    case _ => None
  }

  /** A cut: preprocessing never completed, no driver failure was seen, and either the prover itself stalled
      or saw the closure, or it was silent or ambiguous and the driver showed the closure. */
  predicate WasCut(s: State) {
    && !s.prover.preprocessed
    && (s.consulted.Some? ==> ShowsClosure(s.consulted.value))
    && match ProverError(s)
       case None => s.consulted.Some?
       case Some(e) => ReadsAsStall(e) || FailureOf(e) == Closure || (FailureOf(e) == Lossy && s.consulted.Some?)
  }

  predicate Inv(s: State) {
    && InOrder(s.prover)
    && match s.phase
       case Racing => !s.prover.at.Returned? && s.consulted.None?
       case AwaitingDriver(e) =>
         ProverError(s) == Some(e) && s.consulted.None? && !s.prover.preprocessed && !ReadsAsStall(e) && FailureOf(e) == Lossy
       case AwaitingProver(end) => !s.prover.at.Returned? && s.consulted == Some(end)
       case Attesting => s.prover.preprocessed
       case Ended(r) => (r.Ok? ==> s.prover.preprocessed) && (r.Err? ==> (ReadsAsStall(r.error) <==> WasCut(s)))
  }

  lemma ContextKeepsStalls(e: Error)
    ensures ReadsAsStall(WithContext(e)) <==> ReadsAsStall(e)
  {
  }

  lemma PolledKeepsInv(t: State)
    requires InOrder(t.prover)
    requires (t.phase.Racing? && t.consulted.None?) || (t.phase.AwaitingProver? && t.consulted == Some(t.phase.end))
    ensures Inv(Polled(t))
  {
    hide FirstTlsn, AnyClosure;
    if ProverError(t).Some? {
      ContextKeepsStalls(ProverError(t).value);
    }
  }

  /** Every event keeps the account of how the attempt stands and how it ends. */
  lemma StepKeepsInv(s: State, e: Event)
    requires Inv(s) && Enabled(s, e)
    ensures Inv(Step(s, e))
  {
    hide FirstTlsn, AnyClosure;
    match e
    case Poll(os) =>
      AdvanceKeepsOrder(s.prover, os);
      PolledKeepsInv(s.(prover := Advance(s.prover, os)));
    case PollDriver =>
      if s.phase.AwaitingDriver? {
        ContextKeepsStalls(s.phase.failure);
      }
    case _ =>
  }

  lemma {:induction false} RunKeepsInv(s: State, events: seq<Event>)
    requires Inv(s) && IsRun(s, events)
    ensures Inv(Run(s, events))
    decreases |events|
  {
    hide Inv, Enabled, Step;
    if events != [] {
      StepKeepsInv(s, events[0]);
      RunKeepsInv(Step(s, events[0]), events[1..]);
    }
  }

  /** Whatever the race, an attempt that ends in a stall never got past preprocessing, so the registry was
      not reached; and it ends in a stall exactly if it was cut. */
  lemma StallsAreCuts(events: seq<Event>)
    requires IsRun(START, events)
    ensures var s := Run(START, events);
      s.phase.Ended? && s.phase.result.Err? ==>
        && (ReadsAsStall(s.phase.result.error) <==> WasCut(s))
        && (ReadsAsStall(s.phase.result.error) ==> !s.prover.preprocessed && !s.prover.contacted)
  {
    hide Run, IsRun;
    assert Inv(START);
    RunKeepsInv(START, events);
  }

  /** A rejection or configuration error stays final whatever the driver did, and a driver that panicked or
      broke otherwise is never read as a stall. */
  lemma FinalStaysFinal(events: seq<Event>)
    requires IsRun(START, events)
    ensures var s := Run(START, events);
      s.phase.Ended? && s.phase.result.Err? &&
      (|| (s.consulted.Some? && !ShowsClosure(s.consulted.value))
       || (ProverError(s).Some? && !ReadsAsStall(ProverError(s).value) && FailureOf(ProverError(s).value) == Final))
      ==> !ReadsAsStall(s.phase.result.error)
  {
    hide Run, IsRun;
    StallsAreCuts(events);
  }

  // ---------- The end of a race, link by link ----------

  /** `k` is what the first link of tlsn in the error says. */
  ghost predicate FirstTlsnIs(e: Error, k: TlsnKind) {
    exists i | 0 <= i < |e| :: e[i] == Tlsn(k) && forall j | 0 <= j < i :: !e[j].Tlsn?
  }

  /** Some link of the error is a closed connection: one of six kinds of I/O error, or the closed multiplexer. */
  ghost predicate HoldsClosing(e: Error) {
    exists i | 0 <= i < |e| :: e[i] in {Io(UnexpectedEof), Io(ConnectionReset), Io(ConnectionAborted), Io(BrokenPipe),
                                        Io(NotConnected), Io(WriteZero), MuxClosed}
  }

  /** The race went by a driver that ended cleanly or with a closed connection. */
  ghost predicate SawClosing(s: State) {
    s.consulted.Some? && (s.consulted.value.Clean? || (s.consulted.value.Broken? && HoldsClosing(s.consulted.value.error)))
  }

  lemma ClosingIff(e: Error)
    ensures AnyClosure(e) <==> HoldsClosing(e)
  {
    if i :| 0 <= i < |e| && IsClosure(e[i]) {
      assert HoldsClosing(e);
    }
    if HoldsClosing(e) {
      var i :| 0 <= i < |e| && e[i] in {Io(UnexpectedEof), Io(ConnectionReset), Io(ConnectionAborted), Io(BrokenPipe),
                                        Io(NotConnected), Io(WriteZero), MuxClosed};
      assert IsClosure(e[i]);
    }
  }

  lemma {:induction false} FirstTlsnMeans(e: Error, k: TlsnKind)
    ensures FirstTlsn(e) == Some(k) <==> FirstTlsnIs(e, k)
  {
    if e != [] {
      FirstTlsnMeans(e[1..], k);
      if e[0].Tlsn? {
        assert FirstTlsnIs(e, k) ==> e[0] == Tlsn(k);
      } else {
        FirstBehind(e, k);
      }
    }
  }

  lemma FirstBehind(e: Error, k: TlsnKind)
    requires e != [] && !e[0].Tlsn?
    ensures FirstTlsnIs(e, k) <==> FirstTlsnIs(e[1..], k)
  {
    var rest := e[1..];
    if i :| 0 <= i < |e| && e[i] == Tlsn(k) && forall j | 0 <= j < i :: !e[j].Tlsn? {
      assert rest[i - 1] == Tlsn(k);
      assert forall j | 0 <= j < i - 1 :: rest[j] == e[j + 1];
    }
    if i :| 0 <= i < |rest| && rest[i] == Tlsn(k) && forall j | 0 <= j < i :: !rest[j].Tlsn? {
      assert e[i + 1] == Tlsn(k);
      assert forall j | 0 < j < i + 1 :: e[j] == rest[j - 1];
    }
  }

  lemma FailureMeans(e: Error)
    ensures FailureOf(e) == Final <==>
      || FirstTlsnIs(e, User) || FirstTlsnIs(e, Config)
      || (!HoldsClosing(e) && !FirstTlsnIs(e, Internal))
    ensures FailureOf(e) == Closure <==> !FirstTlsnIs(e, User) && !FirstTlsnIs(e, Config) && HoldsClosing(e)
    ensures FailureOf(e) == Lossy <==> FirstTlsnIs(e, Internal) && !HoldsClosing(e)
  {
    hide FirstTlsn, FirstTlsnIs, AnyClosure, HoldsClosing;
    FirstTlsnMeans(e, User);
    FirstTlsnMeans(e, Config);
    FirstTlsnMeans(e, Internal);
    ClosingIff(e);
  }

  lemma SawMeans(s: State)
    ensures s.consulted.Some? ==> (ShowsClosure(s.consulted.value) <==> SawClosing(s))
  {
    hide AnyClosure, HoldsClosing;
    if s.consulted.Some? && s.consulted.value.Broken? {
      ClosingIff(s.consulted.value.error);
    }
  }

  /** Whether a failed attempt is a stall, from the links of the prover's error and of the driver's alone. It
      is none once preprocessing was complete or a driver was consulted that failed otherwise. Short of that
      the prover's own stall is one. A rejection or a configuration error, told by the first link of tlsn, is
      none; any other error that holds a closed connection is one; an internal error that holds none is one
      exactly if a closing driver was consulted; everything else is none. If the prover said nothing, it is a
      stall exactly if a closing driver was consulted. */
  lemma EndOfRace(events: seq<Event>)
    requires IsRun(START, events)
    requires Run(START, events).phase.Ended? && Run(START, events).phase.result.Err?
    ensures var s := Run(START, events);
      var stall := Stall in s.phase.result.error;
      && (s.prover.preprocessed || (s.consulted.Some? && !SawClosing(s)) ==> !stall)
      && (!s.prover.preprocessed && (s.consulted.Some? ==> SawClosing(s)) ==>
            match ProverError(s)
            case None => stall <==> s.consulted.Some?
            case Some(e) =>
              && (Stall in e ==> stall)
              && (Stall !in e && (FirstTlsnIs(e, User) || FirstTlsnIs(e, Config)) ==> !stall)
              && (!FirstTlsnIs(e, User) && !FirstTlsnIs(e, Config) && HoldsClosing(e) ==> stall)
              && (Stall !in e && !HoldsClosing(e) && FirstTlsnIs(e, Internal) ==> (stall <==> s.consulted.Some?))
              && (Stall !in e && !HoldsClosing(e) && !FirstTlsnIs(e, Internal) ==> !stall))
  {
    hide Run, IsRun, FailureOf, ShowsClosure, FirstTlsnIs, HoldsClosing, SawClosing;
    var s := Run(START, events);
    StallsAreCuts(events);
    SawMeans(s);
    if ProverError(s).Some? {
      var e := ProverError(s).value;
      FailureMeans(e);
      FirstIsOne(e, User, Internal);
      FirstIsOne(e, Config, Internal);
    }
  }

  lemma FirstIsOne(e: Error, k: TlsnKind, l: TlsnKind)
    requires k != l
    ensures !(FirstTlsnIs(e, k) && FirstTlsnIs(e, l))
  {
    hide FirstTlsnIs;
    FirstTlsnMeans(e, k);
    FirstTlsnMeans(e, l);
  }

  /** The race waits for nothing that has come: polled, it goes on exactly until the prover returned or the
      driver ended; in the prover's grace period until the prover returned; in the driver's until the driver
      ended; and a grace period that is over ends it. */
  lemma RaceMoves(s: State, e: Event)
    requires Enabled(s, e)
    ensures s.phase.Racing? && e.Poll? ==>
      (Step(s, e).phase.Racing? <==> !Advance(s.prover, e.outcomes).at.Returned? && s.driver.None?)
    ensures s.phase.AwaitingProver? && e.Poll? ==>
      (Step(s, e).phase.Ended? <==> Advance(s.prover, e.outcomes).at.Returned?)
    ensures e.PollDriver? ==> (Step(s, e).phase.Ended? <==> s.driver.Some?)
    ensures e.GraceExpires? || e.Attests? ==> Step(s, e).phase.Ended?
  {
    hide Advance, FailureOf, ShowsClosure;
  }

  /** The driver's end that the race went by is the driver's. */
  lemma {:induction false} ConsultsTheDriver(s: State, events: seq<Event>)
    requires IsRun(s, events) && GoesByDriver(s)
    ensures GoesByDriver(Run(s, events))
    decreases |events|
  {
    hide Step, Enabled, GoesByDriver;
    if events != [] {
      StepGoesByDriver(s, events[0]);
      ConsultsTheDriver(Step(s, events[0]), events[1..]);
    }
  }

  predicate GoesByDriver(s: State) {
    s.consulted.Some? ==> s.driver == s.consulted
  }

  lemma StepGoesByDriver(s: State, e: Event)
    requires GoesByDriver(s) && Enabled(s, e)
    ensures GoesByDriver(Step(s, e))
  {
    hide Advance, FailureOf, ShowsClosure;
  }

  // ---------- The retry loop ----------

  /** One pass of the loop: no connection to the notary, or an attempt's end. */
  datatype Attempt = ConnectFails | Attempt(result: Result<(), Error>, contacted: bool)

  /** The attempt is the end of a race. */
  ghost predicate IsAttempt(a: Attempt) {
    a.ConnectFails? || exists events :: IsRun(START, events) && EndsAs(Run(START, events), a)
  }

  predicate EndsAs(s: State, a: Attempt) {
    a.Attempt? && s.phase == Ended(a.result) && s.prover.contacted == a.contacted
  }

  lemma StallsDoNotContact(a: Attempt)
    requires IsAttempt(a) && IsStall(a)
    ensures !a.contacted
  {
    var events :| IsRun(START, events) && EndsAs(Run(START, events), a);
    StallsAreCuts(events);
  }

  predicate IsStall(a: Attempt) {
    a.Attempt? && a.result.Err? && ReadsAsStall(a.result.error)
  }

  const U32_MAX: nat := 0xffff_ffff

  /** The attempt counter is a 32-bit integer. */
  datatype Stats = Stats(attempts: nat, stalls: nat)

  datatype RetryError = NoConnection | StalledOnAll(attempts: nat) | FailedOn(attempt: nat, error: Error)

  predicate Contacted(a: Attempt) {
    a.Attempt? && a.contacted
  }

  /** The loop, watched for at most `watched` passes: it runs attempts until one does not stall, or until the
      counter passes `maxRetries`. `world` is what each pass of the loop leads to. Every pass but the last
      stalled, so at most the last reached the registry. The counter wraps around only if `maxRetries` is
      the largest 32-bit value; then stalls alone never end the loop, and otherwise `maxRetries + 1` passes
      always do. */
  method WithRetries(world: nat -> Attempt, maxRetries: nat, watched: nat)
    returns (r: Option<Result<Stats, RetryError>>, passes: nat)
    requires maxRetries <= U32_MAX
    requires forall n :: IsAttempt(world(n))
    ensures passes <= watched
    ensures forall n | 0 < n < passes :: IsStall(world(n)) && !Contacted(world(n))
    ensures r.None? ==> passes == watched && (passes > 0 ==> IsStall(world(passes)) && !Contacted(world(passes)))
    ensures maxRetries < U32_MAX ==> passes <= maxRetries + 1 && (maxRetries < watched ==> r.Some?)
    ensures r.Some? ==> 0 < passes
    ensures r.Some? && r.value.Err? && r.value.error.StalledOnAll? ==>
      && IsStall(world(passes)) && !Contacted(world(passes))
      && maxRetries < U32_MAX && r.value.error.attempts == passes == maxRetries + 1
    ensures r.Some? && IsStall(world(passes)) ==> r.value.Err? && r.value.error.StalledOnAll?
    ensures r.Some? && world(passes).ConnectFails? ==> r.value == Err(NoConnection)
    ensures r.Some? && world(passes).Attempt? && world(passes).result.Ok? ==>
      && r.value.Ok? && r.value.value.stalls + 1 == passes
      && (maxRetries < U32_MAX ==> r.value.value.attempts == passes)
    ensures r.Some? && world(passes).Attempt? && world(passes).result.Err? && !IsStall(world(passes)) ==>
      && r.value.Err? && r.value.error.FailedOn? && r.value.error.error == WithContext(world(passes).result.error)
      && (maxRetries < U32_MAX ==> r.value.error.attempt == passes)
  {
    hide IsAttempt, ReadsAsStall;
    var stats := Stats(0, 0);
    passes := 0;
    while passes < watched
      invariant stats.stalls == passes <= watched && stats.attempts <= U32_MAX
      invariant maxRetries < U32_MAX ==> stats.attempts == passes <= maxRetries
      invariant forall n | 0 < n <= passes :: IsStall(world(n)) && !Contacted(world(n))
    {
      stats := stats.(attempts := if stats.attempts == U32_MAX then 0 else stats.attempts + 1);
      passes := passes + 1;
      var attempt := world(passes);
      match attempt {
        case ConnectFails =>
          return Some(Err(NoConnection)), passes;
        case Attempt(Ok(_), _) =>
          return Some(Ok(stats)), passes;
        case Attempt(Err(e), _) =>
          if !ReadsAsStall(e) {
            return Some(Err(FailedOn(stats.attempts, WithContext(e)))), passes;
          }
          StallsDoNotContact(attempt);
          stats := stats.(stalls := stats.stalls + 1);
          if stats.attempts > maxRetries {
            return Some(Err(StalledOnAll(stats.attempts))), passes;
          }
      }
    }
    r := None;
  }
}
