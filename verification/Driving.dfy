/** The pump under a scheduler: what one turn of either side does, and that turns taken fairly carry a whole
    source over the link. */
module Driving {
  import opened Wrappers
  import opened Bytes
  import opened Schedule
  import opened Pump

  // ---------- Turns ----------

  /** What the scheduler and the sockets decide: which side runs next and what its socket then does, or how
      much time passes. A read takes about `size` bytes of what the source still has. */
  datatype Turn =
    | ReaderTurn(size: nat, fails: bool)
    | WriterTurn(accepted: nat, fails: bool)
    | Elapse(d: Duration)

  /** What a read returns: an error, a chunk, or nothing at the end of the source. */
  function ReadOf(rest: Bytes, size: nat, fails: bool): (r: Option<Bytes>)
    ensures r.None? <==> fails
    ensures r.Some? ==> |r.value| <= CHUNK && r.value <= rest && (r.value == [] <==> rest == [])
    ensures r.Some? && 0 < size <= |rest| && size <= CHUNK ==> r.value == rest[..size]
  {
    if fails then None
    else
      var most := if |rest| < CHUNK then |rest| else CHUNK;
      Some(if size == 0 && most > 0 then rest[..1] else if size < most then rest[..size] else rest[..most])
  }

  function ReadEvent(read: Option<Bytes>): Event {
    match read
    case None => ReadFails
    case Some(buf) => if buf == [] then Eof else Read(buf)
  }

  /** How much of `left` bytes the socket takes: at least one. */
  function Taken(accepted: nat, left: nat): (k: nat)
    requires 0 < left
    ensures 0 < k <= left && (0 < accepted <= left ==> k == accepted) && (left < accepted ==> k == left)
  {
    if accepted == 0 then 1 else if left < accepted then left else accepted
  }

  /** The reader's next step, unless it is done or waits for room. */
  function ReaderEvent(s: State, read: Option<Bytes>): Option<Event> {
    match s.reader
    case Reading => Some(ReadEvent(read))
    case AwaitRoom(buf) => if |buf| <= s.permits then Some(Acquire) else None
    case HasRoom(_) => Some(Push)
    case AtEof => Some(Push)
    case Pushed(_) => Some(Notify)
    case ReaderDone => None
  }

  /** The writer's next step, unless it is done, or waits to be woken or for a delivery time. */
  function WriterEvent(s: State, accepted: nat, fails: bool): Option<Event> {
    match s.writer
    case Popping => Some(if s.queue == [] then Await else Pop)
    case Waiting => if s.woken then Some(Wake) else None
    case Sleeping(next) => if next.at <= s.now then Some(Due) else None
    case Writing(bytes, sent) =>
      if fails then Some(WriteFails)
      else if sent < |bytes| then Some(Write(Taken(accepted, |bytes| - sent)))
      else Some(Count)
    case Written(_) => Some(Release)
    case Shutting => Some(if fails then WriteFails else Shutdown)
    case WriterDone => None
  }

  function TurnEvent(s: State, rest: Bytes, turn: Turn): Option<Event> {
    if s.failed || Ended(s) then None
    else
      match turn
      case ReaderTurn(size, fails) => ReaderEvent(s, ReadOf(rest, size, fails))
      case WriterTurn(accepted, fails) => WriterEvent(s, accepted, fails)
      case Elapse(d) => Some(Tick(d))
  }

  lemma ReaderEventEnabled(s: State, read: Option<Bytes>)
    requires Shapes(s) && !s.failed && !Ended(s) && (read.Some? ==> |read.value| <= CHUNK)
    ensures ReaderEvent(s, read).Some? ==> Enabled(s, ReaderEvent(s, read).value)
    ensures ReaderEvent(s, read).None? <==> s.reader.ReaderDone? || (s.reader.AwaitRoom? && s.permits < |s.reader.buf|)
  {
  }

  lemma WriterEventEnabled(s: State, accepted: nat, fails: bool)
    requires Shapes(s) && !s.failed && !Ended(s)
    ensures WriterEvent(s, accepted, fails).Some? ==> Enabled(s, WriterEvent(s, accepted, fails).value)
    ensures WriterEvent(s, accepted, fails).None? <==>
      || s.writer.WriterDone?
      || (s.writer.Waiting? && !s.woken)
      || (s.writer.Sleeping? && s.now < s.writer.next.at)
  {
  }

  /** The link on its way: its state, and what the source has left. */
  datatype Ride = Ride(s: State, rest: Bytes)

  lemma TurnEnabled(s: State, rest: Bytes, turn: Turn)
    requires Shapes(s)
    ensures TurnEvent(s, rest, turn).Some? ==> Enabled(s, TurnEvent(s, rest, turn).value)
    ensures TurnEvent(s, rest, turn).Some? && TurnEvent(s, rest, turn).value.Read? ==> TurnEvent(s, rest, turn).value.buf <= rest
  {
    if !s.failed && !Ended(s) {
      match turn
      case ReaderTurn(size, fails) => ReaderEventEnabled(s, ReadOf(rest, size, fails));
      case WriterTurn(accepted, fails) => WriterEventEnabled(s, accepted, fails);
      case Elapse(_) =>
    }
  }

  /** What a step leaves of the source. */
  function RestAfter(rest: Bytes, e: Event): Bytes {
    if e.Read? && |e.buf| <= |rest| then rest[|e.buf|..] else rest
  }

  function AfterTurn(params: LinkParams, r: Ride, turn: Turn): Ride
    requires params.bitsPerSec != Some(0) && Shapes(r.s)
  {
    TurnEnabled(r.s, r.rest, turn);
    match TurnEvent(r.s, r.rest, turn)
    case None => r
    case Some(e) => Ride(Step(params, r.s, e), RestAfter(r.rest, e))
  }

  /** What is kept on the way: the link's invariant, and that input and rest are the source. */
  ghost predicate OnTrack(params: LinkParams, source: Bytes, r: Ride)
    requires params.bitsPerSec != Some(0)
  {
    && Inv(params, r.s) && r.s.input + r.rest == source
    && (SourceEnded(r.s.reader) ==> r.rest == [])
  }

  lemma TrackShapes(params: LinkParams, source: Bytes, r: Ride)
    requires params.bitsPerSec != Some(0) && OnTrack(params, source, r)
    ensures Shapes(r.s)
  {
  }

  lemma EventInput(params: LinkParams, s: State, e: Event)
    requires params.bitsPerSec != Some(0) && Shapes(s) && Enabled(s, e)
    ensures var t := Step(params, s, e);
      && t.input == s.input + (if e.Read? then e.buf else [])
      && (SourceEnded(t.reader) ==> SourceEnded(s.reader) || e.Eof?)
      && (SourceEnded(s.reader) ==> SourceEnded(t.reader) && !e.Read?)
  {
    hide PushChunk;
    if e.Push? {
      PushInput(params, s);
    }
  }

  lemma PushInput(params: LinkParams, s: State)
    requires params.bitsPerSec != Some(0) && Shapes(s) && Enabled(s, Push)
    ensures var t := Step(params, s, Push); t.input == s.input && (SourceEnded(t.reader) <==> SourceEnded(s.reader))
  {
    hide Serialisation;
  }

  lemma TurnKeepsTrack(params: LinkParams, source: Bytes, r: Ride, turn: Turn)
    requires params.bitsPerSec != Some(0) && OnTrack(params, source, r)
    ensures Shapes(r.s) && OnTrack(params, source, AfterTurn(params, r, turn))
  {
    hide Inv, Step, Enabled, SourceEnded, TurnEvent;
    TrackShapes(params, source, r);
    TurnEnabled(r.s, r.rest, turn);
    var event := TurnEvent(r.s, r.rest, turn);
    if event.Some? {
      var e := event.value;
      StepKeepsInv(params, r.s, e);
      EventInput(params, r.s, e);
      if e.Read? {
        Regroup(r.s.input, e.buf, r.rest[|e.buf|..]);
        assert r.rest == e.buf + r.rest[|e.buf|..];
      }
      if e.Eof? {
        EofMeansNothingLeft(r.s, r.rest, turn);
      }
    }
  }

  lemma EofMeansNothingLeft(s: State, rest: Bytes, turn: Turn)
    requires TurnEvent(s, rest, turn) == Some(Eof)
    ensures rest == []
  {
  }

  ghost function AfterTurns(params: LinkParams, source: Bytes, r: Ride, turns: seq<Turn>): Ride
    requires params.bitsPerSec != Some(0) && OnTrack(params, source, r)
    decreases |turns|
  {
    if turns == [] then r
    else
      TurnKeepsTrack(params, source, r, turns[0]);
      AfterTurns(params, source, AfterTurn(params, r, turns[0]), turns[1..])
  }

  // ---------- Delivery times are near ----------

  lemma SerialisationAdds(params: LinkParams, a: nat, b: nat)
    requires params.bitsPerSec != Some(0)
    ensures Serialisation(params, a + b) == Serialisation(params, a) + Serialisation(params, b)
  {
    if params.bitsPerSec.Some? {
      DivAdds(a as real * 8.0, b as real * 8.0, params.bitsPerSec.value as real);
    }
  }

  lemma SerialisationGrows(params: LinkParams, a: nat, b: nat)
    requires params.bitsPerSec != Some(0) && a <= b
    ensures Serialisation(params, a) <= Serialisation(params, b)
  {
    SerialisationAdds(params, a, b - a);
  }

  /** How far ahead of the clock a stamp can lie. */
  function Horizon(params: LinkParams, bytes: nat): (d: Duration)
    requires params.bitsPerSec != Some(0)
  {
    Serialisation(params, bytes) + params.delay
  }

  /** Everything stamped so far was read, and no stamp lies further ahead than all of it takes. */
  ghost predicate Near(params: LinkParams, s: State)
    requires params.bitsPerSec != Some(0)
  {
    && TotalBytes(s.calls) + |WithReader(s.reader)| == |s.input|
    && (s.linkFreeAt.Some? ==> s.linkFreeAt.value <= s.now + Serialisation(params, TotalBytes(s.calls)))
    && (forall j | 0 <= j < |s.queue| :: s.queue[j].at <= s.now + Horizon(params, TotalBytes(s.calls)))
    && (s.writer.Sleeping? ==> s.writer.next.at <= s.now + Horizon(params, TotalBytes(s.calls)))
  }

  lemma PushKeepsNear(params: LinkParams, s: State)
    requires params.bitsPerSec != Some(0) && Shapes(s) && Near(params, s) && Enabled(s, Push)
    ensures Near(params, Step(params, s, Push))
  {
    hide Serialisation, TotalBytes;
    var b := if s.reader.AtEof? then 0 else |s.reader.buf|;
    TotalAppend(s.calls, Call(s.now, b));
    SerialisationAdds(params, TotalBytes(s.calls), b);
  }

  lemma PopKeepsNear(params: LinkParams, s: State)
    requires params.bitsPerSec != Some(0) && Near(params, s) && Enabled(s, Pop)
    ensures Near(params, Step(params, s, Pop))
  {
    hide Serialisation, TotalBytes, Horizon;
  }

  lemma StepKeepsNear(params: LinkParams, s: State, e: Event)
    requires params.bitsPerSec != Some(0) && Shapes(s) && Near(params, s) && Enabled(s, e)
    ensures Near(params, Step(params, s, e))
  {
    hide Serialisation, TotalBytes, PushChunk, Horizon, Shapes;
    if e.Push? {
      PushKeepsNear(params, s);
    } else if e.Pop? {
      PopKeepsNear(params, s);
    }
  }

  // ---------- Turns use up a bound ----------

  /** A bound on the steps still to come, the source included. */
  ghost function Potential(r: Ride): nat
    requires Shapes(r.s)
  {
    12 * |r.rest| + (if SourceEnded(r.s.reader) then 0 else 9) + Measure(r.s)
  }

  lemma ReadPays(params: LinkParams, s: State, e: Event)
    requires params.bitsPerSec != Some(0) && Shapes(s) && Enabled(s, e) && (e.Read? || e.Eof?)
    ensures var t := Step(params, s, e);
      && Shapes(t) && !SourceEnded(s.reader)
      && Measure(t) == Measure(s) + (if e.Read? then |e.buf| + 9 else 8)
      && (SourceEnded(t.reader) <==> e.Eof?)
  {
    hide Concat;
  }

  /** Does not fail, and lets enough time pass for whatever is stamped. */
  predicate Fair(params: LinkParams, bytes: nat, i: nat, turn: Turn)
    requires params.bitsPerSec != Some(0)
  {
    if i % 3 == 0 then turn.ReaderTurn? && !turn.fails
    else if i % 3 == 1 then turn.WriterTurn? && !turn.fails
    else turn.Elapse? && Horizon(params, bytes) <= turn.d
  }

  /** On the way, near, and not failed. */
  ghost predicate Well(params: LinkParams, source: Bytes, r: Ride)
    requires params.bitsPerSec != Some(0)
  {
    OnTrack(params, source, r) && Near(params, r.s) && !r.s.failed
  }

  predicate Fails(turn: Turn) {
    !turn.Elapse? && turn.fails
  }

  lemma NoFailure(params: LinkParams, s: State, rest: Bytes, turn: Turn)
    requires !Fails(turn) && TurnEvent(s, rest, turn).Some?
    ensures !TurnEvent(s, rest, turn).value.ReadFails? && !TurnEvent(s, rest, turn).value.WriteFails?
    ensures TurnEvent(s, rest, turn).value.Tick? <==> turn.Elapse?
  {
  }

  lemma EventPays(params: LinkParams, r: Ride, e: Event)
    requires params.bitsPerSec != Some(0) && Shapes(r.s) && Enabled(r.s, e) && !e.ReadFails? && !e.WriteFails?
    requires e.Read? ==> e.buf <= r.rest
    ensures var t := Ride(Step(params, r.s, e), RestAfter(r.rest, e));
      && Shapes(t.s) && (!r.s.failed ==> !t.s.failed)
      && Potential(t) + (if e.Tick? then 0 else 1) <= Potential(r)
  {
    hide Step, Enabled, Measure, Shapes;
    EventInput(params, r.s, e);
    if e.Read? || e.Eof? {
      ReadPays(params, r.s, e);
      SourceStays(params, r.s, e);
    } else if e.Tick? {
      TickOnly(params, r.s, e.d);
    } else {
      InternalStepsFinish(params, r.s, e);
      InternalKeepsInput(params, r.s, e);
    }
  }

  lemma SourceStays(params: LinkParams, s: State, e: Event)
    requires params.bitsPerSec != Some(0) && Enabled(s, e) && (e.Read? || e.Eof?)
    ensures Step(params, s, e).failed == s.failed && (e.Read? ==> e.buf != [])
  {
  }

  /** A turn that does not fail keeps all is well, and uses up some of the bound if a side moves. */
  lemma TurnPays(params: LinkParams, source: Bytes, r: Ride, turn: Turn)
    requires params.bitsPerSec != Some(0) && Well(params, source, r) && !Fails(turn)
    ensures Shapes(r.s) && Shapes(AfterTurn(params, r, turn).s)
    ensures var t := AfterTurn(params, r, turn);
      && Well(params, source, t) && Potential(t) <= Potential(r)
      && (!turn.Elapse? && TurnEvent(r.s, r.rest, turn).Some? ==> Potential(t) < Potential(r))
  {
    hide Step, Enabled, Inv, TurnEvent, Shapes, Potential, Near, SourceEnded, RestAfter;
    TrackShapes(params, source, r);
    TurnKeepsTrack(params, source, r, turn);
    TurnEnabled(r.s, r.rest, turn);
    if TurnEvent(r.s, r.rest, turn).Some? {
      var e := TurnEvent(r.s, r.rest, turn).value;
      NoFailure(params, r.s, r.rest, turn);
      StepKeepsNear(params, r.s, e);
      EventPays(params, r, e);
    }
  }

  // ---------- Fair turns finish ----------

  lemma BlockedSleeps(params: LinkParams, s: State, read: Option<Bytes>, accepted: nat)
    requires Validate(params).Ok? && Inv(params, s) && !s.failed && !Ended(s)
    requires ReaderEvent(s, read).None? && WriterEvent(s, accepted, false).None?
    ensures s.writer.Sleeping? && s.now < s.writer.next.at
  {
    hide OnTime, Began, Room;
    NeverStuck(params, s);
  }

  lemma DueAfter(params: LinkParams, source: Bytes, r: Ride, d: Duration)
    requires params.bitsPerSec != Some(0) && Well(params, source, r) && !Ended(r.s)
    requires r.s.writer.Sleeping? && Horizon(params, |source|) <= d
    ensures Shapes(r.s)
    ensures var t := AfterTurn(params, r, Elapse(d));
      && t == Ride(r.s.(now := r.s.now + d), r.rest) && !Ended(t.s)
      && t.s.writer.next.at <= t.s.now
  {
    hide Inv, Serialisation, TotalBytes, Shapes;
    TrackShapes(params, source, r);
    SerialisationGrows(params, TotalBytes(r.s.calls), |source|);
  }

  /** Six fair turns make some side move, unless the link has ended. */
  lemma SixTurns(params: LinkParams, source: Bytes, r: Ride, turns: seq<Turn>) returns (t: Ride)
    requires Validate(params).Ok? && Well(params, source, r) && !Ended(r.s)
    requires |turns| == 6 && forall i | 0 <= i < 6 :: Fair(params, |source|, i, turns[i])
    ensures Shapes(r.s) && Shapes(t.s) && Well(params, source, t) && Potential(t) < Potential(r)
    ensures t == AfterTurns(params, source, r, turns)
  {
    hide Well, Inv, Shapes, Potential, AfterTurn, OnTrack, Horizon, ReaderEvent, WriterEvent;
    var r1 := Turned(params, source, r, turns[0]);
    var r2 := Turned(params, source, r1, turns[1]);
    var r3 := Turned(params, source, r2, turns[2]);
    var r4 := Turned(params, source, r3, turns[3]);
    var r5 := Turned(params, source, r4, turns[4]);
    t := Turned(params, source, r5, turns[5]);
    SixthTurn(params, source, r, turns);
    if TurnEvent(r.s, r.rest, turns[0]).None? && TurnEvent(r1.s, r1.rest, turns[1]).None? {
      NothingMoves(params, r, turns[0]);
      NothingMoves(params, r1, turns[1]);
      assert r2 == r;
      WellParts(params, source, r);
      BlockedSleeps(params, r.s, ReadOf(r.rest, turns[0].size, false), turns[1].accepted);
      DueAfter(params, source, r, turns[2].d);
      if TurnEvent(r3.s, r3.rest, turns[3]).None? {
        NothingMoves(params, r3, turns[3]);
        DueMoves(r4.s, r4.rest, turns[4]);
      }
    }
  }

  lemma WellParts(params: LinkParams, source: Bytes, r: Ride)
    requires params.bitsPerSec != Some(0) && Well(params, source, r)
    ensures Inv(params, r.s) && Shapes(r.s) && !r.s.failed && OnTrack(params, source, r)
  {
    hide Inv, Near;
    TrackShapes(params, source, r);
  }

  lemma NothingMoves(params: LinkParams, r: Ride, turn: Turn)
    requires params.bitsPerSec != Some(0) && Shapes(r.s) && TurnEvent(r.s, r.rest, turn).None?
    ensures AfterTurn(params, r, turn) == r
  {
  }

  lemma DueMoves(s: State, rest: Bytes, turn: Turn)
    requires !s.failed && !Ended(s) && s.writer.Sleeping? && s.writer.next.at <= s.now && turn.WriterTurn?
    ensures TurnEvent(s, rest, turn).Some?
  {
  }

  lemma Turned(params: LinkParams, source: Bytes, r: Ride, turn: Turn) returns (t: Ride)
    requires params.bitsPerSec != Some(0) && Well(params, source, r) && !Fails(turn)
    ensures Shapes(r.s) && t == AfterTurn(params, r, turn) && Shapes(t.s) && OnTrack(params, source, r)
    ensures Well(params, source, t) && Potential(t) <= Potential(r)
    ensures !turn.Elapse? && TurnEvent(r.s, r.rest, turn).Some? ==> Potential(t) < Potential(r)
  {
    hide Well, Inv, Shapes, Potential, AfterTurn, OnTrack, TurnEvent;
    WellParts(params, source, r);
    TurnPays(params, source, r, turn);
    t := AfterTurn(params, r, turn);
  }

  lemma AfterFirst(params: LinkParams, source: Bytes, r: Ride, turns: seq<Turn>)
    requires params.bitsPerSec != Some(0) && OnTrack(params, source, r) && turns != []
    ensures Shapes(r.s) && OnTrack(params, source, AfterTurn(params, r, turns[0]))
    ensures AfterTurns(params, source, r, turns) == AfterTurns(params, source, AfterTurn(params, r, turns[0]), turns[1..])
  {
    hide AfterTurn, OnTrack;
    TrackShapes(params, source, r);
    TurnKeepsTrack(params, source, r, turns[0]);
  }

  lemma SixthTurn(params: LinkParams, source: Bytes, r: Ride, turns: seq<Turn>)
    requires params.bitsPerSec != Some(0) && Well(params, source, r)
    requires |turns| == 6 && forall i | 0 <= i < 6 :: !Fails(turns[i])
    ensures Shapes(r.s) && OnTrack(params, source, r)
    ensures var r1 := AfterTurn(params, r, turns[0]);
      && Shapes(r1.s) && var r2 := AfterTurn(params, r1, turns[1]);
      && Shapes(r2.s) && var r3 := AfterTurn(params, r2, turns[2]);
      && Shapes(r3.s) && var r4 := AfterTurn(params, r3, turns[3]);
      && Shapes(r4.s) && var r5 := AfterTurn(params, r4, turns[4]);
      && Shapes(r5.s) && AfterTurns(params, source, r, turns) == AfterTurn(params, r5, turns[5])
  {
    hide Well, Inv, Shapes, Potential, AfterTurn, OnTrack, TurnEvent, AfterTurns;
    WellParts(params, source, r);
    AfterFirst(params, source, r, turns);
    var r1 := Turned(params, source, r, turns[0]);
    AfterFirst(params, source, r1, turns[1..]);
    var r2 := Turned(params, source, r1, turns[1]);
    assert turns[1..][1..] == turns[2..];
    AfterFirst(params, source, r2, turns[2..]);
    var r3 := Turned(params, source, r2, turns[2]);
    assert turns[2..][1..] == turns[3..];
    AfterFirst(params, source, r3, turns[3..]);
    var r4 := Turned(params, source, r3, turns[3]);
    assert turns[3..][1..] == turns[4..];
    AfterFirst(params, source, r4, turns[4..]);
    var r5 := Turned(params, source, r4, turns[4]);
    assert turns[4..][1..] == turns[5..];
    AfterFirst(params, source, r5, turns[5..]);
    assert turns[5..][1..] == [];
    WellParts(params, source, r5);
    var r6 := Turned(params, source, r5, turns[5]);
    WellParts(params, source, r6);
    NoTurns(params, source, r6);
  }

  lemma NoTurns(params: LinkParams, source: Bytes, r: Ride)
    requires params.bitsPerSec != Some(0) && OnTrack(params, source, r)
    ensures AfterTurns(params, source, r, []) == r
  {
  }

  lemma {:induction false} EndStays(params: LinkParams, source: Bytes, r: Ride, turns: seq<Turn>)
    requires params.bitsPerSec != Some(0) && OnTrack(params, source, r)
    requires r.s.failed || Ended(r.s) || turns == []
    ensures AfterTurns(params, source, r, turns) == r
    decreases |turns|
  {
    hide OnTrack;
    if turns != [] {
      TrackShapes(params, source, r);
      NothingMoves(params, r, turns[0]);
      EndStays(params, source, r, turns[1..]);
    }
  }

  lemma {:induction false} TurnsInTwo(params: LinkParams, source: Bytes, r: Ride, a: seq<Turn>, b: seq<Turn>)
    requires params.bitsPerSec != Some(0) && OnTrack(params, source, r)
    ensures OnTrack(params, source, AfterTurns(params, source, r, a))
    ensures AfterTurns(params, source, r, a + b) == AfterTurns(params, source, AfterTurns(params, source, r, a), b)
    decreases |a|
  {
    hide OnTrack, AfterTurn;
    if a == [] {
      assert a + b == b;
    } else {
      assert (a + b)[1..] == a[1..] + b;
      TrackShapes(params, source, r);
      TurnKeepsTrack(params, source, r, a[0]);
      TurnsInTwo(params, source, AfterTurn(params, r, a[0]), a[1..], b);
    }
  }

  /** Fair turns, six for each unit of the bound, end the link. */
  lemma {:induction false} FairTurnsEnd(params: LinkParams, source: Bytes, r: Ride, turns: seq<Turn>)
    requires Validate(params).Ok? && Well(params, source, r) && Shapes(r.s)
    requires forall i | 0 <= i < |turns| :: Fair(params, |source|, i, turns[i])
    requires 6 * (Potential(r) + 1) <= |turns|
    ensures OnTrack(params, source, r)
    ensures var t := AfterTurns(params, source, r, turns); !t.s.failed && Ended(t.s) && OnTrack(params, source, t)
    decreases |turns|
  {
    hide Well, Inv, Shapes, Potential, AfterTurn, OnTrack, AfterTurns, Fair;
    WellParts(params, source, r);
    if Ended(r.s) {
      EndStays(params, source, r, turns);
    } else {
      var six, more := turns[..6], turns[6..];
      var t := SixTurns(params, source, r, six);
      assert turns == six + more;
      TurnsInTwo(params, source, r, six, more);
      forall i | 0 <= i < |more|
        ensures Fair(params, |source|, i, more[i])
      {
        SameTurn(params, |source|, i, more[i]);
        assert Fair(params, |source|, i + 6, turns[i + 6]);
      }
      FairTurnsEnd(params, source, t, more);
    }
  }

  lemma SameTurn(params: LinkParams, bytes: nat, i: nat, turn: Turn)
    requires params.bitsPerSec != Some(0)
    ensures Fair(params, bytes, i + 6, turn) <==> Fair(params, bytes, i, turn)
  {
    assert (i + 6) % 3 == i % 3;
  }

  // ---------- Failures ----------

  /** A socket that fails in a side's turn fails the link, which then stays as it is: nothing more is read,
      written or counted. */
  lemma FailureEndsIt(params: LinkParams, source: Bytes, r: Ride, turn: Turn, more: seq<Turn>)
    requires params.bitsPerSec != Some(0) && OnTrack(params, source, r) && !r.s.failed && !Ended(r.s) && Fails(turn)
    requires if turn.ReaderTurn? then r.s.reader.Reading? else r.s.writer.Writing? || r.s.writer.Shutting?
    ensures AfterTurns(params, source, r, [turn] + more) == Ride(r.s.(failed := true), r.rest)
  {
    hide Inv, AfterTurns;
    TrackShapes(params, source, r);
    assert ([turn] + more)[0] == turn && ([turn] + more)[1..] == more;
    AfterFirst(params, source, r, [turn] + more);
    var t := AfterTurn(params, r, turn);
    EndStays(params, source, t, more);
  }

  // ---------- From the start ----------

  /** Turns that go round reader, writer, clock, without a failure, each time letting pass what the whole
      source takes on the link plus its delay, and enough of them for the source's length. */
  predicate AreFair(params: LinkParams, source: Bytes, turns: seq<Turn>)
    requires params.bitsPerSec != Some(0)
  {
    && 72 * |source| + 66 <= |turns|
    && forall i | 0 <= i < |turns| :: Fair(params, |source|, i, turns[i])
  }

  lemma StartIsWell(params: LinkParams, source: Bytes)
    requires Validate(params).Ok?
    ensures var r := Ride(Start(params), source); Well(params, source, r) && Shapes(r.s) && Potential(r) == 12 * |source| + 10
  {
    StartInv(params);
    assert [] + source == source;
  }

  /** Fair turns carry the whole source over: at the end it has all been delivered and counted, all room is
      free, and the link has shut down. */
  lemma FairTurnsDeliver(params: LinkParams, source: Bytes, turns: seq<Turn>)
    requires Validate(params).Ok? && AreFair(params, source, turns)
    ensures OnTrack(params, source, Ride(Start(params), source))
    ensures var t := AfterTurns(params, source, Ride(Start(params), source), turns);
      && !t.s.failed && Ended(t.s) && t.rest == []
      && t.s.output == source && t.s.delivered == |source| && t.s.permits == params.queueBytes
  {
    hide Well, Inv, Shapes, Potential, AfterTurn, AfterTurns, Fair, Start;
    StartIsWell(params, source);
    WellParts(params, source, Ride(Start(params), source));
    FairTurnsEnd(params, source, Ride(Start(params), source), turns);
    var t := AfterTurns(params, source, Ride(Start(params), source), turns);
    InvIsSafe(params, t.s);
    assert t.s.input + [] == t.s.input;
  }
}
