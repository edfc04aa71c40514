/** The pump as it runs: the fields its two loops share, the statements of each loop between two suspension
    points, and both loops under an arbitrary scheduler. */
module Link {
  import opened Wrappers
  import opened Bytes
  import opened Schedule
  import opened Pump
  import opened Driving

  class Link {
    const params: LinkParams
    const schedule: Schedule
    var queue: seq<Chunk>
    var notified: bool
    var woken: bool
    var permits: nat
    var reader: Reader
    var writer: Writer
    var now: real
    var delivered: nat
    var failed: bool
    ghost var input: Bytes
    ghost var output: Bytes
    ghost var starts: seq<real>

    ghost function View(): State
      reads this, schedule
    {
      State(queue, notified, woken, permits, reader, writer, now, schedule.linkFreeAt, delivered, failed,
            input, output, schedule.calls, starts)
    }

    /** The fields are a state of the step system that keeps its invariant. */
    ghost predicate Valid()
      reads this, schedule
    {
      && schedule.Valid() && schedule.params == params
      && Validate(params).Ok? && Inv(params, View())
    }

    /** The fields are now as after event `e` in state `s`. */
    ghost predicate Took(s: State, e: Event)
      reads this, schedule
    {
      Validate(params).Ok? && Enabled(s, e) && View() == Step(params, s, e)
    }

    constructor (params: LinkParams)
      requires Validate(params).Ok?
      ensures Valid() && fresh(schedule) && this.params == params && View() == Start(params)
    {
      this.params := params;
      schedule := new Schedule(params);
      queue, notified, woken, permits := [], false, false, params.queueBytes;
      reader, writer := Reading, Popping;
      now, delivered, failed := 0.0, 0, false;
      input, output, starts := [], [], [];
      new;
      StartInv(params);
    }

    // ---------- The reader loop ----------

    method FinishRead(read: Option<Bytes>) returns (ghost e: Event)
      requires Valid() && !failed && reader.Reading? && (read.Some? ==> |read.value| <= CHUNK)
      modifies this
      ensures Valid() && e == ReadEvent(read) && Took(old(View()), e)
    {
      hide Inv;
      ghost var s := View();
      e := ReadEvent(read);
      match read {
        case None =>
          failed := true;
        case Some(buf) =>
          if |buf| == 0 {
            reader := AtEof;
          } else {
            reader := AwaitRoom(buf);
            input := input + buf;
          }
      }
      StepKeepsInv(params, s, e);
    }

    method AcquireRoom() returns (acquired: bool)
      requires Valid() && !failed && reader.AwaitRoom?
      modifies this
      ensures Valid() && acquired == (|old(reader).buf| <= old(permits))
      ensures if acquired then Took(old(View()), Acquire) else View() == old(View())
    {
      hide Inv;
      ghost var s := View();
      acquired := |reader.buf| <= permits;
      if acquired {
        permits := permits - |reader.buf|;
        reader := HasRoom(reader.buf);
        StepKeepsInv(params, s, Acquire);
      }
    }

    /** Stamps the chunk, or the end marker, and queues it. */
    method PushBack()
      requires Valid() && !failed && (reader.HasRoom? || reader.AtEof?)
      modifies this, schedule
      ensures Valid() && Took(old(View()), Push)
    {
      hide FreeAt, DeliveryTime, Serialisation, PushChunk, IsLatestBusy, Inv;
      ghost var s := View();
      var bytes := if reader.AtEof? then [] else reader.buf;
      TimesKept(params, s);
      StampIsSchedule(params, s, bytes);
      assert Enabled(s, Push) && Step(params, s, Push) == PushChunk(params, s, bytes);
      var at := schedule.DeliverAt(now, |bytes|);
      queue := queue + [Chunk(at, bytes)];
      reader := Pushed(bytes == []);
      StepKeepsInv(params, s, Push);
    }

    method NotifyOne()
      requires Valid() && !failed && reader.Pushed?
      modifies this
      ensures Valid() && Took(old(View()), Notify)
    {
      hide Inv;
      ghost var s := View();
      if writer.Waiting? && !woken {
        woken := true;
      } else {
        notified := true;
      }
      reader := if reader.last then ReaderDone else Reading;
      StepKeepsInv(params, s, Notify);
    }

    /** The reader's loop up to its next suspension point; it moves unless it waits for more room than is free. */
    method RunReader(read: Option<Bytes>) returns (moved: bool, ghost e: Event)
      requires Valid() && !failed && !reader.ReaderDone? && (read.Some? ==> |read.value| <= CHUNK)
      modifies this, schedule
      ensures Valid()
      ensures moved <==> !(old(reader).AwaitRoom? && old(permits) < |old(reader).buf|)
      ensures ReaderEvent(old(View()), read) == if moved then Some(e) else None
      ensures if moved then Took(old(View()), e) else View() == old(View())
    {
      hide Inv, Step, Enabled;
      moved := true;
      match reader {
        case Reading =>
          e := FinishRead(read);
        case AwaitRoom(_) =>
          e := Acquire;
          moved := AcquireRoom();
        case HasRoom(_) =>
          e := Push;
          PushBack();
        case AtEof =>
          e := Push;
          PushBack();
        case Pushed(_) =>
          e := Notify;
          NotifyOne();
      }
    }

    // ---------- The writer loop ----------

    method PopFront() returns (ghost e: Event)
      requires Valid() && !failed && writer.Popping?
      modifies this
      ensures Valid() && e == (if old(queue) == [] then Await else Pop) && Took(old(View()), e)
    {
      hide Inv;
      ghost var s := View();
      if queue == [] {
        e := Await;
        if notified {
          notified := false;
        } else {
          writer := Waiting;
        }
      } else {
        e := Pop;
        writer := Sleeping(queue[0]);
        queue := queue[1..];
      }
      StepKeepsInv(params, s, e);
    }

    method Notified() returns (due: bool)
      requires Valid() && !failed && writer.Waiting?
      modifies this
      ensures Valid() && due == old(woken)
      ensures if due then Took(old(View()), Wake) else View() == old(View())
    {
      hide Inv;
      ghost var s := View();
      due := woken;
      if due {
        woken := false;
        writer := Popping;
        StepKeepsInv(params, s, Wake);
      }
    }

    method SleepUntil() returns (due: bool)
      requires Valid() && !failed && writer.Sleeping?
      modifies this
      ensures Valid() && due == (old(writer).next.at <= old(now))
      ensures if due then Took(old(View()), Due) else View() == old(View())
    {
      hide Inv;
      ghost var s := View();
      var Sleeping(next) := writer;
      due := !(next.at > now);
      if due {
        writer := if |next.bytes| == 0 then Shutting else Writing(next.bytes, 0);
        starts := starts + [now];
        StepKeepsInv(params, s, Due);
      }
    }

    /** The socket takes some more bytes of the chunk. */
    method WriteSome(accepted: nat) returns (ghost e: Event)
      requires Valid() && !failed && writer.Writing? && writer.sent < |writer.bytes|
      modifies this
      ensures Valid() && e == Write(Taken(accepted, |old(writer).bytes| - old(writer).sent)) && Took(old(View()), e)
    {
      hide Inv;
      ghost var s := View();
      var Writing(bytes, sent) := writer;
      var k := if accepted == 0 then 1 else if |bytes| - sent < accepted then |bytes| - sent else accepted;
      e := Write(k);
      output := output + bytes[sent..sent + k];
      writer := Writing(bytes, sent + k);
      StepKeepsInv(params, s, e);
    }

    method CountDelivered()
      requires Valid() && !failed && writer.Writing? && writer.sent == |writer.bytes|
      modifies this
      ensures Valid() && Took(old(View()), Count)
    {
      hide Inv;
      ghost var s := View();
      delivered := delivered + |writer.bytes|;
      writer := Written(|writer.bytes|);
      StepKeepsInv(params, s, Count);
    }

    method FailToWrite()
      requires Valid() && !failed && (writer.Writing? || writer.Shutting?)
      modifies this
      ensures Valid() && Took(old(View()), WriteFails)
    {
      hide Inv;
      ghost var s := View();
      failed := true;
      StepKeepsInv(params, s, WriteFails);
    }

    /** The socket takes some more bytes of the chunk, or fails; a chunk taken in full is counted. */
    method WriteOn(accepted: nat, fails: bool) returns (ghost e: Event)
      requires Valid() && !failed && writer.Writing?
      modifies this
      ensures Valid() && WriterEvent(old(View()), accepted, fails) == Some(e) && Took(old(View()), e)
    {
      hide Inv, Step, Enabled;
      WriterShape(params, View());
      if fails {
        e := WriteFails;
        FailToWrite();
      } else if writer.sent < |writer.bytes| {
        e := WriteSome(accepted);
      } else {
        e := Count;
        CountDelivered();
      }
    }

    method AddPermits()
      requires Valid() && !failed && writer.Written?
      modifies this
      ensures Valid() && Took(old(View()), Release)
    {
      hide Inv;
      ghost var s := View();
      permits := permits + writer.count;
      writer := Popping;
      StepKeepsInv(params, s, Release);
    }

    method ShutDown(fails: bool) returns (ghost e: Event)
      requires Valid() && !failed && writer.Shutting?
      modifies this
      ensures Valid() && e == (if fails then WriteFails else Event.Shutdown) && Took(old(View()), e)
    {
      hide Inv;
      ghost var s := View();
      if fails {
        e := WriteFails;
        FailToWrite();
      } else {
        e := Event.Shutdown;
        writer := WriterDone;
        StepKeepsInv(params, s, e);
      }
    }

    /** The writer's loop up to its next suspension point; it moves unless it waits for a notification or for
        a delivery time that has not come. */
    method RunWriter(accepted: nat, fails: bool) returns (moved: bool, ghost e: Event)
      requires Valid() && !failed && !writer.WriterDone?
      modifies this
      ensures Valid()
      ensures moved <==>
        !(old(writer).Waiting? && !old(woken)) && !(old(writer).Sleeping? && old(now) < old(writer).next.at)
      ensures WriterEvent(old(View()), accepted, fails) == if moved then Some(e) else None
      ensures if moved then Took(old(View()), e) else View() == old(View())
    {
      hide Inv, Step, Enabled;
      moved := true;
      match writer {
        case Popping =>
          e := PopFront();
        case Waiting =>
          e := Wake;
          moved := Notified();
        case Sleeping(_) =>
          e := Due;
          moved := SleepUntil();
        case Writing(_, _) =>
          e := WriteOn(accepted, fails);
        case Written(_) =>
          e := Release;
          AddPermits();
        case Shutting =>
          e := ShutDown(fails);
      }
    }

    method PassTime(d: Duration)
      requires Valid() && !failed && !(reader.ReaderDone? && writer.WriterDone?)
      modifies this
      ensures Valid() && Took(old(View()), Tick(d))
    {
      hide Inv;
      ghost var s := View();
      now := now + d;
      StepKeepsInv(params, s, Tick(d));
    }

    // ---------- Both loops ----------

    /** One turn: the side chosen moves unless it has ended or has to wait, and a read takes `taken` bytes of
        what the source has left. */
    method TakeTurn(rest: Bytes, turn: Turn) returns (taken: nat, moved: bool, ghost e: Event)
      requires Valid() && !failed && !(reader.ReaderDone? && writer.WriterDone?)
      modifies this, schedule
      ensures Valid() && taken <= |rest|
      ensures turn.ReaderTurn? ==>
        (moved <==> !old(reader).ReaderDone? && !(old(reader).AwaitRoom? && old(permits) < |old(reader).buf|))
      ensures turn.WriterTurn? ==>
        (moved <==>
          && !old(writer).WriterDone? && !(old(writer).Waiting? && !old(woken))
          && !(old(writer).Sleeping? && old(now) < old(writer).next.at))
      ensures turn.Elapse? ==> moved
      ensures TurnEvent(old(View()), rest, turn) == if moved then Some(e) else None
      ensures if moved then Took(old(View()), e) else View() == old(View())
      ensures input == old(input) + rest[..taken]
      ensures Shapes(old(View())) && AfterTurn(params, Ride(old(View()), rest), turn) == Ride(View(), rest[taken..])
    {
      hide Inv, Step, Enabled, MarkerPushed, SourceEnded, Shapes;
      ghost var s := View();
      taken, moved, e := 0, false, Notify;
      InvShapes(params, s);
      match turn {
        case ReaderTurn(size, fails) =>
          if !reader.ReaderDone? {
            var read := ReadOf(rest, size, fails);
            if reader.Reading? && read.Some? {
              taken := |read.value|;
            }
            moved, e := RunReader(read);
          }
        case WriterTurn(accepted, fails) =>
          if !writer.WriterDone? {
            moved, e := RunWriter(accepted, fails);
          }
        case Elapse(d) =>
          PassTime(d);
          moved, e := true, Tick(d);
      }
      if moved {
        EventInput(params, s, e);
      }
    }

    /** Carries `source` over the link: runs both loops as the scheduler decides, until they end, a socket
        fails, or no turns are left. It ends where these turns lead, by a run of the step system; the output is
        always a prefix of the source, no byte of room is lost, a normal end means that the whole source was
        delivered and all room is free again, whenever the link is quiet everything read has been delivered,
        and fair turns, enough for the source's length, do end it. */
    method Drive(source: Bytes, turns: seq<Turn>) returns (ended: bool, ghost events: seq<Event>)
      requires Valid() && View() == Start(params)
      modifies this, schedule
      ensures Valid() && IsRun(params, Start(params), events) && View() == Run(params, Start(params), events)
      ensures output <= input <= source
      ensures OnTrack(params, source, Ride(Start(params), source))
      ensures Ride(View(), source[|input|..]) == AfterTurns(params, source, Ride(Start(params), source), turns)
      ensures permits + |Concat(queue)| + WriterRoom(writer) + ReaderRoom(reader) == params.queueBytes
      ensures ended == (!failed && reader.ReaderDone? && writer.WriterDone?)
      ensures ended ==> output == source && delivered == |source| && permits == params.queueBytes
      ensures !failed && Quiet(View()) ==> output == input && (SourceEnded(reader) ==> ended)
      ensures AreFair(params, source, turns) ==> ended
    {
      hide Inv, Step, Enabled, Quiet, Run, IsRun, AfterTurns, TurnEvent, RestAfter, AreFair, Start, SourceEnded, Shapes, OnTrack, AfterTurn, Concat;
      events := [];
      NoEvents(params);
      StartOnTrack(params, source);
      ghost var whole := Ride(Start(params), source);
      var position: nat := 0;
      var i := 0;
      while i < |turns| && !failed && !(reader.ReaderDone? && writer.WriterDone?)
        invariant 0 <= i <= |turns| && Valid()
        invariant IsRun(params, Start(params), events) && View() == Run(params, Start(params), events)
        invariant position <= |source| && input == source[..position]
        invariant OnTrack(params, source, whole) && OnTrack(params, source, Ride(View(), source[position..]))
        invariant AfterTurns(params, source, whole, turns)
          == AfterTurns(params, source, Ride(View(), source[position..]), turns[i..])
      {
        AfterFirst(params, source, Ride(View(), source[position..]), turns[i..]);
        var taken, moved;
        ghost var e;
        taken, moved, e := TakeTurn(source[position..], turns[i]);
        TakenNext(source, position, taken);
        assert turns[i..][1..] == turns[i + 1..] && turns[i..][0] == turns[i];
        position := position + taken;
        if moved {
          RunAppend(params, Start(params), events, e);
          events := events + [e];
        }
        i := i + 1;
      }
      EndStays(params, source, Ride(View(), source[position..]), turns[i..]);
      ended := !failed && reader.ReaderDone? && writer.WriterDone?;
      AtTheEnd(params, source, Ride(View(), source[position..]));
      if AreFair(params, source, turns) {
        FairTurnsDeliver(params, source, turns);
      }
    }
  }

  lemma TakenNext(source: Bytes, position: nat, taken: nat)
    requires position + taken <= |source|
    ensures source[..position + taken] == source[..position] + source[position..][..taken]
    ensures source[position..][taken..] == source[position + taken..]
  {
  }

  lemma StartOnTrack(params: LinkParams, source: Bytes)
    requires Validate(params).Ok?
    ensures OnTrack(params, source, Ride(Start(params), source))
  {
    StartInv(params);
    assert [] + source == source;
  }

  lemma AtTheEnd(params: LinkParams, source: Bytes, r: Ride)
    requires Validate(params).Ok? && OnTrack(params, source, r)
    ensures r.s.output <= r.s.input <= source
    ensures r.s.permits + |Concat(r.s.queue)| + WriterRoom(r.s.writer) + ReaderRoom(r.s.reader) == params.queueBytes
    ensures Ended(r.s) ==> r.s.output == source && r.s.delivered == |source| && r.s.permits == params.queueBytes
    ensures !r.s.failed && Quiet(r.s) ==> r.s.output == r.s.input && (SourceEnded(r.s.reader) ==> Ended(r.s))
  {
    hide Inv, Quiet;
    assert r.s.input + [] == r.s.input;
    RoomKept(params, r.s);
    InvIsSafe(params, r.s);
    if !r.s.failed && Quiet(r.s) {
      QuietIsDrained(params, r.s);
    }
  }

  lemma RoomKept(params: LinkParams, s: State)
    requires params.bitsPerSec != Some(0) && Inv(params, s)
    ensures s.permits + |Concat(s.queue)| + WriterRoom(s.writer) + ReaderRoom(s.reader) == params.queueBytes
  {
  }

  lemma NoEvents(params: LinkParams)
    requires Validate(params).Ok?
    ensures IsRun(params, Start(params), []) && Run(params, Start(params), []) == Start(params)
  {
  }

  lemma TimesKept(params: LinkParams, s: State)
    requires params.bitsPerSec != Some(0) && Inv(params, s)
    ensures s.linkFreeAt == FreeAt(params, s.calls)
  {
  }

  lemma WriterShape(params: LinkParams, s: State)
    requires params.bitsPerSec != Some(0) && Inv(params, s)
    ensures s.writer.Writing? ==> 0 < |s.writer.bytes| && s.writer.sent <= |s.writer.bytes|
  {
  }
}
