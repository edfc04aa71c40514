/** One direction of the emulated link: a reader and a writer that share a queue, a counting
    semaphore (`permits`) and a notification. A notification wakes the waiting writer (`woken`, until the
    writer runs); with no writer to wake it is stored, once (`notified`). The two sides run in any
    interleaving; each event below is one step of one of them, of the clock, or of the sockets. */
module Pump {
  import opened Wrappers
  import opened Bytes
  import opened Schedule

  /** A queued chunk with its delivery time; the empty chunk is the end of the stream. */
  datatype Chunk = Chunk(at: real, bytes: Bytes)

  datatype Reader =
    | Reading
    | AwaitRoom(buf: Bytes)
    | HasRoom(buf: Bytes)
    | AtEof
    | Pushed(last: bool)
    | ReaderDone

  datatype Writer =
    | Popping
    | Waiting
    | Sleeping(next: Chunk)
    | Writing(bytes: Bytes, sent: nat)
    | Written(count: nat)
    | Shutting
    | WriterDone

  /** `input`, `output`, `calls` and `starts` record history: the bytes read and written so far, the
      calls of the schedule, and when the writer began each chunk. */
  datatype State = State(
    queue: seq<Chunk>,
    notified: bool,
    woken: bool,
    permits: nat,
    reader: Reader,
    writer: Writer,
    now: real,
    linkFreeAt: Option<real>,
    delivered: nat,
    failed: bool,
    input: Bytes,
    output: Bytes,
    calls: seq<Call>,
    starts: seq<real>)

  datatype Event =
    // The environment: the clock and the two sockets.
    | Tick(d: Duration)
    | Read(buf: Bytes)
    | Eof
    | ReadFails
    | WriteFails
    // The reader.
    | Acquire
    | Push
    | Notify
    // The writer.
    | Pop
    | Await
    | Wake
    | Due
    | Write(k: nat)
    | Count
    | Release
    | Shutdown

  function Start(params: LinkParams): State {
    State([], false, false, params.queueBytes, Reading, Popping, 0.0, None, 0, false, [], [], [], [])
  }

  predicate Ended(s: State) {
    s.reader.ReaderDone? && s.writer.WriterDone?
  }

  predicate Enabled(s: State, e: Event) {
    && !s.failed && !Ended(s)
    && match e
       case Tick(_) => true
       case Read(buf) => s.reader.Reading? && 0 < |buf| <= CHUNK
       case Eof => s.reader.Reading?
       case ReadFails => s.reader.Reading?
       case WriteFails => s.writer.Writing? || s.writer.Shutting?
       case Acquire => s.reader.AwaitRoom? && |s.reader.buf| <= s.permits
       case Push => s.reader.HasRoom? || s.reader.AtEof?
       case Notify => s.reader.Pushed?
       case Pop => s.writer.Popping? && s.queue != []
       case Await => s.writer.Popping? && s.queue == []
       case Wake => s.writer.Waiting? && s.woken
       case Due => s.writer.Sleeping? && s.writer.next.at <= s.now
       case Write(k) => s.writer.Writing? && 0 < k <= |s.writer.bytes| - s.writer.sent
       case Count => s.writer.Writing? && s.writer.sent == |s.writer.bytes|
       case Release => s.writer.Written?
       case Shutdown => s.writer.Shutting?
  }

  /** The schedule stamps a chunk of `bytes`, which joins the queue. */
  function PushChunk(params: LinkParams, s: State, bytes: Bytes): State
    requires params.bitsPerSec != Some(0)
  {
    var start := match s.linkFreeAt
                 case Some(free) => if free > s.now then free else s.now
                 case None => s.now;
    var sent := start + Serialisation(params, |bytes|);
    s.(linkFreeAt := Some(sent),
       queue := s.queue + [Chunk(sent + params.delay, bytes)],
       calls := s.calls + [Call(s.now, |bytes|)],
       reader := Pushed(bytes == []))
  }

  function Step(params: LinkParams, s: State, e: Event): State
    requires params.bitsPerSec != Some(0) && Enabled(s, e)
  {
    match e
    case Tick(d) => s.(now := s.now + d)
    case Read(buf) => s.(reader := AwaitRoom(buf), input := s.input + buf)
    case Eof => s.(reader := AtEof)
    case ReadFails => s.(failed := true)
    case WriteFails => s.(failed := true)
    case Acquire => s.(permits := s.permits - |s.reader.buf|, reader := HasRoom(s.reader.buf))
    case Push => PushChunk(params, s, if s.reader.AtEof? then [] else s.reader.buf)
    case Notify =>
      var wakes := s.writer.Waiting? && !s.woken;
      s.(woken := s.woken || wakes, notified := s.notified || !wakes, reader := if s.reader.last then ReaderDone else Reading)
    case Pop => s.(queue := s.queue[1..], writer := Sleeping(s.queue[0]))
    case Await => if s.notified then s.(notified := false) else s.(writer := Waiting)
    case Wake => s.(woken := false, writer := Popping)
    case Due =>
      var bytes := s.writer.next.bytes;
      s.(writer := if bytes == [] then Shutting else Writing(bytes, 0), starts := s.starts + [s.now])
    case Write(k) =>
      var Writing(bytes, sent) := s.writer;
      s.(writer := Writing(bytes, sent + k), output := s.output + bytes[sent..sent + k])
    case Count => s.(delivered := s.delivered + |s.writer.bytes|, writer := Written(|s.writer.bytes|))
    case Release => s.(permits := s.permits + s.writer.count, writer := Popping)
    case Shutdown => s.(writer := WriterDone)
  }

  predicate IsRun(params: LinkParams, s: State, events: seq<Event>)
    requires params.bitsPerSec != Some(0)
    decreases |events|
  {
    events == [] || (Enabled(s, events[0]) && IsRun(params, Step(params, s, events[0]), events[1..]))
  }

  function Run(params: LinkParams, s: State, events: seq<Event>): State
    requires params.bitsPerSec != Some(0) && IsRun(params, s, events)
    decreases |events|
  {
    if events == [] then s else Run(params, Step(params, s, events[0]), events[1..])
  }

  // ---------- The invariant ----------

  function Concat(queue: seq<Chunk>): Bytes {
    if queue == [] then [] else queue[0].bytes + Concat(queue[1..])
  }

  /** Bytes read and waiting for room, or holding room and not yet queued. */
  function WithReader(r: Reader): Bytes {
    if r.AwaitRoom? || r.HasRoom? then r.buf else []
  }

  /** Bytes popped and not yet written. */
  function WithWriter(w: Writer): Bytes
    requires w.Writing? ==> w.sent <= |w.bytes|
  {
    match w
    case Sleeping(next) => next.bytes
    case Writing(bytes, sent) => bytes[sent..]
    case _ => []
  }

  /** Room taken by the reader for the chunk it is about to queue. */
  function ReaderRoom(r: Reader): nat {
    if r.HasRoom? then |r.buf| else 0
  }

  /** Room held by the chunk the writer has popped and not yet released. */
  function WriterRoom(w: Writer): nat {
    match w
    case Sleeping(next) => |next.bytes|
    case Writing(bytes, _) => |bytes|
    case Written(count) => count
    case _ => 0
  }

  /** The source ended and its end marker was queued. */
  predicate MarkerPushed(r: Reader) {
    (r.Pushed? && r.last) || r.ReaderDone?
  }

  predicate SourceEnded(r: Reader) {
    r.AtEof? || MarkerPushed(r)
  }

  /** The writer holds the end marker or has acted on it. */
  predicate MarkerPopped(w: Writer) {
    (w.Sleeping? && w.next.bytes == []) || w.Shutting? || w.WriterDone?
  }

  ghost predicate Shapes(s: State) {
    && (s.reader.AwaitRoom? || s.reader.HasRoom? ==> 0 < |s.reader.buf| <= CHUNK)
    && (s.writer.Writing? ==> 0 < |s.writer.bytes| && s.writer.sent <= |s.writer.bytes|)
    && (s.writer.Written? ==> 0 < s.writer.count)
  }

  /** The end marker is queued once, behind every chunk. */
  ghost predicate MarkerInPlace(s: State) {
    && (MarkerPushed(s.reader) || MarkerPopped(s.writer) ==> MarkerPushed(s.reader))
    && (forall i :: 0 <= i < |s.queue| - 1 ==> s.queue[i].bytes != [])
    && (MarkerPopped(s.writer) ==> s.queue == [])
    && (s.queue != [] ==> (s.queue[|s.queue| - 1].bytes == [] <==> MarkerPushed(s.reader)))
    && (MarkerPushed(s.reader) && s.queue == [] ==> MarkerPopped(s.writer))
  }

  /** FIFO: what was read is what was written, then what the writer holds, the queue and the reader. */
  ghost predicate Fifo(s: State)
    requires Shapes(s)
  {
    s.input == s.output + WithWriter(s.writer) + Concat(s.queue) + WithReader(s.reader)
  }

  /** Conservation of room. */
  ghost predicate Room(params: LinkParams, s: State) {
    s.permits + |Concat(s.queue)| + WriterRoom(s.writer) + ReaderRoom(s.reader) == params.queueBytes
  }

  /** The counter lags the output only by the chunk being written. */
  ghost predicate Counted(s: State) {
    s.delivered + (if s.writer.Writing? then s.writer.sent else 0) == |s.output|
  }

  /** A writer that waits with work queued is about to be woken, and only a waiting writer is. */
  ghost predicate NoLostWakeup(s: State) {
    && (s.writer.Waiting? && s.queue != [] ==> s.woken || s.reader.Pushed?)
    && (s.woken ==> s.writer.Waiting?)
  }

  function Popped(s: State): nat {
    |s.starts| + (if s.writer.Sleeping? then 1 else 0)
  }

  /** Queue and writer carry the schedule's stamps, and no chunk was begun before its stamp. */
  ghost predicate OnTime(params: LinkParams, s: State)
    requires params.bitsPerSec != Some(0)
  {
    && s.linkFreeAt == FreeAt(params, s.calls)
    && |s.calls| == Popped(s) + |s.queue|
    && (forall j :: 0 <= j < |s.queue| ==>
          && s.queue[j].at == DeliveryTime(params, s.calls[..Popped(s) + j + 1])
          && |s.queue[j].bytes| == s.calls[Popped(s) + j].bytes)
    && (s.writer.Sleeping? ==>
          && s.writer.next.at == DeliveryTime(params, s.calls[..|s.starts| + 1])
          && |s.writer.next.bytes| == s.calls[|s.starts|].bytes)
    && (forall i :: 0 <= i < |s.starts| ==> DeliveryTime(params, s.calls[..i + 1]) <= s.starts[i] <= s.now)
  }

  /** Every chunk the writer began is in the output, but for the rest of the one it is writing. */
  ghost predicate Began(s: State)
    requires Shapes(s)
  {
    && |s.starts| <= |s.calls|
    && TotalBytes(s.calls[..|s.starts|]) == |s.output| + (if s.writer.Writing? then |WithWriter(s.writer)| else 0)
  }

  ghost predicate Inv(params: LinkParams, s: State)
    requires params.bitsPerSec != Some(0)
  {
    && Shapes(s) && MarkerInPlace(s) && Fifo(s) && Room(params, s) && Counted(s)
    && NoLostWakeup(s) && OnTime(params, s) && Began(s)
  }

  lemma {:induction false} ConcatAppend(queue: seq<Chunk>, c: Chunk)
    ensures Concat(queue + [c]) == Concat(queue) + c.bytes
  {
    if queue == [] {
      assert queue + [c] == [c] && [c][1..] == [];
    } else {
      assert (queue + [c])[1..] == queue[1..] + [c];
      ConcatAppend(queue[1..], c);
    }
  }

  lemma {:induction false} TotalAppend(calls: seq<Call>, c: Call)
    ensures TotalBytes(calls + [c]) == TotalBytes(calls) + c.bytes
  {
    if calls == [] {
      assert calls + [c] == [c] && [c][1..] == [];
    } else {
      assert (calls + [c])[1..] == calls[1..] + [c];
      TotalAppend(calls[1..], c);
    }
  }

  lemma PushKeepsShapes(params: LinkParams, s: State)
    requires params.bitsPerSec != Some(0) && Shapes(s) && Counted(s) && NoLostWakeup(s) && Enabled(s, Push)
    ensures var t := Step(params, s, Push); Shapes(t) && Counted(t) && NoLostWakeup(t)
  {
    hide Serialisation;
  }

  lemma StepKeepsShapes(params: LinkParams, s: State, e: Event)
    requires params.bitsPerSec != Some(0) && Shapes(s) && Counted(s) && NoLostWakeup(s) && Enabled(s, e)
    ensures var t := Step(params, s, e); Shapes(t) && Counted(t) && NoLostWakeup(t)
  {
    hide PushChunk;
    if e.Push? {
      PushKeepsShapes(params, s);
    }
  }

  lemma PushKeepsMarker(params: LinkParams, s: State)
    requires params.bitsPerSec != Some(0) && MarkerInPlace(s) && Enabled(s, Push)
    ensures MarkerInPlace(Step(params, s, Push))
  {
    hide Serialisation;
  }

  lemma PopKeepsMarker(params: LinkParams, s: State)
    requires params.bitsPerSec != Some(0) && MarkerInPlace(s) && Enabled(s, Pop)
    ensures MarkerInPlace(Step(params, s, Pop))
  {
  }

  lemma MarkerStays(params: LinkParams, s: State, e: Event)
    requires params.bitsPerSec != Some(0) && MarkerInPlace(s) && Enabled(s, e) && !e.Push? && !e.Pop?
    ensures MarkerInPlace(Step(params, s, e))
  {
    hide PushChunk;
    var t := Step(params, s, e);
    assert t.queue == s.queue && (MarkerPushed(t.reader) <==> MarkerPushed(s.reader));
    assert MarkerPopped(t.writer) <==> MarkerPopped(s.writer);
  }

  lemma StepKeepsMarker(params: LinkParams, s: State, e: Event)
    requires params.bitsPerSec != Some(0) && MarkerInPlace(s) && Enabled(s, e)
    ensures MarkerInPlace(Step(params, s, e))
  {
    hide PushChunk;
    if e.Push? {
      PushKeepsMarker(params, s);
    } else if e.Pop? {
      PopKeepsMarker(params, s);
    } else {
      hide MarkerInPlace;
      MarkerStays(params, s, e);
    }
  }

  lemma PushKeepsFifo(params: LinkParams, s: State)
    requires params.bitsPerSec != Some(0) && Shapes(s) && Fifo(s) && Enabled(s, Push)
    ensures var t := Step(params, s, Push); Shapes(t) && Fifo(t)
  {
    hide Serialisation;
    var t := Step(params, s, Push);
    ConcatAppend(s.queue, t.queue[|s.queue|]);
    assert Concat(t.queue) == Concat(s.queue) + WithReader(s.reader);
    assert WithReader(t.reader) == [];
  }

  lemma PopKeepsFifo(params: LinkParams, s: State)
    requires params.bitsPerSec != Some(0) && Shapes(s) && Fifo(s) && Enabled(s, Pop)
    ensures var t := Step(params, s, Pop); Shapes(t) && Fifo(t)
  {
    var head, rest := s.queue[0].bytes, Concat(s.queue[1..]);
    assert s.output + [] + (head + rest) == s.output + head + rest;
  }

  lemma MoveOver(output: Bytes, bytes: Bytes, sent: nat, k: nat)
    requires sent + k <= |bytes|
    ensures output + bytes[sent..] == output + bytes[sent..sent + k] + bytes[sent + k..]
  {
    assert bytes[sent..] == bytes[sent..sent + k] + bytes[sent + k..];
  }

  lemma WriteKeepsFifo(params: LinkParams, s: State, k: nat)
    requires params.bitsPerSec != Some(0) && Shapes(s) && Fifo(s) && Enabled(s, Write(k))
    ensures var t := Step(params, s, Write(k)); Shapes(t) && Fifo(t)
  {
    hide Concat;
    var Writing(bytes, sent) := s.writer;
    var t := Step(params, s, Write(k));
    MoveOver(s.output, bytes, sent, k);
    assert s.output + WithWriter(s.writer) == t.output + WithWriter(t.writer);
  }

  lemma ReadKeepsFifo(params: LinkParams, s: State, buf: Bytes)
    requires params.bitsPerSec != Some(0) && Shapes(s) && Fifo(s) && Enabled(s, Read(buf))
    ensures var t := Step(params, s, Read(buf)); Shapes(t) && Fifo(t)
  {
    hide Concat, WithWriter;
    assert WithReader(s.reader) == [] && WithReader(Step(params, s, Read(buf)).reader) == buf;
  }

  /** A step that moves no bytes. */
  predicate Still(e: Event) {
    !e.Push? && !e.Pop? && !e.Write? && !e.Read?
  }

  lemma StillKeepsBytes(params: LinkParams, s: State, e: Event)
    requires params.bitsPerSec != Some(0) && Shapes(s) && Still(e) && Enabled(s, e)
    ensures var t := Step(params, s, e);
      && Shapes(t) && t.input == s.input && t.output == s.output && t.queue == s.queue
      && WithReader(t.reader) == WithReader(s.reader) && WithWriter(t.writer) == WithWriter(s.writer)
  {
    hide PushChunk;
  }

  lemma StepKeepsFifo(params: LinkParams, s: State, e: Event)
    requires params.bitsPerSec != Some(0) && Shapes(s) && Fifo(s) && Enabled(s, e)
    ensures var t := Step(params, s, e); Shapes(t) && Fifo(t)
  {
    hide Step, Enabled, Concat, WithReader, WithWriter, Shapes;
    match e
    case Push => PushKeepsFifo(params, s);
    case Pop => PopKeepsFifo(params, s);
    case Write(k) => WriteKeepsFifo(params, s, k);
    case Read(buf) => ReadKeepsFifo(params, s, buf);
    case _ => StillKeepsBytes(params, s, e);
  }

  lemma PushKeepsRoom(params: LinkParams, s: State)
    requires params.bitsPerSec != Some(0) && Room(params, s) && Enabled(s, Push)
    ensures Room(params, Step(params, s, Push))
  {
    hide Serialisation;
    ConcatAppend(s.queue, Step(params, s, Push).queue[|s.queue|]);
  }

  lemma StepKeepsRoom(params: LinkParams, s: State, e: Event)
    requires params.bitsPerSec != Some(0) && Shapes(s) && Room(params, s) && Enabled(s, e)
    ensures Room(params, Step(params, s, e))
  {
    hide PushChunk;
    if e.Push? {
      PushKeepsRoom(params, s);
    }
  }

  lemma FreeAtAppend(params: LinkParams, calls: seq<Call>, c: Call)
    requires params.bitsPerSec != Some(0)
    ensures FreeAt(params, calls + [c])
      == Some((match FreeAt(params, calls) case Some(free) => Max(free, c.now) case None => c.now) + Serialisation(params, c.bytes))
  {
    hide Serialisation;
    assert (calls + [c])[..|calls|] == calls;
  }

  lemma StampIsSchedule(params: LinkParams, s: State, bytes: Bytes)
    requires params.bitsPerSec != Some(0) && s.linkFreeAt == FreeAt(params, s.calls)
    ensures var t := PushChunk(params, s, bytes);
      && t.calls == s.calls + [Call(s.now, |bytes|)] && t.linkFreeAt == FreeAt(params, t.calls)
      && t.queue == s.queue + [Chunk(DeliveryTime(params, t.calls), bytes)]
      && t == s.(calls := t.calls, linkFreeAt := t.linkFreeAt, queue := t.queue, reader := Pushed(bytes == []))
  {
    hide Serialisation, FreeAt;
    FreeAtAppend(params, s.calls, Call(s.now, |bytes|));
  }

  lemma PushKeepsTime(params: LinkParams, s: State)
    requires params.bitsPerSec != Some(0) && OnTime(params, s) && Enabled(s, Push)
    ensures OnTime(params, Step(params, s, Push))
  {
    hide PushChunk, FreeAt, DeliveryTime;
    StampIsSchedule(params, s, if s.reader.AtEof? then [] else s.reader.buf);
    var t := Step(params, s, Push);
    assert t.calls[..|t.calls|] == t.calls;
    forall n: nat | n <= |s.calls|
      ensures t.calls[..n] == s.calls[..n]
    {
    }
  }

  lemma PopKeepsTime(params: LinkParams, s: State)
    requires params.bitsPerSec != Some(0) && OnTime(params, s) && Enabled(s, Pop)
    ensures OnTime(params, Step(params, s, Pop))
  {
    hide Serialisation, DeliveryTime, FreeAt;
    var t := Step(params, s, Pop);
    forall j | 0 <= j < |t.queue|
      ensures t.queue[j].at == DeliveryTime(params, t.calls[..Popped(t) + j + 1])
      ensures |t.queue[j].bytes| == t.calls[Popped(t) + j].bytes
    {
      assert t.queue[j] == s.queue[j + 1] && Popped(t) + j == Popped(s) + (j + 1);
    }
    assert s.queue[0].at == DeliveryTime(params, s.calls[..Popped(s) + 0 + 1]);
  }

  lemma DueKeepsTime(params: LinkParams, s: State)
    requires params.bitsPerSec != Some(0) && OnTime(params, s) && Enabled(s, Due)
    ensures OnTime(params, Step(params, s, Due))
  {
    hide Serialisation, DeliveryTime, FreeAt;
    var t := Step(params, s, Due);
    assert t.calls == s.calls && t.queue == s.queue && Popped(t) == Popped(s);
  }

  lemma SameHistoryKeepsTime(params: LinkParams, s: State, t: State)
    requires params.bitsPerSec != Some(0) && OnTime(params, s)
    requires t.calls == s.calls && t.queue == s.queue && t.linkFreeAt == s.linkFreeAt && t.starts == s.starts
    requires s.now <= t.now && s.writer.Sleeping? == t.writer.Sleeping? && (s.writer.Sleeping? ==> s.writer == t.writer)
    ensures OnTime(params, t)
  {
    hide DeliveryTime, FreeAt;
  }

  lemma StepKeepsTime(params: LinkParams, s: State, e: Event)
    requires params.bitsPerSec != Some(0) && OnTime(params, s) && Enabled(s, e)
    ensures OnTime(params, Step(params, s, e))
  {
    hide OnTime, PushChunk;
    match e
    case Push => PushKeepsTime(params, s);
    case Pop => PopKeepsTime(params, s);
    case Due => DueKeepsTime(params, s);
    case _ => SameHistoryKeepsTime(params, s, Step(params, s, e));
  }

  lemma DueKeepsBegan(params: LinkParams, s: State)
    requires params.bitsPerSec != Some(0) && Shapes(s) && OnTime(params, s) && Began(s) && Enabled(s, Due)
    ensures var t := Step(params, s, Due); Shapes(t) && Began(t)
  {
    hide Serialisation, DeliveryTime, FreeAt, TotalBytes;
    var n := |s.starts|;
    assert s.calls[..n + 1] == s.calls[..n] + [s.calls[n]];
    TotalAppend(s.calls[..n], s.calls[n]);
  }

  lemma PushKeepsBegan(params: LinkParams, s: State)
    requires params.bitsPerSec != Some(0) && Shapes(s) && Began(s) && Enabled(s, Push)
    ensures var t := Step(params, s, Push); Shapes(t) && Began(t)
  {
    hide Serialisation, TotalBytes;
    assert Step(params, s, Push).calls[..|s.starts|] == s.calls[..|s.starts|];
  }

  lemma StepKeepsBegan(params: LinkParams, s: State, e: Event)
    requires params.bitsPerSec != Some(0) && Shapes(s) && OnTime(params, s) && Began(s) && Enabled(s, e)
    ensures var t := Step(params, s, e); Shapes(t) && Began(t)
  {
    hide OnTime, TotalBytes, PushChunk;
    match e
    case Push => PushKeepsBegan(params, s);
    case Due => DueKeepsBegan(params, s);
    case _ =>
      var t := Step(params, s, e);
      assert t.starts == s.starts && t.calls == s.calls;
  }

  /** Every step of either side, of the clock and of the sockets keeps the invariant. */
  lemma StepKeepsInv(params: LinkParams, s: State, e: Event)
    requires params.bitsPerSec != Some(0) && Inv(params, s) && Enabled(s, e)
    ensures Inv(params, Step(params, s, e))
  {
    StepKeepsShapes(params, s, e);
    StepKeepsMarker(params, s, e);
    StepKeepsFifo(params, s, e);
    StepKeepsRoom(params, s, e);
    StepKeepsTime(params, s, e);
    StepKeepsBegan(params, s, e);
  }

  lemma {:induction false} RunKeepsInv(params: LinkParams, s: State, events: seq<Event>)
    requires params.bitsPerSec != Some(0) && Inv(params, s) && IsRun(params, s, events)
    ensures Inv(params, Run(params, s, events))
    decreases |events|
  {
    if events != [] {
      StepKeepsInv(params, s, events[0]);
      RunKeepsInv(params, Step(params, s, events[0]), events[1..]);
    }
  }

  lemma StartInv(params: LinkParams)
    requires params.bitsPerSec != Some(0)
    ensures Inv(params, Start(params))
  {
  }

  // ---------- Safety ----------

  /** Output first: nothing is delivered that was not read. */
  lemma OutputIsPrefix(s: State)
    requires Shapes(s) && Fifo(s)
    ensures s.output <= s.input
  {
    hide Concat, WithWriter, WithReader;
    var w, q, r := WithWriter(s.writer), Concat(s.queue), WithReader(s.reader);
    assert s.output + w + q + r == s.output + (w + q + r);
  }

  /** Once the writer is done, nothing is held anywhere. */
  lemma DoneIsDelivered(s: State)
    requires Shapes(s) && MarkerInPlace(s) && Fifo(s) && Counted(s) && s.writer.WriterDone?
    ensures s.output == s.input && s.delivered == |s.input| && MarkerPushed(s.reader)
  {
    assert Concat(s.queue) == [];
  }

  lemma EndIsFree(params: LinkParams, s: State)
    requires Shapes(s) && MarkerInPlace(s) && Room(params, s) && Ended(s)
    ensures s.permits == params.queueBytes
  {
    assert Concat(s.queue) == [];
  }

  lemma InvIsSafe(params: LinkParams, s: State)
    requires params.bitsPerSec != Some(0) && Inv(params, s)
    ensures s.output <= s.input && s.delivered <= |s.output|
    ensures s.permits + |Concat(s.queue)| + WriterRoom(s.writer) + ReaderRoom(s.reader) == params.queueBytes
    ensures s.writer.WriterDone? ==> s.output == s.input && s.delivered == |s.input| && MarkerPushed(s.reader)
    ensures Ended(s) ==> s.output == s.input && s.permits == params.queueBytes
  {
    hide Shapes, MarkerInPlace, Fifo, OnTime, Began, NoLostWakeup, Concat;
    OutputIsPrefix(s);
    if s.writer.WriterDone? {
      DoneIsDelivered(s);
    }
    if Ended(s) {
      EndIsFree(params, s);
    }
  }

  /** Over every run: what was delivered is a prefix of what was read and is what was counted, the
      bytes held are bounded by the queue size, and once the writer has shut the far side down
      everything that was ever read has been delivered. */
  lemma LinkIsSafe(params: LinkParams, events: seq<Event>)
    requires Validate(params).Ok? && IsRun(params, Start(params), events)
    ensures var s := Run(params, Start(params), events);
      && Inv(params, s)
      && s.output <= s.input
      && s.delivered <= |s.output|
      && s.permits + |Concat(s.queue)| + WriterRoom(s.writer) + ReaderRoom(s.reader) == params.queueBytes
      && (s.writer.WriterDone? ==> s.output == s.input && s.delivered == |s.input| && MarkerPushed(s.reader))
      && (Ended(s) ==> s.output == s.input && s.permits == params.queueBytes)
  {
    hide Inv, Step, Run, IsRun, Concat, WriterRoom, ReaderRoom;
    StartInv(params);
    RunKeepsInv(params, Start(params), events);
    InvIsSafe(params, Run(params, Start(params), events));
  }

  /** `t` is at least the delay plus, for every chunk k, its read time and all serialisation from it on. */
  ghost predicate NotBefore(params: LinkParams, calls: seq<Call>, t: real)
    requires params.bitsPerSec != Some(0)
  {
    forall k: nat :: k < |calls| ==> BusyFrom(params, calls, k) + params.delay <= t
  }

  /** The writer begins chunk `i`, the one that holds output bytes from `TotalBytes(calls[..i])` on,
      no earlier than the closed form of the schedule says it arrives. */
  lemma NoByteIsEarly(params: LinkParams, events: seq<Event>, i: nat)
    requires Validate(params).Ok? && IsRun(params, Start(params), events)
    requires i < |Run(params, Start(params), events).starts|
    ensures var s := Run(params, Start(params), events);
      && i < |s.starts| <= |s.calls| && |s.output| <= TotalBytes(s.calls[..|s.starts|])
      && NotBefore(params, s.calls[..i + 1], s.starts[i])
  {
    hide Inv, Run, IsRun, FreeAt, BusyFrom, TotalBytes;
    StartInv(params);
    RunKeepsInv(params, Start(params), events);
    BeganOnTime(params, Run(params, Start(params), events), i);
    FreeAtClosedForm(params, Run(params, Start(params), events).calls[..i + 1]);
  }

  lemma BeganOnTime(params: LinkParams, s: State, i: nat)
    requires params.bitsPerSec != Some(0) && Inv(params, s) && i < |s.starts|
    ensures |s.starts| <= |s.calls| && |s.output| <= TotalBytes(s.calls[..|s.starts|])
    ensures FreeAt(params, s.calls[..i + 1]).Some?
    ensures FreeAt(params, s.calls[..i + 1]).value + params.delay <= s.starts[i]
  {
    hide MarkerInPlace, Fifo, Room, Counted, NoLostWakeup, Serialisation, TotalBytes;
    assert s.calls[..i + 1] != [];
  }

  // ---------- Progress ----------

  /** A step of the reader or the writer that neither the clock nor a socket has to grant. */
  predicate Internal(e: Event) {
    !e.Tick? && !e.Read? && !e.Eof? && !e.ReadFails? && !e.WriteFails?
  }

  /** The step some side can take, if neither is waiting for the clock or for the source. */
  function NextStep(s: State): Option<Event>
    requires Shapes(s)
  {
    if s.reader.AwaitRoom? && |s.reader.buf| <= s.permits then Some(Acquire)
    else if s.reader.HasRoom? || s.reader.AtEof? then Some(Push)
    else if s.reader.Pushed? then Some(Notify)
    else match s.writer
      case Popping => Some(if s.queue == [] then Await else Pop)
      case Waiting => if s.woken then Some(Wake) else None
      case Sleeping(next) => if next.at <= s.now then Some(Due) else None
      case Writing(bytes, sent) => Some(if sent < |bytes| then Write(|bytes| - sent) else Count)
      case Written(_) => Some(Release)
      case Shutting => Some(Shutdown)
      case WriterDone => None
  }

  /** No deadlock: in every reachable state that is neither failed nor ended, some side can step, or the
      writer only waits for the delivery time of the chunk it holds, or the link is empty, with all its
      room free, and waits for the source. */
  lemma NeverStuck(params: LinkParams, s: State)
    requires Validate(params).Ok? && Inv(params, s) && !s.failed && !Ended(s)
    ensures match NextStep(s)
      case Some(e) => Internal(e) && Enabled(s, e)
      case None =>
        || (s.writer.Sleeping? && s.now < s.writer.next.at)
        || (s.reader.Reading? && s.writer.Waiting? && s.queue == [] && s.output == s.input && s.permits == params.queueBytes)
  {
    hide Serialisation, DeliveryTime, FreeAt;
  }

  /** The bound of `validate` is needed: with a queue smaller than a chunk, a sender that fills the
      buffer blocks the link for good, with nothing queued and nothing to wait for but the clock. */
  lemma SmallQueueBlocks(params: LinkParams) returns (events: seq<Event>)
    requires params.bitsPerSec != Some(0) && params.queueBytes < CHUNK
    ensures IsRun(params, Start(params), events)
    ensures var s := Run(params, Start(params), events);
      !s.failed && !Ended(s) && s.output != s.input && forall e :: Enabled(s, e) ==> e.Tick?
  {
    var buf := seq(params.queueBytes + 1, i => 0 as Byte);
    events := [Read(buf), Await];
    var s := Step(params, Start(params), Read(buf));
    assert events[1..] == [Await] && events[1..][1..] == [];
    assert IsRun(params, s, [Await]) && Run(params, s, [Await]) == Step(params, s, Await) by {
      assert IsRun(params, Step(params, s, Await), []);
    }
  }

  // ---------- Liveness ----------

  function ReaderWork(r: Reader): nat {
    match r
    case AwaitRoom(buf) => |buf| + 9
    case HasRoom(buf) => |buf| + 8
    case AtEof => 8
    case Pushed(_) => 3
    case _ => 0
  }

  function WriterWork(w: Writer): nat
    requires w.Writing? ==> w.sent <= |w.bytes|
  {
    match w
    case Popping => 1
    case Waiting => 0
    case Sleeping(next) => |next.bytes| + 4
    case Writing(bytes, sent) => |bytes| - sent + 3
    case Written(_) => 2
    case Shutting => 1
    case WriterDone => 0
  }

  /** A bound on the steps both sides can still take without the source. */
  function Measure(s: State): nat
    requires Shapes(s)
  {
    ReaderWork(s.reader) + (if s.notified then 2 else 0) + (if s.woken then 2 else 0) + WriterWork(s.writer) + |Concat(s.queue)| + 4 * |s.queue|
  }

  lemma PushFinishes(params: LinkParams, s: State)
    requires params.bitsPerSec != Some(0) && Shapes(s) && Enabled(s, Push)
    ensures var t := Step(params, s, Push); Shapes(t) && Measure(t) < Measure(s)
  {
    hide Serialisation;
    ConcatAppend(s.queue, Step(params, s, Push).queue[|s.queue|]);
  }

  /** Every step of either side uses up some of that bound: no interleaving can go round in circles. */
  lemma InternalStepsFinish(params: LinkParams, s: State, e: Event)
    requires params.bitsPerSec != Some(0) && Shapes(s) && Enabled(s, e) && Internal(e)
    ensures var t := Step(params, s, e); Shapes(t) && Measure(t) < Measure(s)
  {
    hide PushChunk;
    if e.Push? {
      PushFinishes(params, s);
    }
  }

  predicate NeedsNoSource(e: Event) {
    Internal(e) || e.Tick?
  }

  /** From every reachable state, whatever the two sides were doing, the link can deliver everything it
      has read with its own steps and the passing of time alone, and if the source had ended it ends. */
  lemma Drains(params: LinkParams, s: State) returns (events: seq<Event>)
    requires Validate(params).Ok? && Inv(params, s) && !s.failed
    ensures forall e | e in events :: NeedsNoSource(e)
    ensures IsRun(params, s, events)
    ensures var t := Run(params, s, events);
      && t.output == t.input == s.input
      && (SourceEnded(s.reader) ==> Ended(t))
    decreases Measure(s)
  {
    hide Inv, Step, OnTime, Measure;
    InvShapes(params, s);
    if Ended(s) {
      InvIsSafe(params, s);
      return [];
    }
    NeverStuck(params, s);
    var next := NextStep(s);
    if next.Some? {
      events := DrainsAfter(params, s, next.value);
    } else if s.writer.Sleeping? {
      var tick := Tick(s.writer.next.at - s.now);
      StepKeepsInv(params, s, tick);
      TickOnly(params, s, s.writer.next.at - s.now);
      var t := Step(params, s, tick);
      var rest := DrainsAfter(params, t, Due);
      events := [tick] + rest;
    } else {
      events := [];
    }
  }

  lemma TickOnly(params: LinkParams, s: State, d: Duration)
    requires params.bitsPerSec != Some(0) && Shapes(s) && Enabled(s, Tick(d))
    ensures var t := Step(params, s, Tick(d)); t == s.(now := s.now + d) && Shapes(t) && Measure(t) == Measure(s)
  {
  }

  lemma DrainsAfter(params: LinkParams, s: State, e: Event) returns (events: seq<Event>)
    requires Validate(params).Ok? && Inv(params, s) && Enabled(s, e) && Internal(e)
    ensures forall e | e in events :: NeedsNoSource(e)
    ensures IsRun(params, s, events)
    ensures var t := Run(params, s, events);
      && t.output == t.input == s.input
      && (SourceEnded(s.reader) ==> Ended(t))
    decreases Measure(s), 0
  {
    var t := Step(params, s, e);
    StepKeepsInv(params, s, e);
    InternalStepsFinish(params, s, e);
    InternalKeepsInput(params, s, e);
    var rest := Drains(params, t);
    events := [e] + rest;
  }

  lemma InternalKeepsInput(params: LinkParams, s: State, e: Event)
    requires params.bitsPerSec != Some(0) && Shapes(s) && Enabled(s, e) && Internal(e)
    ensures var t := Step(params, s, e);
      && t.input == s.input && !t.failed
      && (SourceEnded(s.reader) ==> SourceEnded(t.reader))
  {
  }

  function InternalCount(events: seq<Event>): nat {
    if events == [] then 0 else (if Internal(events[0]) then 1 else 0) + InternalCount(events[1..])
  }

  /** Without input from the source, every run has at most `Measure` steps besides the clock's. */
  lemma {:induction false} NoLivelock(params: LinkParams, s: State, events: seq<Event>)
    requires params.bitsPerSec != Some(0) && Shapes(s) && IsRun(params, s, events)
    requires forall e | e in events :: NeedsNoSource(e)
    ensures var t := Run(params, s, events); Shapes(t) && InternalCount(events) + Measure(t) <= Measure(s)
    decreases |events|
  {
    if events != [] {
      var e := events[0];
      if Internal(e) {
        InternalStepsFinish(params, s, e);
      } else {
        assert e in events && e.Tick?;
      }
      NoLivelock(params, Step(params, s, e), events[1..]);
    }
  }

  /** Neither side can step, and the clock has passed the stamp of the chunk the writer holds, if any. */
  ghost predicate Quiet(s: State) {
    && (forall e :: Internal(e) ==> !Enabled(s, e))
    && (s.writer.Sleeping? ==> s.writer.next.at <= s.now)
  }

  /** Quiet means done: everything read has been delivered, and the link has ended if its source had. */
  lemma QuietIsDrained(params: LinkParams, s: State)
    requires Validate(params).Ok? && Inv(params, s) && !s.failed && Quiet(s)
    ensures s.output == s.input && (SourceEnded(s.reader) ==> Ended(s))
  {
    hide OnTime, Began, Room, Step;
    if !Ended(s) {
      NeverStuck(params, s);
    }
  }

  lemma {:induction false} WithoutSource(params: LinkParams, s: State, events: seq<Event>)
    requires params.bitsPerSec != Some(0) && Inv(params, s) && !s.failed && IsRun(params, s, events)
    requires forall i | 0 <= i < |events| :: NeedsNoSource(events[i])
    ensures var t := Run(params, s, events);
      && Inv(params, t) && t.input == s.input && !t.failed
      && (SourceEnded(s.reader) ==> SourceEnded(t.reader))
      && InternalCount(events) + Measure(t) <= Measure(s)
    decreases |events|
  {
    hide Inv, Enabled, Measure;
    InvShapes(params, s);
    if events != [] {
      var e := events[0];
      assert NeedsNoSource(e);
      StepKeepsInv(params, s, e);
      SourceFreeStep(params, s, e);
      assert forall i | 0 <= i < |events[1..]| :: NeedsNoSource(events[1..][i]);
      WithoutSource(params, Step(params, s, e), events[1..]);
    }
  }

  lemma InvShapes(params: LinkParams, s: State)
    requires params.bitsPerSec != Some(0) && Inv(params, s)
    ensures Shapes(s)
  {
  }

  lemma SourceFreeStep(params: LinkParams, s: State, e: Event)
    requires params.bitsPerSec != Some(0) && Shapes(s) && !s.failed && Enabled(s, e) && NeedsNoSource(e)
    ensures var t := Step(params, s, e);
      && t.input == s.input && !t.failed && Shapes(t)
      && (SourceEnded(s.reader) ==> SourceEnded(t.reader))
      && Measure(t) + (if Internal(e) then 1 else 0) <= Measure(s)
  {
    if Internal(e) {
      InternalStepsFinish(params, s, e);
      InternalKeepsInput(params, s, e);
    }
  }

  /** Every schedule drains: over any run of steps of the two sides and of the clock, from any reachable
      state, both sides take no more than a bounded number of steps, and once the link is quiet everything
      read has been delivered and the link has ended if its source had. */
  lemma EveryScheduleDrains(params: LinkParams, s: State, events: seq<Event>)
    requires Validate(params).Ok? && Inv(params, s) && !s.failed && IsRun(params, s, events)
    requires forall i | 0 <= i < |events| :: NeedsNoSource(events[i])
    ensures InternalCount(events) <= Measure(s)
    ensures var t := Run(params, s, events);
      Quiet(t) ==> t.output == s.input && (SourceEnded(s.reader) ==> Ended(t))
  {
    hide Inv, Quiet, Run, IsRun, Measure;
    InvShapes(params, s);
    WithoutSource(params, s, events);
    var t := Run(params, s, events);
    InvShapes(params, t);
    if Quiet(t) {
      QuietIsDrained(params, t);
    }
  }

  // ---------- Runs put together ----------

  lemma {:induction false} RunAppend(params: LinkParams, s: State, events: seq<Event>, e: Event)
    requires params.bitsPerSec != Some(0) && IsRun(params, s, events) && Enabled(Run(params, s, events), e)
    ensures IsRun(params, s, events + [e])
    ensures Run(params, s, events + [e]) == Step(params, Run(params, s, events), e)
    decreases |events|
  {
    hide Enabled, Step;
    if events == [] {
      assert [] + [e] == [e] && [e][1..] == [];
      assert IsRun(params, Step(params, s, e), [e][1..]);
    } else {
      assert (events + [e])[1..] == events[1..] + [e];
      RunAppend(params, Step(params, s, events[0]), events[1..], e);
    }
  }
}
