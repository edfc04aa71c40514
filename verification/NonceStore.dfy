/** The store of signed nonces over its file, and every run of a notary that restarts, crashes and
    loses power around it. */
module NonceStore {
  import opened Wrappers
  import opened Bytes
  import opened NonceFile

  /** The file as later reads see it, how much of it has reached the disk for certain, and the nonces whose
      own lines were confirmed, in order. */
  datatype Disk = Disk(text: Bytes, durable: nat, confirmed: seq<Nonce>)

  /** How an append ends: after some part of the line, before the disk confirms it, or in full. */
  datatype Io = WriteFails(written: nat) | SyncFails | Synced

  datatype RecordError = AlreadySigned | AppendFails

  datatype Outcome = Outcome(disk: Disk, seen: set<Nonce>, result: Result<(), RecordError>)

  /** `record`: append the line, have the disk confirm it, and only then remember the nonce. */
  function Recording(disk: Disk, seen: set<Nonce>, eta: Nonce, io: Io): Outcome {
    var line := RecordLine(eta);
    if eta in seen then Outcome(disk, seen, Err(AlreadySigned))
    else match io
      case WriteFails(k) =>
        Outcome(disk.(text := disk.text + (if k <= |line| then line[..k] else line)), seen, Err(AppendFails))
      case SyncFails => Outcome(disk.(text := disk.text + line), seen, Err(AppendFails))
      case Synced =>
        var text := disk.text + line;
        Outcome(Disk(text, |text|, disk.confirmed + [eta]), seen + {eta}, Ok(()))
  }

  /** A nonce is recorded exactly if it is new and its line reaches the disk. */
  lemma RecordedIff(disk: Disk, seen: set<Nonce>, eta: Nonce, io: Io)
    ensures Recording(disk, seen, eta, io).result.Ok? <==> eta !in seen && io.Synced?
  {
  }

  /** A nonce that is known changes nothing. Otherwise the file grows by the line, or by a part of it if the
      write fails; only with the line confirmed is the nonce remembered and everything up to it durable. */
  lemma RecordingIs(disk: Disk, seen: set<Nonce>, eta: Nonce, io: Io)
    ensures var o := Recording(disk, seen, eta, io);
      && (eta in seen ==> o == Outcome(disk, seen, Err(AlreadySigned)))
      && (eta !in seen ==>
            && disk.text <= o.disk.text && o.disk.text[|disk.text|..] <= RecordLine(eta)
            && (!io.WriteFails? ==> o.disk.text == disk.text + RecordLine(eta)))
      && (eta !in seen && !io.Synced? ==>
            o.result == Err(AppendFails) && o.seen == seen && o.disk.durable == disk.durable && o.disk.confirmed == disk.confirmed)
      && (eta !in seen && io.Synced? ==>
            o.result == Ok(()) && o.seen == seen + {eta} && o.disk.durable == |o.disk.text| && o.disk.confirmed == disk.confirmed + [eta])
  {
  }

  /** What loading gives when `seen` was loaded before. */
  function With(seen: set<Nonce>, rest: Result<set<Nonce>, OpenError>): (r: Result<set<Nonce>, OpenError>)
    ensures seen == {} ==> r == rest
    ensures rest == Ok({}) ==> r == Ok(seen)
  {
    match rest
    case Ok(more) =>
      assert seen == {} ==> seen + more == more;
      assert more == {} ==> seen + more == seen;
      Ok(seen + more)
    case Err(e) => Err(e)
  }

  lemma LoadNext(lines: seq<Bytes>, i: nat, seen: set<Nonce>)
    requires i < |lines|
    ensures With(seen, LoadLines(lines[i..], i + 1)) == match ParseLine(lines[i])
      case None => Err(MalformedLine(i + 1))
      case Some(eta) => With(seen + {eta}, LoadLines(lines[i + 1..], i + 2))
  {
    hide ParseLine;
    assert lines[i..][0] == lines[i] && lines[i..][1..] == lines[i + 1..];
    var rest := LoadLines(lines[i + 1..], i + 2);
    if ParseLine(lines[i]).Some? && rest.Ok? {
      var eta := ParseLine(lines[i]).value;
      assert seen + ({eta} + rest.value) == seen + {eta} + rest.value;
    }
  }

  lemma LoadNone(number: nat)
    ensures LoadLines([], number) == Ok({})
  {
  }

  class File {
    var disk: Disk

    constructor (disk: Disk)
      ensures this.disk == disk
    {
      this.disk := disk;
    }
  }

  class Store {
    const file: File
    var seen: set<Nonce>

    constructor (file: File, seen: set<Nonce>)
      ensures this.file == file && this.seen == seen
    {
      this.file := file;
      this.seen := seen;
    }

    /** Reads the file line by line; the first malformed line is an error. */
    static method Open(file: File) returns (r: Result<Store, OpenError>)
      ensures r.Ok? <==> Load(file.disk.text).Ok?
      ensures r.Ok? ==> fresh(r.value) && r.value.file == file && r.value.seen == Load(file.disk.text).value
      ensures r.Err? ==> r.error == Load(file.disk.text).error
    {
      hide ParseLine, LoadLines;
      var seen: set<Nonce> := {};
      var lines := Lines(file.disk.text);
      var i := 0;
      assert lines[0..] == lines;
      while i < |lines|
        invariant i <= |lines|
        invariant LoadLines(lines, 1) == With(seen, LoadLines(lines[i..], i + 1))
      {
        LoadNext(lines, i, seen);
        match ParseLine(lines[i]) {
          case None =>
            return Err(MalformedLine(i + 1));
          case Some(eta) =>
            seen := seen + {eta};
        }
        i := i + 1;
      }
      LoadNone(i + 1);
      assert lines[i..] == [];
      var store := new Store(file, seen);
      r := Ok(store);
    }

    /** The append of one nonce on the file and in memory; it must succeed before the key is used. */
    method Record(eta: Nonce, io: Io) returns (r: Result<(), RecordError>)
      modifies this, file
      ensures Recording(old(file.disk), old(seen), eta, io) == Outcome(file.disk, seen, r)
    {
      if eta in seen {
        return Err(AlreadySigned);
      }
      var line := RecordLine(eta);
      match io {
        case WriteFails(k) =>
          file.disk := file.disk.(text := file.disk.text + (if k <= |line| then line[..k] else line));
          return Err(AppendFails);
        case SyncFails =>
          file.disk := file.disk.(text := file.disk.text + line);
          return Err(AppendFails);
        case Synced =>
          file.disk := Disk(file.disk.text + line, |file.disk.text + line|, file.disk.confirmed + [eta]);
      }
      seen := seen + {eta};
      r := Ok(());
    }
  }

  // ---------- Runs ----------

  datatype Process = Down | Up(seen: set<Nonce>)

  /** `signed` is the history of nonces a signature was issued for, over all restarts. */
  datatype Machine = Machine(disk: Disk, process: Process, signed: seq<Nonce>)

  datatype Event =
    | Open
    /** A request that passed every check: the nonce is recorded, then the key signs (or fails to). */
    | Sign(eta: Nonce, io: Io, keySigns: bool)
    | Exit
    /** Only what the disk confirmed is sure to survive; any bytes may follow it. */
    | PowerLoss(tail: Bytes)
    /** The worst a power loss can do: of everything ever written only the confirmed lines themselves
        survive, in order, with any bytes before, between and behind them. */
    | Wreckage(gaps: seq<Bytes>)

  function Next(m: Machine, e: Event): Machine {
    match e
    case Open =>
      (match (m.process, Load(m.disk.text))
       case (Down, Ok(seen)) => m.(process := Up(seen))
       case _ => m)
    case Sign(eta, io, keySigns) =>
      (match m.process
       case Down => m
       case Up(seen) =>
         var r := Recording(m.disk, seen, eta, io);
         Machine(r.disk, Up(r.seen), if r.result.Ok? && keySigns then m.signed + [eta] else m.signed))
    case Exit => m.(process := Down)
    case PowerLoss(tail) =>
      if m.disk.durable <= |m.disk.text| then
        var text := m.disk.text[..m.disk.durable] + tail;
        Machine(Disk(text, |text|, m.disk.confirmed), Down, m.signed)
      else m
    case Wreckage(gaps) =>
      if |gaps| == |m.disk.confirmed| + 1 then
        var text := Interleaved(m.disk.confirmed, gaps);
        Machine(Disk(text, |text|, m.disk.confirmed), Down, m.signed)
      else m
  }

  /** The lines of `etas`, with `gaps` around them. */
  function Interleaved(etas: seq<Nonce>, gaps: seq<Bytes>): Bytes
    requires |gaps| == |etas| + 1
  {
    if etas == [] then gaps[0] else gaps[0] + (RecordLine(etas[0]) + Interleaved(etas[1..], gaps[1..]))
  }

  function Run(m: Machine, events: seq<Event>): Machine
    decreases |events|
  {
    if events == [] then m else Run(Next(m, events[0]), events[1..])
  }

  const FIRST_START := Machine(Disk([], 0, []), Down, [])

  ghost predicate Distinct<T(!new)>(s: seq<T>) {
    forall i, j :: 0 <= i < j < |s| ==> s[i] != s[j]
  }

  /** Confirmed lines are in the durable part of the file; every signed nonce has one, and a running notary
      knows it. */
  ghost predicate Inv(m: Machine) {
    && m.disk.durable <= |m.disk.text|
    && (forall eta | eta in m.disk.confirmed :: Recorded(m.disk.text[..m.disk.durable], eta))
    && (forall eta | eta in m.signed :: eta in m.disk.confirmed)
    && (m.process.Up? ==> forall eta | eta in m.signed :: eta in m.process.seen)
    && Distinct(m.signed)
  }

  lemma RecordedInPrefix(text: Bytes, n: nat, eta: Nonce)
    requires n <= |text| && Recorded(text[..n], eta)
    ensures Recorded(text, eta)
  {
    RecordedStays(text[..n], eta, text[n..]);
    assert text == text[..n] + text[n..];
  }

  lemma OpenKeepsInv(m: Machine)
    requires Inv(m)
    ensures Inv(Next(m, Open))
  {
    var loaded := Load(m.disk.text);
    if m.process.Down? && loaded.Ok? {
      forall eta | eta in m.signed
        ensures eta in loaded.value
      {
        RecordedInPrefix(m.disk.text, m.disk.durable, eta);
        RecordedIsLoaded(m.disk.text, eta);
      }
    }
  }

  lemma SignKeepsInv(m: Machine, eta: Nonce, io: Io, keySigns: bool)
    requires Inv(m)
    ensures Inv(Next(m, Sign(eta, io, keySigns)))
  {
    var t := Next(m, Sign(eta, io, keySigns));
    if m.process.Up? && eta !in m.process.seen {
      if io.Synced? {
        assert t.disk.text[..t.disk.durable] == m.disk.text + RecordLine(eta);
        forall other | other in m.disk.confirmed
          ensures Recorded(t.disk.text[..t.disk.durable], other)
        {
          RecordedInPrefix(m.disk.text, m.disk.durable, other);
          RecordedStays(m.disk.text, other, RecordLine(eta));
        }
        assert m.disk.text + RecordLine(eta) == m.disk.text + RecordLine(eta) + [];
      } else {
        assert t.disk.text[..t.disk.durable] == m.disk.text[..m.disk.durable];
      }
    }
  }

  lemma PowerLossKeepsInv(m: Machine, tail: Bytes)
    requires Inv(m)
    ensures Inv(Next(m, PowerLoss(tail)))
  {
    var kept := m.disk.text[..m.disk.durable];
    forall eta | eta in m.disk.confirmed
      ensures Recorded(kept + tail, eta)
    {
      RecordedStays(kept, eta, tail);
    }
    assert (kept + tail)[..|kept + tail|] == kept + tail;
  }

  lemma RecordedAhead(ahead: Bytes, text: Bytes, eta: Nonce)
    requires Recorded(text, eta)
    ensures Recorded(ahead + text, eta)
  {
    var before: Bytes, after: Bytes :| text == before + RecordLine(eta) + after;
    assert ahead + text == (ahead + before) + RecordLine(eta) + after;
  }

  lemma FirstIsRecorded(gap: Bytes, eta: Nonce, rest: Bytes)
    ensures Recorded(gap + (RecordLine(eta) + rest), eta)
  {
    assert gap + (RecordLine(eta) + rest) == gap + RecordLine(eta) + rest;
  }

  /** A line is recorded whatever surrounds it. */
  lemma {:induction false} InterleavedRecords(etas: seq<Nonce>, gaps: seq<Bytes>, i: nat)
    requires |gaps| == |etas| + 1 && i < |etas|
    ensures Recorded(Interleaved(etas, gaps), etas[i])
  {
    hide Recorded;
    var rest := Interleaved(etas[1..], gaps[1..]);
    if i == 0 {
      FirstIsRecorded(gaps[0], etas[0], rest);
    } else {
      InterleavedRecords(etas[1..], gaps[1..], i - 1);
      RecordedAhead(RecordLine(etas[0]), rest, etas[i]);
      RecordedAhead(gaps[0], RecordLine(etas[0]) + rest, etas[i]);
    }
  }

  lemma WreckageKeepsInv(m: Machine, gaps: seq<Bytes>)
    requires Inv(m)
    ensures Inv(Next(m, Wreckage(gaps)))
  {
    hide Interleaved, Recorded;
    if |gaps| == |m.disk.confirmed| + 1 {
      var text := Interleaved(m.disk.confirmed, gaps);
      assert text[..|text|] == text;
      forall eta | eta in m.disk.confirmed
        ensures Recorded(text, eta)
      {
        var i :| 0 <= i < |m.disk.confirmed| && m.disk.confirmed[i] == eta;
        InterleavedRecords(m.disk.confirmed, gaps, i);
      }
    }
  }

  /** Every event keeps the invariant. */
  lemma NextKeepsInv(m: Machine, e: Event)
    requires Inv(m)
    ensures Inv(Next(m, e))
  {
    match e
    case Open => OpenKeepsInv(m);
    case Sign(eta, io, keySigns) => SignKeepsInv(m, eta, io, keySigns);
    case Exit =>
    case PowerLoss(tail) => PowerLossKeepsInv(m, tail);
    case Wreckage(gaps) => WreckageKeepsInv(m, gaps);
  }

  lemma {:induction false} RunKeepsInv(m: Machine, events: seq<Event>)
    requires Inv(m)
    ensures Inv(Run(m, events))
    decreases |events|
  {
    if events != [] {
      hide Next, Inv;
      NextKeepsInv(m, events[0]);
      RunKeepsInv(Next(m, events[0]), events[1..]);
    }
  }

  /** At most one signature per nonce, over every run of starts, requests, partial and unconfirmed writes,
      exits and power losses, wreckage included; and a notary that starts again knows every nonce ever
      signed. */
  lemma OneSignaturePerNonce(events: seq<Event>)
    ensures var m := Run(FIRST_START, events);
      && Distinct(m.signed)
      && m.disk.durable <= |m.disk.text|
      && (forall eta | eta in m.signed :: Recorded(m.disk.text[..m.disk.durable], eta))
      && (Load(m.disk.text).Ok? ==> forall eta | eta in m.signed :: eta in Load(m.disk.text).value)
  {
    RunKeepsInv(FIRST_START, events);
    RestartKnows(Run(FIRST_START, events));
  }

  /** If the file opens, every signed nonce is loaded. */
  lemma RestartKnows(m: Machine)
    requires Inv(m)
    ensures Load(m.disk.text).Ok? ==> forall eta | eta in m.signed :: eta in Load(m.disk.text).value
  {
    OpenKeepsInv(m.(process := Down));
  }

  /** Unsigned nonces are not lost needlessly: without failures a restart knows exactly what was signed,
      and refuses exactly that. */
  lemma RestartKnowsTheLog(etas: seq<Nonce>)
    ensures Load(Log(etas)) == Ok(set eta | eta in etas)
  {
    LogReadsBack(etas, 1);
  }

  /** No continuation of `text` can be opened. */
  ghost predicate Unreadable(text: Bytes) {
    forall after: Bytes :: Load(text + after).Err?
  }

  /** No event loses bytes that were durable. */
  predicate KeepsDurable(events: seq<Event>) {
    forall i | 0 <= i < |events| :: !events[i].Wreckage?
  }

  ghost predicate Refused(m: Machine) {
    m.disk.durable <= |m.disk.text| && Unreadable(m.disk.text[..m.disk.durable])
  }

  lemma UnreadableStays(text: Bytes, more: Bytes)
    requires Unreadable(text)
    ensures Unreadable(text + more)
  {
    hide Load;
    forall after: Bytes
      ensures Load(text + more + after).Err?
    {
      Regroup(text, more, after);
      assert Load(text + (more + after)).Err?;
    }
  }

  lemma PrefixUnreadable(text: Bytes, kept: Bytes)
    requires Unreadable(kept) && kept <= text
    ensures Unreadable(text)
  {
    hide Load, Unreadable;
    UnreadableStays(kept, text[|kept|..]);
    assert text == kept + text[|kept|..];
  }

  lemma SignStaysRefused(m: Machine, eta: Nonce, io: Io, keySigns: bool)
    requires Refused(m)
    ensures Refused(Next(m, Sign(eta, io, keySigns)))
  {
    hide Load, Unreadable, RecordLine;
    var t := Next(m, Sign(eta, io, keySigns));
    var kept := m.disk.text[..m.disk.durable];
    assert m.disk.text <= t.disk.text;
    if t.disk.durable == m.disk.durable {
      assert t.disk.text[..t.disk.durable] == kept;
    } else {
      assert t.disk.text[..t.disk.durable] == t.disk.text;
      PrefixUnreadable(t.disk.text, kept);
    }
  }

  lemma NextStaysRefused(m: Machine, e: Event)
    requires Refused(m) && !e.Wreckage?
    ensures Refused(Next(m, e))
  {
    hide Load, Unreadable, Recording;
    var t := Next(m, e);
    match e
    case Sign(eta, io, keySigns) => SignStaysRefused(m, eta, io, keySigns);
    case PowerLoss(tail) =>
      UnreadableStays(m.disk.text[..m.disk.durable], tail);
      assert t.disk.text[..t.disk.durable] == m.disk.text[..m.disk.durable] + tail;
    case _ =>
  }

  lemma {:induction false} RunStaysRefused(m: Machine, events: seq<Event>)
    requires Refused(m) && KeepsDurable(events)
    ensures Refused(Run(m, events)) && Load(Run(m, events).disk.text).Err?
    decreases |events|
  {
    if events == [] {
      var d := m.disk.durable;
      assert m.disk.text == m.disk.text[..d] + m.disk.text[d..];
    } else {
      assert !events[0].Wreckage?;
      NextStaysRefused(m, events[0]);
      RunStaysRefused(Next(m, events[0]), events[1..]);
    }
  }

  /** A write that stops inside a line costs no second signature but the file: once a later nonce is
      recorded behind it, no later run of events that keeps what was durable ever opens the file again. */
  lemma TornWriteEndsRestarts(m: Machine, torn: Nonce, k: nat, eta: Nonce, signs: bool, events: seq<Event>)
    requires m.process.Up? && torn !in m.process.seen && eta !in m.process.seen && 0 < k <= 64
    requires KeepsDurable(events)
    ensures var t := Run(Next(Next(m, Sign(torn, WriteFails(k), signs)), Sign(eta, Synced, signs)), events);
      Load(t.disk.text).Err?
  {
    var t := Next(Next(m, Sign(torn, WriteFails(k), signs)), Sign(eta, Synced, signs));
    assert t.disk.text[..t.disk.durable] == m.disk.text + RecordLine(torn)[..k] + RecordLine(eta);
    forall after: Bytes
      ensures Load(m.disk.text + RecordLine(torn)[..k] + RecordLine(eta) + after).Err?
    {
      TornLineStays(m.disk.text, torn, k, eta, after);
    }
    RunStaysRefused(t, events);
  }

  function Nothing(n: nat): (gaps: seq<Bytes>)
    ensures |gaps| == n && forall i | 0 <= i < n :: gaps[i] == []
  {
    seq(n, i => [])
  }

  lemma {:induction false} NothingBetween(etas: seq<Nonce>, gaps: seq<Bytes>)
    requires |gaps| == |etas| + 1 && forall i | 0 <= i < |gaps| :: gaps[i] == []
    ensures Interleaved(etas, gaps) == Log(etas)
  {
    hide RecordLine;
    if etas != [] {
      NothingBetween(etas[1..], gaps[1..]);
      NothingAhead(RecordLine(etas[0]) + Log(etas[1..]));
    }
  }

  /** Only wreckage can undo that: where it leaves nothing but the confirmed lines, the file opens again, as
      exactly their nonces. */
  lemma WreckageCanReopen(m: Machine)
    ensures Load(Next(m, Wreckage(Nothing(|m.disk.confirmed| + 1))).disk.text) == Ok(set eta | eta in m.disk.confirmed)
  {
    hide Load, Interleaved;
    NothingBetween(m.disk.confirmed, Nothing(|m.disk.confirmed| + 1));
    RestartKnowsTheLog(m.disk.confirmed);
  }
}
