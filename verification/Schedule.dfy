/** Delivery schedule of one direction of the emulated link. Times are exact reals, in seconds. */
module Schedule {
  import opened Wrappers

  type Duration = d: real | 0.0 <= d

  datatype LinkParams = LinkParams(delay: Duration, bitsPerSec: Option<nat>, queueBytes: nat)

  /** Largest chunk read at once. */
  const CHUNK: nat := 16 * 1024
  const GIB: nat := 0x4000_0000

  datatype LinkError = ZeroBandwidth | QueueSize

  function Validate(params: LinkParams): Result<(), LinkError> {
    if params.bitsPerSec == Some(0) then Err(ZeroBandwidth)
    else if !(CHUNK <= params.queueBytes <= GIB) then Err(QueueSize)
    else Ok(())
  }

  /** Time to put `bytes` on the link. */
  function Serialisation(params: LinkParams, bytes: nat): (d: Duration)
    requires params.bitsPerSec != Some(0)
  {
    match params.bitsPerSec
    case Some(bps) => bytes as real * 8.0 / bps as real
    case None => 0.0
  }

  /** A chunk holds the link for eight bits a byte at the link's rate, or not at all without a limit. */
  lemma BitsOnTheLink(params: LinkParams, bytes: nat)
    requires params.bitsPerSec != Some(0)
    ensures match params.bitsPerSec
      case Some(bps) => Serialisation(params, bytes) * bps as real == (8 * bytes) as real
      case None => Serialisation(params, bytes) == 0.0
  {
    if params.bitsPerSec.Some? {
      DivCancels(bytes as real * 8.0, params.bitsPerSec.value as real);
    }
  }

  lemma DivCancels(a: real, c: real)
    requires c != 0.0
    ensures a / c * c == a
  {
  }

  /** A link is refused for no bandwidth at all, or for a queue outside 16 KiB to 1 GiB. */
  lemma ValidLinks(params: LinkParams)
    ensures Validate(params) == Err(ZeroBandwidth) <==> params.bitsPerSec == Some(0)
    ensures Validate(params).Ok? <==> params.bitsPerSec != Some(0) && 16384 <= params.queueBytes <= 1073741824
  {
  }

  /** One call of `deliver_at`: when the chunk was read, and its size. */
  datatype Call = Call(now: real, bytes: nat)

  function Max(a: real, b: real): real {
    if a < b then b else a
  }

  /** When the link finishes serialising what it was given. */
  function FreeAt(params: LinkParams, calls: seq<Call>): Option<real>
    requires params.bitsPerSec != Some(0)
  {
    if calls == [] then None
    else
      var c := calls[|calls| - 1];
      var start := match FreeAt(params, calls[..|calls| - 1])
                   case Some(free) => Max(free, c.now)
                   case None => c.now;
      Some(start + Serialisation(params, c.bytes))
  }

  /** Delivery time of the last chunk of a non-empty history. */
  function DeliveryTime(params: LinkParams, calls: seq<Call>): real
    requires params.bitsPerSec != Some(0) && calls != []
  {
    FreeAt(params, calls).value + params.delay
  }

  /** Total serialisation time of `calls`. */
  function Work(params: LinkParams, calls: seq<Call>): (d: Duration)
    requires params.bitsPerSec != Some(0)
  {
    if calls == [] then 0.0 else Serialisation(params, calls[0].bytes) + Work(params, calls[1..])
  }

  /** When the last chunk would leave if the link were idle when chunk `k` was read. */
  function BusyFrom(params: LinkParams, calls: seq<Call>, k: nat): real
    requires params.bitsPerSec != Some(0) && k < |calls|
  {
    calls[k].now + Work(params, calls[k..])
  }

  /** `t` is the largest of the times `BusyFrom(k)`. */
  ghost predicate IsLatestBusy(params: LinkParams, calls: seq<Call>, t: real)
    requires params.bitsPerSec != Some(0)
  {
    && (forall k: nat :: k < |calls| ==> BusyFrom(params, calls, k) <= t)
    && (exists k: nat :: k < |calls| && BusyFrom(params, calls, k) == t)
  }

  lemma {:induction false} WorkAppend(params: LinkParams, calls: seq<Call>, c: Call)
    requires params.bitsPerSec != Some(0)
    ensures Work(params, calls + [c]) == Work(params, calls) + Serialisation(params, c.bytes)
  {
    if calls == [] {
      assert calls + [c] == [c];
    } else {
      WorkAppend(params, calls[1..], c);
      assert (calls + [c])[1..] == calls[1..] + [c];
    }
  }

  lemma BusyFromAppend(params: LinkParams, calls: seq<Call>, c: Call, k: nat)
    requires params.bitsPerSec != Some(0) && k < |calls|
    ensures BusyFrom(params, calls + [c], k) == BusyFrom(params, calls, k) + Serialisation(params, c.bytes)
  {
    assert (calls + [c])[k..] == calls[k..] + [c];
    WorkAppend(params, calls[k..], c);
  }

  /** Closed form: the link is free at the latest, over all chunks k, of the read time of k plus the
      serialisation times of k and everything after it. */
  lemma {:induction false} FreeAtClosedForm(params: LinkParams, calls: seq<Call>)
    requires params.bitsPerSec != Some(0) && calls != []
    ensures IsLatestBusy(params, calls, FreeAt(params, calls).value)
  {
    var n := |calls| - 1;
    var before, c := calls[..n], calls[n];
    assert calls == before + [c] && calls[n..] == [c] && [c][1..] == [];
    assert Work(params, [c]) == Serialisation(params, c.bytes) + Work(params, [c][1..]);
    assert BusyFrom(params, calls, n) == c.now + Serialisation(params, c.bytes);
    var t := FreeAt(params, calls).value;
    if before != [] {
      FreeAtClosedForm(params, before);
      forall k: nat | k < |calls|
        ensures BusyFrom(params, calls, k) <= t
      {
        if k < n {
          BusyFromAppend(params, before, c, k);
        }
      }
      var k: nat :| k < n && BusyFrom(params, before, k) == FreeAt(params, before).value;
      BusyFromAppend(params, before, c, k);
      assert BusyFrom(params, calls, k) == t || BusyFrom(params, calls, n) == t;
    }
  }

  /** Chunk `i` occupies the link from `SendStart` to `FreeAt`. */
  function SendStart(params: LinkParams, calls: seq<Call>): real
    requires params.bitsPerSec != Some(0) && calls != []
  {
    FreeAt(params, calls).value - Serialisation(params, calls[|calls| - 1].bytes)
  }

  /** Chunks leave in order, one at a time and none before it was read; they arrive in order. */
  lemma {:induction false} TransmissionsDoNotOverlap(params: LinkParams, calls: seq<Call>, i: nat, j: nat)
    requires params.bitsPerSec != Some(0) && i < j < |calls|
    ensures FreeAt(params, calls[..i + 1]).value <= SendStart(params, calls[..j + 1])
    ensures calls[j].now <= SendStart(params, calls[..j + 1])
    ensures DeliveryTime(params, calls[..i + 1]) <= DeliveryTime(params, calls[..j + 1])
    decreases j
  {
    assert calls[..j + 1][..j] == calls[..j];
    if i + 1 < j {
      TransmissionsDoNotOverlap(params, calls, i, j - 1);
    }
  }

  function TotalBytes(calls: seq<Call>): nat {
    if calls == [] then 0 else calls[0].bytes + TotalBytes(calls[1..])
  }

  lemma {:induction false} WorkIsTotal(params: LinkParams, calls: seq<Call>)
    requires params.bitsPerSec != Some(0)
    ensures Work(params, calls) == Serialisation(params, TotalBytes(calls))
  {
    if calls != [] {
      WorkIsTotal(params, calls[1..]);
      if params.bitsPerSec.Some? {
        DivAdds(calls[0].bytes as real * 8.0, TotalBytes(calls[1..]) as real * 8.0, params.bitsPerSec.value as real);
      }
    }
  }

  lemma DivAdds(a: real, b: real, c: real)
    requires c != 0.0
    ensures (a + b) / c == a / c + b / c
  {
  }

  /** A bulk transfer, read all at once, arrives after its total size over the bandwidth plus the delay. */
  lemma BulkTransfer(params: LinkParams, calls: seq<Call>, start: real)
    requires params.bitsPerSec != Some(0) && calls != []
    requires forall c | c in calls :: c.now == start
    ensures DeliveryTime(params, calls) == start + Serialisation(params, TotalBytes(calls)) + params.delay
  {
    FreeAtClosedForm(params, calls);
    WorkIsTotal(params, calls);
    assert calls[0..] == calls && BusyFrom(params, calls, 0) == start + Work(params, calls);
    forall k: nat | k < |calls|
      ensures BusyFrom(params, calls, k) <= start + Work(params, calls)
    {
      assert calls[k] in calls;
      WorkOfSuffix(params, calls, k);
    }
  }

  lemma {:induction false} WorkOfSuffix(params: LinkParams, calls: seq<Call>, k: nat)
    requires params.bitsPerSec != Some(0) && k <= |calls|
    ensures Work(params, calls[k..]) <= Work(params, calls)
  {
    if k == 0 {
      assert calls[0..] == calls;
    } else {
      assert calls[k..] == calls[1..][k - 1..];
      WorkOfSuffix(params, calls[1..], k - 1);
    }
  }

  class Schedule {
    const params: LinkParams
    /** The end of the last transmission so far. */
    var linkFreeAt: Option<real>
    ghost var calls: seq<Call>

    ghost predicate Valid()
      reads this
    {
      params.bitsPerSec != Some(0) && linkFreeAt == FreeAt(params, calls)
    }

    constructor (params: LinkParams)
      requires params.bitsPerSec != Some(0)
      ensures Valid() && this.params == params && calls == []
    {
      this.params := params;
      linkFreeAt := None;
      calls := [];
    }

    /** Delivery time of a chunk of `bytes` read at `now`. */
    method DeliverAt(now: real, bytes: nat) returns (at: real)
      requires Valid()
      modifies this
      ensures Valid() && calls == old(calls) + [Call(now, bytes)]
      ensures IsLatestBusy(params, calls, at - params.delay)
      ensures at == DeliveryTime(params, calls)
    {
      var start := match linkFreeAt
                   case Some(free) => if free > now then free else now
                   case None => now;
      var sent := start + Serialisation(params, bytes);
      linkFreeAt := Some(sent);
      calls := calls + [Call(now, bytes)];
      assert calls[..|calls| - 1] == old(calls);
      FreeAtClosedForm(params, calls);
      at := sent + params.delay;
    }
  }
}
