/** Where two responses of one length differ: maximal runs of differing bytes, and how many of them lie in
    the head. */
module Probe {
  import opened Wrappers
  import opened Bytes
  import opened Text

  datatype Run = Run(start: nat, end: nat)

  datatype Difference = Difference(
    headBytes: nat,
    differingBytes: nat,
    differingInHead: nat,
    differingInBody: nat,
    runs: seq<Run>)

  /** The first `n` bytes end in an empty line. */
  predicate EndsHead(a: Bytes, n: nat) {
    4 <= n <= |a| && a[n - 4] == 13 && a[n - 3] == 10 && a[n - 2] == 13 && a[n - 1] == 10
  }

  lemma EndsHeadIff(a: Bytes, n: nat)
    requires 4 <= n
    ensures OccursAt(a, [13, 10, 13, 10], n - 4) <==> EndsHead(a, n)
  {
    if n <= |a| {
      var w := a[n - 4..n];
      assert w[0] == a[n - 4] && w[1] == a[n - 3] && w[2] == a[n - 2] && w[3] == a[n - 1];
    }
  }

  /** Length of the head, through the blank line; the whole response if there is none. */
  function HeadLength(a: Bytes): (n: nat)
    ensures n <= |a|
    ensures n == |a| || EndsHead(a, n)
    ensures forall k: nat | k < n :: !EndsHead(a, k)
  {
    match Find(a, [13, 10, 13, 10])
    case Some(i) =>
      EndsHeadIff(a, i + 4);
      assert forall k: nat | k < i + 4 :: !EndsHead(a, k) by { NoHeadEnds(a, i); }
      i + 4
    case None =>
      assert forall k: nat | k < |a| :: !EndsHead(a, k) by { NoHeadEnds(a, |a|); }
      |a|
  }

  lemma NoHeadEnds(a: Bytes, i: nat)
    requires forall j: nat | j < i :: !OccursAt(a, [13, 10, 13, 10], j)
    ensures forall k: nat | k < i + 4 :: !EndsHead(a, k)
  {
    forall k: nat | k < i + 4
      ensures !EndsHead(a, k)
    {
      if 4 <= k {
        EndsHeadIff(a, k);
      }
    }
  }

  /** Number of differing positions below `n`. */
  function CountBelow(a: Bytes, b: Bytes, n: nat): nat
    requires n <= |a| == |b|
  {
    if n == 0 then 0 else CountBelow(a, b, n - 1) + if a[n - 1] != b[n - 1] then 1 else 0
  }

  /** Number of positions of the runs below `limit`. */
  function PositionsBelow(runs: seq<Run>, limit: nat): nat {
    if runs == [] then 0
    else
      var last := runs[|runs| - 1];
      var end := if last.end < limit then last.end else limit;
      PositionsBelow(runs[..|runs| - 1], limit) + (if last.start <= end then end - last.start else 0)
  }

  predicate InRun(r: Run, p: nat) {
    r.start <= p < r.end
  }

  predicate InRuns(runs: seq<Run>, p: nat) {
    exists i | 0 <= i < |runs| :: InRun(runs[i], p)
  }

  /** Runs below `n` that are sorted, filled, and separated by at least one position. */
  predicate Separated(runs: seq<Run>, n: nat) {
    && (forall i | 0 <= i < |runs| :: runs[i].start < runs[i].end <= n)
    && forall i, j | 0 <= i < j < |runs| :: runs[i].end < runs[j].start
  }

  /** The runs cover exactly the differing positions below `n`. */
  predicate CoverDifferences(a: Bytes, b: Bytes, runs: seq<Run>, n: nat)
    requires n <= |a| == |b|
  {
    forall p | 0 <= p < n :: a[p] != b[p] <==> InRuns(runs, p)
  }

  predicate IsRuns(a: Bytes, b: Bytes, runs: seq<Run>, n: nat)
    requires n <= |a| == |b|
  {
    Separated(runs, n) && CoverDifferences(a, b, runs, n)
  }

  /** The runs after position `i`: a differing position extends the last run or starts a new one. */
  function Extend(runs: seq<Run>, i: nat): seq<Run> {
    if runs != [] && runs[|runs| - 1].end == i then runs[..|runs| - 1] + [Run(runs[|runs| - 1].start, i + 1)]
    else runs + [Run(i, i + 1)]
  }

  lemma InSomeRun(runs: seq<Run>, k: nat, p: nat)
    requires k < |runs| && InRun(runs[k], p)
    ensures InRuns(runs, p)
  {
  }

  lemma AppendCovers(runs: seq<Run>, r: Run, p: nat)
    ensures InRuns(runs + [r], p) <==> InRuns(runs, p) || InRun(r, p)
  {
    hide InRun;
    var t := runs + [r];
    if InRuns(runs, p) {
      var k :| 0 <= k < |runs| && InRun(runs[k], p);
      InSomeRun(t, k, p);
    }
    if InRun(r, p) {
      InSomeRun(t, |runs|, p);
    }
    if InRuns(t, p) {
      var k :| 0 <= k < |t| && InRun(t[k], p);
      if k < |runs| {
        InSomeRun(runs, k, p);
      }
    }
  }

  lemma ExtendCovers(runs: seq<Run>, i: nat, p: nat)
    requires Separated(runs, i)
    ensures InRuns(Extend(runs, i), p) <==> InRuns(runs, p) || p == i
  {
    hide InRuns;
    var n := |runs| - 1;
    if runs != [] && runs[n].end == i {
      AppendCovers(runs[..n], runs[n], p);
      AppendCovers(runs[..n], Run(runs[n].start, i + 1), p);
      assert runs == runs[..n] + [runs[n]];
    } else {
      AppendCovers(runs, Run(i, i + 1), p);
    }
  }

  lemma ExtendSeparated(runs: seq<Run>, i: nat)
    requires Separated(runs, i)
    ensures Separated(Extend(runs, i), i + 1)
  {
  }

  lemma ExtendCounts(runs: seq<Run>, i: nat, limit: nat)
    requires Separated(runs, i)
    ensures PositionsBelow(Extend(runs, i), limit) == PositionsBelow(runs, limit) + if i < limit then 1 else 0
  {
    var t := Extend(runs, i);
    assert t[..|t| - 1] == if runs != [] && runs[|runs| - 1].end == i then runs[..|runs| - 1] else runs;
  }

  lemma SeparatedStays(a: Bytes, b: Bytes, runs: seq<Run>, i: nat)
    requires i < |a| == |b| && IsRuns(a, b, runs, i) && a[i] == b[i]
    ensures IsRuns(a, b, runs, i + 1)
  {
    assert !InRuns(runs, i);
  }

  lemma ExtendIsRuns(a: Bytes, b: Bytes, runs: seq<Run>, i: nat)
    requires i < |a| == |b| && IsRuns(a, b, runs, i) && a[i] != b[i]
    ensures IsRuns(a, b, Extend(runs, i), i + 1)
  {
    hide Separated, InRuns, Extend;
    ExtendSeparated(runs, i);
    forall p | 0 <= p < i + 1
      ensures a[p] != b[p] <==> InRuns(Extend(runs, i), p)
    {
      ExtendCovers(runs, i, p);
    }
  }

  /** `difference`. */
  method DifferenceOf(a: Bytes, b: Bytes) returns (r: Option<Difference>)
    ensures r.None? <==> |a| != |b|
    ensures r.Some? ==> IsRuns(a, b, r.value.runs, |a|)
    ensures r.Some? ==> r.value.headBytes == HeadLength(a)
    ensures r.Some? ==> r.value.differingBytes == CountBelow(a, b, |a|)
    ensures r.Some? ==> r.value.differingInHead == CountBelow(a, b, HeadLength(a))
    ensures r.Some? ==> r.value.differingInHead + r.value.differingInBody == r.value.differingBytes
  {
    hide IsRuns, Extend, Find;
    if |a| != |b| {
      return None;
    }
    var head := HeadLength(a);
    var runs: seq<Run> := [];
    assert IsRuns(a, b, [], 0) by { NoRuns(a, b); }
    for i := 0 to |a|
      invariant IsRuns(a, b, runs, i)
      invariant PositionsBelow(runs, |a|) == CountBelow(a, b, i)
      invariant PositionsBelow(runs, head) == CountBelow(a, b, if i < head then i else head)
    {
      RunsAreSeparated(a, b, runs, i);
      if a[i] != b[i] {
        ExtendIsRuns(a, b, runs, i);
        ExtendCounts(runs, i, |a|);
        ExtendCounts(runs, i, head);
        runs := Extend(runs, i);
      } else {
        SeparatedStays(a, b, runs, i);
      }
    }
    var differing := PositionsBelow(runs, |a|);
    var inHead := PositionsBelow(runs, head);
    CountGrows(a, b, head, |a|);
    r := Some(Difference(head, differing, inHead, differing - inHead, runs));
  }

  lemma NoRuns(a: Bytes, b: Bytes)
    requires |a| == |b|
    ensures IsRuns(a, b, [], 0)
  {
  }

  lemma RunsAreSeparated(a: Bytes, b: Bytes, runs: seq<Run>, n: nat)
    requires n <= |a| == |b| && IsRuns(a, b, runs, n)
    ensures Separated(runs, n)
  {
  }

  lemma {:induction false} CountGrows(a: Bytes, b: Bytes, m: nat, n: nat)
    requires m <= n <= |a| == |b|
    ensures CountBelow(a, b, m) <= CountBelow(a, b, n)
    decreases n
  {
    if m < n {
      CountGrows(a, b, m, n - 1);
    }
  }

  // ---------- What the runs mean ----------

  /** Runs are maximal: all bytes of a run differ, and the bytes next to it do not. */
  lemma RunsAreMaximal(a: Bytes, b: Bytes, runs: seq<Run>, i: nat)
    requires |a| == |b| && IsRuns(a, b, runs, |a|) && i < |runs|
    ensures forall p | runs[i].start <= p < runs[i].end :: a[p] != b[p]
    ensures runs[i].start > 0 ==> a[runs[i].start - 1] == b[runs[i].start - 1]
    ensures runs[i].end < |a| ==> a[runs[i].end] == b[runs[i].end]
  {
    forall p | runs[i].start <= p < runs[i].end
      ensures a[p] != b[p]
    {
      assert InRun(runs[i], p);
    }
    if runs[i].start > 0 {
      NotCovered(runs, i, runs[i].start - 1, |a|);
    }
    if runs[i].end < |a| {
      NotCovered(runs, i, runs[i].end, |a|);
    }
  }

  lemma NotCovered(runs: seq<Run>, i: nat, p: nat, n: nat)
    requires Separated(runs, n) && i < |runs| && (p + 1 == runs[i].start || p == runs[i].end)
    ensures !InRuns(runs, p)
  {
    forall k | 0 <= k < |runs|
      ensures !InRun(runs[k], p)
    {
      if k < i {
        assert runs[k].end < runs[i].start;
      } else if i < k {
        assert runs[i].end < runs[k].start;
      }
    }
  }

  lemma InOneRun(runs: seq<Run>, i: nat, p: nat)
    requires i < |runs|
    ensures InRun(runs[i], p) ==> InRuns(runs, p)
  {
  }

  lemma SomeDiffers(a: Bytes, b: Bytes, runs: seq<Run>, n: nat)
    requires n <= |a| == |b| && IsRuns(a, b, runs, n)
    ensures runs != [] <==> exists p | 0 <= p < n :: a[p] != b[p]
  {
    if runs != [] {
      assert InRun(runs[0], runs[0].start) && InRuns(runs, runs[0].start);
      assert a[runs[0].start] != b[runs[0].start];
    }
  }

  /** Responses determine their runs: any list with these properties is the one reported. */
  lemma {:induction false} RunsAreUnique(a: Bytes, b: Bytes, runs: seq<Run>, others: seq<Run>, n: nat)
    requires n <= |a| == |b| && IsRuns(a, b, runs, n) && IsRuns(a, b, others, n)
    ensures runs == others
    decreases |runs|
  {
    hide IsRuns;
    SomeDiffers(a, b, runs, n);
    SomeDiffers(a, b, others, n);
    if runs != [] {
      var k := |runs| - 1;
      LastAgrees(a, b, runs, others, n);
      LastAgrees(a, b, others, runs, n);
      var last := runs[k];
      WithoutLast(a, b, runs, n);
      WithoutLast(a, b, others, n);
      RunsAreUnique(a, b, runs[..k], others[..|others| - 1], last.start);
      assert runs == runs[..k] + [last] && others == others[..|others| - 1] + [last];
    }
  }

  /** The last run of one list is inside that of the other. */
  lemma LastAgrees(a: Bytes, b: Bytes, runs: seq<Run>, others: seq<Run>, n: nat)
    requires n <= |a| == |b| && IsRuns(a, b, runs, n) && IsRuns(a, b, others, n) && runs != [] && others != []
    ensures others[|others| - 1].end <= runs[|runs| - 1].end
    ensures others[|others| - 1].end == runs[|runs| - 1].end ==> runs[|runs| - 1].start <= others[|others| - 1].start
  {
    var r, o := runs[|runs| - 1], others[|others| - 1];
    assert InRun(o, o.end - 1) && InRuns(others, o.end - 1);
    assert a[o.end - 1] != b[o.end - 1];
    if o.end == r.end && r.start > 0 {
      NotCovered(runs, |runs| - 1, r.start - 1, n);
      InOneRun(others, |others| - 1, r.start - 1);
    }
  }

  lemma WithoutLast(a: Bytes, b: Bytes, runs: seq<Run>, n: nat)
    requires n <= |a| == |b| && IsRuns(a, b, runs, n) && runs != []
    ensures runs[|runs| - 1].start < n
    ensures IsRuns(a, b, runs[..|runs| - 1], runs[|runs| - 1].start)
  {
    var k := |runs| - 1;
    forall p | 0 <= p < runs[k].start
      ensures InRuns(runs, p) <==> InRuns(runs[..k], p)
    {
      if InRuns(runs, p) {
        var i :| 0 <= i < |runs| && InRun(runs[i], p);
        assert InRun(runs[..k][i], p);
      }
      if InRuns(runs[..k], p) {
        var i :| 0 <= i < k && InRun(runs[..k][i], p);
        assert InRun(runs[i], p);
      }
    }
  }
}
