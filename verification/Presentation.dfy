/** The policy verifier's checks on a presentation: what it reveals, and what it commits to. */
module Presentation {
  import opened Wrappers
  import opened Bytes
  import opened Field
  import opened Pieces
  import opened Shape
  import opened Settlement
  import opened Calendar

  datatype Direction = Sent | Received

  type Indices = set<nat>

  function IndicesIn(r: Range): Indices {
    set i: nat | i < r.end && Covers(r, i)
  }

  function IndicesOf(rs: seq<Range>): Indices {
    if rs == [] then {} else IndicesIn(rs[0]) + IndicesOf(rs[1..])
  }

  datatype HashAlg = Sha256 | OtherAlg(id: nat)

  /** Where a commitment points. */
  datatype Target = Target(direction: Direction, idx: Indices)

  datatype Commitment = Commitment(target: Target, alg: HashAlg, hash: Bytes)

  datatype Extension = Extension(id: Bytes, value: Bytes)

  /** The revealed part of the transcript; bytes outside the authenticated indices mean nothing. */
  datatype Transcript = Transcript(sent: Bytes, received: Bytes, sentAuthed: Indices, receivedAuthed: Indices)

  /** What verifying a presentation against the trusted roots yields. */
  datatype Output = Output(
    serverName: Option<Bytes>,
    extensions: seq<Extension>,
    connectionTime: U64,
    receivedLength: nat,
    transcript: Option<Transcript>,
    commitments: Option<seq<Commitment>>)

  datatype Presentation = Presentation(key: Bytes, output: Option<Output>)

  /** A verified transcript has the attested length, and only its own bytes are authenticated. */
  predicate Consistent(o: Output) {
    o.transcript.Some? ==>
      var t := o.transcript.value;
      && |t.received| == o.receivedLength
      && (forall i | i in t.sentAuthed :: i < |t.sent|)
      && forall i | i in t.receivedAuthed :: i < |t.received|
  }

  datatype CheckError =
    | UntrustedKey
    | DoesNotVerify
    | WrongServer
    | NoAttestedTime
    | AttestedTimeTwice
    | AttestedTimeNotEightBytes
    | TimePrecedesConnection
    | TimeTooLate
    | WrongLength
    | NothingRevealed
    | RequestRanges
    | RequestLineDiffers
    | ResponseRanges
    | ResponseBytes
    | UnsupportedCommitment
    | WrongCommitmentCount
    | NotCommittedOnce(target: Target, times: nat)
    | NotSha256
    | HashLength

  // ---------- The attested time ----------

  const T_ATT_EXTENSION_ID := Lit("pprev.t_att")
  const TLSN_CLOCK_TOLERANCE := 5

  function TimesIn(extensions: seq<Extension>): seq<Bytes> {
    if extensions == [] then []
    else (if extensions[0].id == T_ATT_EXTENSION_ID then [extensions[0].value] else []) + TimesIn(extensions[1..])
  }

  /** `t_att_of`: the one `pprev.t_att` extension, eight big-endian bytes. */
  function AttestedTime(o: Output): Result<U64, CheckError> {
    var times := TimesIn(o.extensions);
    if times == [] then Err(NoAttestedTime)
    else if |times| > 1 then Err(AttestedTimeTwice)
    else if |times[0]| != 8 then Err(AttestedTimeNotEightBytes)
    else
      BigEndianBelow(times[0]);
      Powers();
      Ok(BigEndian(times[0]) as U64)
  }

  /** The latest connection time that `tAtt` allows; the addition wraps around, as in the repository's
      release build. */
  function LatestConnection(tAtt: U64): (r: U64)
    ensures tAtt as int + TLSN_CLOCK_TOLERANCE < TWO_64 ==> r as int == tAtt as int + TLSN_CLOCK_TOLERANCE
    ensures TWO_64 <= tAtt as int + TLSN_CLOCK_TOLERANCE ==> r as int < TLSN_CLOCK_TOLERANCE
  {
    ((tAtt as int + TLSN_CLOCK_TOLERANCE) % TWO_64) as U64
  }

  /** `check_times`: the attested time precedes the connection time by at most the tolerance and follows it
      by at most the session bound. A time so late that the tolerance wraps is accepted only for one of the
      first connection times. */
  function CheckTimes(tAtt: U64, connectionTime: U64, maxSessionSecs: U64): (r: Result<(), CheckError>)
    ensures r.Ok? <==>
      && connectionTime <= LatestConnection(tAtt)
      && tAtt as int <= connectionTime as int + maxSessionSecs as int
  {
    if LatestConnection(tAtt) < connectionTime then Err(TimePrecedesConnection)
    else
      var gap := if tAtt < connectionTime then 0 else tAtt - connectionTime;
      if gap <= maxSessionSecs then Ok(()) else Err(TimeTooLate)
  }

  // ---------- Commitments ----------

  function HiddenTargets(hidden: seq<Range>): (r: seq<Target>)
    ensures |r| == |hidden| && forall i | 0 <= i < |r| :: r[i] == Target(Received, IndicesIn(hidden[i]))
  {
    seq(|hidden|, i requires 0 <= i < |hidden| => Target(Received, IndicesIn(hidden[i])))
  }

  /** The commitments a layout calls for: request line, response structure, and each hidden value. */
  function Expected(s: ResponseShape): seq<Target> {
    [Target(Sent, IndicesIn(Range(0, |s.requestLine|))), Target(Received, IndicesOf(s.revealed))] + HiddenTargets(s.hidden)
  }

  function Targets(cs: seq<Commitment>): (r: seq<Target>)
    ensures |r| == |cs| && forall i | 0 <= i < |r| :: r[i] == cs[i].target
  {
    seq(|cs|, i requires 0 <= i < |cs| => cs[i].target)
  }

  function CountOf(cs: seq<Commitment>, t: Target): nat {
    if cs == [] then 0 else CountOf(cs[..|cs| - 1], t) + if cs[|cs| - 1].target == t then 1 else 0
  }

  /** The checks as the verifier makes them: the number of commitments, and one per expected target. */
  predicate CountsMatch(cs: seq<Commitment>, expected: seq<Target>) {
    |cs| == |expected| && forall i | 0 <= i < |expected| :: CountOf(cs, expected[i]) == 1
  }

  ghost predicate AllDistinct<T(!new)>(s: seq<T>) {
    forall i, j | 0 <= i < j < |s| :: s[i] != s[j]
  }

  lemma {:induction false} CountIsMultiplicity(cs: seq<Commitment>, t: Target)
    ensures CountOf(cs, t) == multiset(Targets(cs))[t]
  {
    if cs != [] {
      var n := |cs| - 1;
      CountIsMultiplicity(cs[..n], t);
      assert Targets(cs) == Targets(cs[..n]) + [cs[n].target];
    }
  }

  lemma {:induction false} DistinctOnce<T(!new)>(s: seq<T>, i: nat)
    requires i < |s| && AllDistinct(s)
    ensures multiset(s)[s[i]] == 1
  {
    assert s == s[..i] + [s[i]] + s[i + 1..];
    assert s[i] !in multiset(s[..i]) && s[i] !in multiset(s[i + 1..]);
  }

  lemma RepeatedTwice<T>(s: seq<T>, i: nat, j: nat)
    requires i < j < |s| && s[i] == s[j]
    ensures multiset(s)[s[i]] >= 2
  {
    assert s == s[..j] + [s[j]] + s[j + 1..];
    assert s[i] in s[..j];
    assert s[i] in multiset(s[..j]);
  }

  lemma SubsetOfSameSize<T>(a: multiset<T>, b: multiset<T>)
    requires a <= b && |a| == |b|
    ensures a == b
  {
    assert b == a + (b - a);
    assert |b| == |a| + |b - a|;
    assert b - a == multiset{};
  }

  /** Counting is a bijection exactly when the expected targets are distinct: then, and only then, do
      matching counts mean that the attested targets are a permutation of the expected ones. */
  lemma CountsMeanPermutation(cs: seq<Commitment>, expected: seq<Target>)
    ensures AllDistinct(expected) ==> (CountsMatch(cs, expected) <==> multiset(Targets(cs)) == multiset(expected))
    ensures CountsMatch(cs, expected) && multiset(Targets(cs)) == multiset(expected) ==> AllDistinct(expected)
  {
    hide CountOf;
    var a, b := multiset(expected), multiset(Targets(cs));
    forall i | 0 <= i < |expected|
      ensures CountOf(cs, expected[i]) == b[expected[i]]
    {
      CountIsMultiplicity(cs, expected[i]);
    }
    if AllDistinct(expected) {
      forall i | 0 <= i < |expected|
        ensures a[expected[i]] == 1
      {
        DistinctOnce(expected, i);
      }
      if CountsMatch(cs, expected) {
        forall t | t in a
          ensures a[t] <= b[t]
        {
          var i :| 0 <= i < |expected| && expected[i] == t;
          assert a[expected[i]] == 1 && CountOf(cs, expected[i]) == 1;
        }
        SubsetOfSameSize(a, b);
      }
      if a == b {
        assert |a| == |expected| && |b| == |Targets(cs)|;
      }
    }
    if CountsMatch(cs, expected) && a == b {
      forall i, j | 0 <= i < j < |expected|
        ensures expected[i] != expected[j]
      {
        if expected[i] == expected[j] {
          RepeatedTwice(expected, i, j);
        }
      }
    }
  }

  // ---------- Sound shapes call for distinct commitments ----------

  lemma {:induction false} IndicesOfMember(rs: seq<Range>, i: nat)
    ensures i in IndicesOf(rs) <==> exists k :: 0 <= k < |rs| && i in IndicesIn(rs[k])
  {
    if rs != [] {
      IndicesOfMember(rs[1..], i);
      if i in IndicesIn(rs[0]) {
      } else if i in IndicesOf(rs[1..]) {
        var k :| 0 <= k < |rs[1..]| && i in IndicesIn(rs[1..][k]);
        assert rs[k + 1] == rs[1..][k];
      }
      if k :| 0 < k < |rs| && i in IndicesIn(rs[k]) {
        assert rs[1..][k - 1] == rs[k];
      }
    }
  }

  lemma ExpectedDistinct(s: ResponseShape)
    requires Sound(s)
    ensures AllDistinct(Expected(s))
  {
    hide IndicesOf;
    var e := Expected(s);
    var all := s.revealed + s.hidden;
    forall i | 0 <= i < |s.hidden|
      ensures s.hidden[i].start in IndicesIn(s.hidden[i])
      ensures s.hidden[i].start !in IndicesOf(s.revealed)
    {
      IndicesOfMember(s.revealed, s.hidden[i].start);
      forall k | 0 <= k < |s.revealed|
        ensures s.hidden[i].start !in IndicesIn(s.revealed[k])
      {
        assert Disjoint(all[k], all[|s.revealed| + i]);
      }
    }
    forall i, j | 0 <= i < j < |s.hidden|
      ensures IndicesIn(s.hidden[i]) != IndicesIn(s.hidden[j])
    {
      assert Disjoint(all[|s.revealed| + i], all[|s.revealed| + j]);
      assert s.hidden[i].start !in IndicesIn(s.hidden[j]);
    }
    forall i, j | 0 <= i < j < |e|
      ensures e[i] != e[j]
    {
      if j >= 2 {
        assert e[j] == Target(Received, IndicesIn(s.hidden[j - 2]));
        if i >= 2 {
          assert IndicesIn(s.hidden[i - 2]) != IndicesIn(s.hidden[j - 2]);
        }
      }
    }
  }

  // ---------- check_shape ----------

  datatype Attested = Attested(tAtt: U64, connectionTime: U64, hiddenHashes: seq<Word>)

  /** The shape, the notary's key and the time bound a presentation is held against. */
  datatype Expectation = Expectation(shape: ResponseShape, key: Bytes, maxSessionSecs: U64)

  /** What is authenticated is the first line of the request and the revealed ranges of the response, nothing
      else, and its bytes are the template's. */
  predicate RevealsExactly(t: Transcript, s: ResponseShape)
    requires AllWithin(s.revealed, |t.received|) && AllWithin(s.revealed, |s.template|)
  {
    && t.sentAuthed == IndicesIn(Range(0, |s.requestLine|))
    && s.requestLine <= t.sent
    && t.receivedAuthed == IndicesOf(s.revealed)
    && forall i | 0 <= i < |s.revealed| ::
         t.received[s.revealed[i].start..s.revealed[i].end] == s.template[s.revealed[i].start..s.revealed[i].end]
  }

  predicate AllSha256(cs: seq<Commitment>) {
    forall i | 0 <= i < |cs| :: cs[i].alg == Sha256
  }

  /** The presentation is by the notary, of this server, at a plausible time, and reveals exactly the
      structure of the shape. */
  predicate Shows(p: Presentation, e: Expectation)
    requires AllWithin(e.shape.revealed, e.shape.len) && |e.shape.template| == e.shape.len
    requires p.output.Some? ==> Consistent(p.output.value)
  {
    && p.key == e.key
    && p.output.Some?
    && var o := p.output.value;
    && o.serverName == Some(e.shape.serverName)
    && AttestedTime(o).Ok?
    && CheckTimes(AttestedTime(o).value, o.connectionTime, e.maxSessionSecs).Ok?
    && o.receivedLength == e.shape.len
    && o.transcript.Some?
    && RevealsExactly(o.transcript.value, e.shape)
    && o.commitments.Some?
  }

  /** Every commitment to a hidden value is 32 bytes long. */
  predicate HashesFit(cs: seq<Commitment>, hidden: seq<Range>) {
    forall i, k | 0 <= i < |hidden| && 0 <= k < |cs| && cs[k].target == Target(Received, IndicesIn(hidden[i])) :: |cs[k].hash| == 32
  }

  function FirstWith(cs: seq<Commitment>, t: Target): (r: Option<Commitment>)
    ensures r.Some? ==> r.value in cs && r.value.target == t
    ensures r.None? ==> CountOf(cs, t) == 0
  {
    if cs == [] then None
    else
      match FirstWith(cs[..|cs| - 1], t)
      case Some(c) => Some(c)
      case None => if cs[|cs| - 1].target == t then Some(cs[|cs| - 1]) else None
  }

  /** The hashes returned for the hidden ranges. */
  function HiddenHashes(cs: seq<Commitment>, hidden: seq<Range>): (r: seq<Bytes>)
    ensures |r| == |hidden|
    ensures forall i | 0 <= i < |r| ::
      r[i] == match FirstWith(cs, Target(Received, IndicesIn(hidden[i]))) case Some(c) => c.hash case None => []
  {
    seq(|hidden|, i requires 0 <= i < |hidden| =>
      match FirstWith(cs, Target(Received, IndicesIn(hidden[i]))) case Some(c) => c.hash case None => [])
  }

  /** If a target is committed to once, its hash is the one the search finds. */
  lemma {:induction false} OnlyCommitment(cs: seq<Commitment>, t: Target, k: nat)
    requires CountOf(cs, t) == 1 && k < |cs| && cs[k].target == t
    ensures FirstWith(cs, t) == Some(cs[k])
  {
    var n := |cs| - 1;
    if k < n {
      CountPositive(cs[..n], t, k);
      OnlyCommitment(cs[..n], t, k);
    } else if CountOf(cs[..n], t) == 0 {
      var f := FirstWith(cs[..n], t);
      if f.Some? {
        var i :| 0 <= i < n && cs[..n][i] == f.value;
        CountPositive(cs[..n], t, i);
      }
    }
  }

  lemma {:induction false} CountPositive(cs: seq<Commitment>, t: Target, k: nat)
    requires k < |cs| && cs[k].target == t
    ensures CountOf(cs, t) > 0
  {
    if k < |cs| - 1 {
      CountPositive(cs[..|cs| - 1], t, k);
    }
  }

  /** The hashes belong to the hidden ranges: each is the hash of every commitment to its range. */
  predicate HashesOf(cs: seq<Commitment>, hidden: seq<Range>, hashes: seq<Word>) {
    && |hashes| == |hidden|
    && forall i, k | 0 <= i < |hidden| && 0 <= k < |cs| && cs[k].target == Target(Received, IndicesIn(hidden[i])) ::
         cs[k].hash == hashes[i]
  }

  /** Every check of the verifier. */
  predicate Passes(p: Presentation, e: Expectation)
    requires AllWithin(e.shape.revealed, e.shape.len) && |e.shape.template| == e.shape.len
    requires p.output.Some? ==> Consistent(p.output.value)
  {
    && Shows(p, e)
    && CountsMatch(p.output.value.commitments.value, Expected(e.shape))
    && AllSha256(p.output.value.commitments.value)
    && HashesFit(p.output.value.commitments.value, e.shape.hidden)
  }

  method CheckRevealed(t: Transcript, s: ResponseShape) returns (error: Option<CheckError>)
    requires AllWithin(s.revealed, |t.received|) && AllWithin(s.revealed, |s.template|)
    requires forall i | i in t.sentAuthed :: i < |t.sent|
    ensures error.None? <==> RevealsExactly(t, s)
  {
    hide IndicesOf;
    var n := |s.requestLine|;
    if t.sentAuthed != IndicesIn(Range(0, n)) {
      return Some(RequestRanges);
    }
    if n > 0 {
      assert n - 1 in IndicesIn(Range(0, n));
    }
    if t.sent[..n] != s.requestLine {
      return Some(RequestLineDiffers);
    }
    if t.receivedAuthed != IndicesOf(s.revealed) {
      return Some(ResponseRanges);
    }
    for i := 0 to |s.revealed|
      invariant forall k | 0 <= k < i ::
        t.received[s.revealed[k].start..s.revealed[k].end] == s.template[s.revealed[k].start..s.revealed[k].end]
    {
      var r := s.revealed[i];
      if t.received[r.start..r.end] != s.template[r.start..r.end] {
        return Some(ResponseBytes);
      }
    }
    error := None;
  }

  method CheckCounts(cs: seq<Commitment>, expected: seq<Target>) returns (error: Option<CheckError>)
    ensures error.None? <==> CountsMatch(cs, expected)
  {
    if |cs| != |expected| {
      return Some(WrongCommitmentCount);
    }
    for i := 0 to |expected|
      invariant forall k | 0 <= k < i :: CountOf(cs, expected[k]) == 1
    {
      var n := CountOf(cs, expected[i]);
      if n != 1 {
        return Some(NotCommittedOnce(expected[i], n));
      }
    }
    error := None;
  }

  method CollectHashes(cs: seq<Commitment>, hidden: seq<Range>) returns (r: Result<seq<Word>, CheckError>)
    requires forall i | 0 <= i < |hidden| :: CountOf(cs, Target(Received, IndicesIn(hidden[i]))) == 1
    ensures r.Ok? <==> HashesFit(cs, hidden)
    ensures r.Ok? ==> HashesOf(cs, hidden, r.value) && r.value == HiddenHashes(cs, hidden)
  {
    hide CountOf, FirstWith, IndicesIn;
    var hashes: seq<Word> := [];
    for i := 0 to |hidden|
      invariant HashesFit(cs, hidden[..i]) && HashesOf(cs, hidden[..i], hashes)
      invariant hashes == HiddenHashes(cs, hidden)[..i]
    {
      var target := Target(Received, IndicesIn(hidden[i]));
      var found := FirstWith(cs, target);
      assert found.Some?;
      forall k | 0 <= k < |cs| && cs[k].target == target
        ensures cs[k] == found.value
      {
        OnlyCommitment(cs, target, k);
      }
      if |found.value.hash| != 32 {
        assert exists k :: 0 <= k < |cs| && cs[k].target == Target(Received, IndicesIn(hidden[i]));
        return Err(HashLength);
      }
      hashes := hashes + [found.value.hash];
    }
    assert hidden[..|hidden|] == hidden;
    r := Ok(hashes);
  }

  /** `check_shape`. */
  method CheckShape(p: Presentation, e: Expectation) returns (r: Result<Attested, CheckError>)
    requires AllWithin(e.shape.revealed, e.shape.len) && |e.shape.template| == e.shape.len
    requires p.output.Some? ==> Consistent(p.output.value)
    ensures r.Ok? <==> Passes(p, e)
    ensures r.Ok? ==>
      && AttestedTime(p.output.value) == Ok(r.value.tAtt)
      && r.value.connectionTime == p.output.value.connectionTime
      && HashesOf(p.output.value.commitments.value, e.shape.hidden, r.value.hiddenHashes)
      && r.value.hiddenHashes == HiddenHashes(p.output.value.commitments.value, e.shape.hidden)
  {
    hide RevealsExactly, CountsMatch, HashesFit, HashesOf, AttestedTime, CheckTimes;
    if p.key != e.key {
      return Err(UntrustedKey);
    }
    if p.output.None? {
      return Err(DoesNotVerify);
    }
    var o := p.output.value;
    if o.serverName != Some(e.shape.serverName) {
      return Err(WrongServer);
    }
    var tAtt := AttestedTime(o);
    if tAtt.Err? {
      return Err(tAtt.error);
    }
    var times := CheckTimes(tAtt.value, o.connectionTime, e.maxSessionSecs);
    if times.Err? {
      return Err(times.error);
    }
    if o.receivedLength != e.shape.len {
      return Err(WrongLength);
    }
    if o.transcript.None? {
      return Err(NothingRevealed);
    }
    var revealed := CheckRevealed(o.transcript.value, e.shape);
    if revealed.Some? {
      return Err(revealed.value);
    }
    if o.commitments.None? {
      return Err(UnsupportedCommitment);
    }
    var cs := o.commitments.value;
    var expected := Expected(e.shape);
    var counts := CheckCounts(cs, expected);
    if counts.Some? {
      return Err(counts.value);
    }
    if exists c | c in cs :: c.alg != Sha256 {
      return Err(NotSha256);
    }
    HiddenCounted(cs, e.shape);
    var hashes := CollectHashes(cs, e.shape.hidden);
    if hashes.Err? {
      return Err(hashes.error);
    }
    r := Ok(Attested(tAtt.value, o.connectionTime, hashes.value));
  }

  lemma HiddenCounted(cs: seq<Commitment>, s: ResponseShape)
    requires CountsMatch(cs, Expected(s))
    ensures forall i | 0 <= i < |s.hidden| :: CountOf(cs, Target(Received, IndicesIn(s.hidden[i]))) == 1
  {
    forall i | 0 <= i < |s.hidden|
      ensures CountOf(cs, Target(Received, IndicesIn(s.hidden[i]))) == 1
    {
      assert Expected(s)[i + 2] == Target(Received, IndicesIn(s.hidden[i]));
    }
  }

  // ---------- What acceptance means ----------

  /** Exactly one commitment points at `t`. */
  ghost predicate OnlyOne(cs: seq<Commitment>, t: Target) {
    exists k ::
      && 0 <= k < |cs| && cs[k].target == t
      && forall j | 0 <= j < |cs| && cs[j].target == t :: j == k
  }

  lemma {:induction false} OnceIsOne(cs: seq<Commitment>, t: Target)
    requires CountOf(cs, t) == 1
    ensures OnlyOne(cs, t)
  {
    var n := |cs| - 1;
    var before := cs[..n];
    if cs[n].target == t {
      forall j | 0 <= j < n
        ensures cs[j].target != t
      {
        assert before[j] == cs[j];
        if before[j].target == t {
          CountPositive(before, t, j);
        }
      }
    } else {
      OnceIsOne(before, t);
      var k :| 0 <= k < n && before[k].target == t && forall j | 0 <= j < n && before[j].target == t :: j == k;
      forall j | 0 <= j < |cs| && cs[j].target == t
        ensures j == k
      {
        assert j < n && before[j] == cs[j];
      }
    }
  }

  lemma {:induction false} NoneMeansZero(cs: seq<Commitment>, t: Target)
    requires forall k | 0 <= k < |cs| :: cs[k].target != t
    ensures CountOf(cs, t) == 0
  {
    if cs != [] {
      NoneMeansZero(cs[..|cs| - 1], t);
    }
  }

  lemma {:induction false} OneIsOnce(cs: seq<Commitment>, t: Target)
    requires OnlyOne(cs, t)
    ensures CountOf(cs, t) == 1
  {
    var k :| 0 <= k < |cs| && cs[k].target == t && forall j | 0 <= j < |cs| && cs[j].target == t :: j == k;
    var n := |cs| - 1;
    var before := cs[..n];
    if k == n {
      NoneMeansZero(before, t);
    } else {
      assert before[k].target == t;
      OneIsOnce(before, t);
    }
  }

  // ---------- What the checks say, byte by byte ----------

  /** The eight bytes of a time, most significant first. */
  function TimeBytes(t: U64): Bytes {
    var v := t as int;
    [(v / 0x100_0000_0000_0000) as Byte, (v / 0x1_0000_0000_0000 % 256) as Byte, (v / 0x100_0000_0000 % 256) as Byte,
     (v / 0x1_0000_0000 % 256) as Byte, (v / 0x100_0000 % 256) as Byte, (v / 0x1_0000 % 256) as Byte,
     (v / 0x100 % 256) as Byte, (v % 256) as Byte]
  }

  lemma Distribute(p: nat, d: nat, m: nat)
    ensures p * (256 * d + m) == 256 * p * d + p * m
  {
  }

  lemma NextByte(v: nat, p: nat)
    requires p > 0
    ensures 256 * (v / (256 * p)) + v / p % 256 == v / p
  {
    var q, r := v / p, v % p;
    var d, m := q / 256, q % 256;
    assert v == p * q + r;
    Distribute(p, d, m);
    MulMonotone(p, m, 255);
    DivIs(v, 256 * p, d);
  }

  lemma LastByte(b: Bytes)
    requires b != []
    ensures BigEndian(b) == 256 * BigEndian(b[..|b| - 1]) + b[|b| - 1] as nat
  {
  }

  /** The first `i` bytes of a time. */
  lemma {:induction false} FirstTimeBytes(t: U64, i: nat, p: nat)
    requires 0 < i <= 8 && p == Pow256(8 - i)
    ensures BigEndian(TimeBytes(t)[..i]) == t as nat / p
    decreases i
  {
    hide BigEndian;
    var b := TimeBytes(t);
    LastByte(b[..i]);
    assert b[..i][..i - 1] == b[..i - 1];
    PowersOfBytes();
    if i == 1 {
      NoBytes();
    } else {
      FirstTimeBytes(t, i - 1, 256 * p);
      NextByte(t as nat, p);
      TimeByte(t, i - 1, p);
    }
  }

  lemma NoBytes()
    ensures BigEndian([]) == 0
  {
  }

  lemma PowersOfBytes()
    ensures Pow256(0) == 1 && Pow256(1) == 0x100 && Pow256(2) == 0x1_0000 && Pow256(3) == 0x100_0000
    ensures Pow256(4) == 0x1_0000_0000 && Pow256(5) == 0x100_0000_0000 && Pow256(6) == 0x1_0000_0000_0000
    ensures Pow256(7) == 0x100_0000_0000_0000
  {
    assert Pow256(3) == 0x100_0000;
    assert Pow256(5) == 0x1_0000 * Pow256(3);
    assert Pow256(7) == 0x1_0000 * Pow256(5);
  }

  lemma TimeByte(t: U64, k: nat, p: nat)
    requires 0 < k < 8 && p == Pow256(7 - k)
    ensures TimeBytes(t)[k] as nat == t as nat / p % 256
  {
    PowersOfBytes();
  }

  lemma TimeBytesDenote(t: U64)
    ensures BigEndian(TimeBytes(t)) == t as nat
  {
    PowersOfBytes();
    FirstTimeBytes(t, 8, 1);
    assert TimeBytes(t)[..8] == TimeBytes(t);
  }

  /** Exactly one extension has the identifier, with this value. */
  ghost predicate OnlyExtension(es: seq<Extension>, id: Bytes, value: Bytes) {
    exists k ::
      && 0 <= k < |es| && es[k] == Extension(id, value)
      && forall j | 0 <= j < |es| && es[j].id == id :: j == k
  }

  lemma {:induction false} NoTimes(es: seq<Extension>)
    ensures TimesIn(es) == [] <==> forall k | 0 <= k < |es| :: es[k].id != T_ATT_EXTENSION_ID
  {
    if es != [] {
      NoTimes(es[1..]);
      if es[0].id != T_ATT_EXTENSION_ID {
        assert forall k | 0 < k < |es| :: es[k] == es[1..][k - 1];
        assert forall k | 0 <= k < |es[1..]| :: es[1..][k] == es[k + 1];
      }
    }
  }

  lemma {:induction false} OneTime(es: seq<Extension>, value: Bytes)
    ensures TimesIn(es) == [value] <==> OnlyExtension(es, T_ATT_EXTENSION_ID, value)
  {
    if es != [] {
      var rest := es[1..];
      assert forall k | 0 <= k < |rest| :: rest[k] == es[k + 1];
      assert forall k | 0 < k < |es| :: es[k] == rest[k - 1];
      if es[0].id == T_ATT_EXTENSION_ID {
        NoTimes(rest);
        FirstIsOnly(es, value);
      } else {
        OneTime(rest, value);
        RestHasOnly(es, T_ATT_EXTENSION_ID, value);
      }
    }
  }

  lemma FirstIsOnly(es: seq<Extension>, value: Bytes)
    requires es != [] && es[0].id == T_ATT_EXTENSION_ID
    ensures OnlyExtension(es, T_ATT_EXTENSION_ID, value)
      <==> es[0].value == value && forall k | 0 < k < |es| :: es[k].id != T_ATT_EXTENSION_ID
  {
  }

  lemma RestHasOnly(es: seq<Extension>, id: Bytes, value: Bytes)
    requires es != [] && es[0].id != id
    ensures OnlyExtension(es, id, value) <==> OnlyExtension(es[1..], id, value)
  {
    var rest := es[1..];
    if k :| 0 <= k < |es| && es[k] == Extension(id, value) && forall j | 0 <= j < |es| && es[j].id == id :: j == k {
      assert rest[k - 1] == es[k];
      forall j | 0 <= j < |rest| && rest[j].id == id
        ensures j == k - 1
      {
        assert es[j + 1].id == id;
      }
    }
    if k :| 0 <= k < |rest| && rest[k] == Extension(id, value) && forall j | 0 <= j < |rest| && rest[j].id == id :: j == k {
      assert es[k + 1] == rest[k];
      forall j | 0 <= j < |es| && es[j].id == id
        ensures j == k + 1
      {
        assert rest[j - 1].id == id;
      }
    }
  }

  /** The attested time is `t` exactly if one extension is named pprev.t_att and holds the eight bytes of `t`. */
  lemma AttestedTimeIs(o: Output, t: U64)
    ensures AttestedTime(o) == Ok(t) <==> OnlyExtension(o.extensions, Lit("pprev.t_att"), TimeBytes(t))
  {
    hide BigEndian, TimeBytes, TimesIn, OnlyExtension, Pow256, Lit;
    var times := TimesIn(o.extensions);
    OneTime(o.extensions, TimeBytes(t));
    TimeBytesDenote(t);
    EightBytes(t);
    if AttestedTime(o) == Ok(t) {
      BigEndianInjective(times[0], TimeBytes(t));
    }
  }

  lemma EightBytes(t: U64)
    ensures |TimeBytes(t)| == 8
  {
  }

  // ---------- Acceptance, spelled out ----------

  /** At most five seconds before the connection, where adding five wraps past 64 bits, and at most
      `maxSessionSecs` after it. */
  predicate InTolerance(tAtt: U64, connectionTime: U64, maxSessionSecs: U64) {
    var latest := tAtt as int + 5;
    && connectionTime as int <= (if latest < 0x1_0000_0000_0000_0000 then latest else latest - 0x1_0000_0000_0000_0000)
    && tAtt as int <= connectionTime as int + maxSessionSecs as int
  }

  /** What is authenticated is the request line and the revealed bytes, no other byte, and they read as the
      shape has them. */
  ghost predicate ShowsOnly(t: Transcript, s: ResponseShape) {
    && (forall i: nat :: i in t.sentAuthed <==> i < |s.requestLine|)
    && (forall i: nat :: i in t.receivedAuthed <==> Covered(s.revealed, i))
    && (forall i: nat | i < |s.requestLine| :: i < |t.sent| && t.sent[i] == s.requestLine[i])
    && forall i: nat | Covered(s.revealed, i) :: i < |t.received| && i < |s.template| && t.received[i] == s.template[i]
  }

  /** One commitment to the request line, one to the revealed bytes together, one to each hidden range, and no
      other; all by SHA-256, with hashes of 32 bytes for the hidden ranges. */
  ghost predicate CommitsOnly(cs: seq<Commitment>, s: ResponseShape) {
    && |cs| == 2 + |s.hidden|
    && OnlyOne(cs, Target(Sent, IndicesIn(Range(0, |s.requestLine|))))
    && OnlyOne(cs, Target(Received, set i: nat | i < |s.template| && Covered(s.revealed, i)))
    && (forall h | 0 <= h < |s.hidden| :: OnlyOne(cs, Target(Received, IndicesIn(s.hidden[h]))))
    && (forall k | 0 <= k < |cs| :: cs[k].alg == Sha256)
    && forall h, k | 0 <= h < |s.hidden| && 0 <= k < |cs| && cs[k].target == Target(Received, IndicesIn(s.hidden[h])) ::
         |cs[k].hash| == 32
  }

  lemma ToleranceIs(tAtt: U64, connectionTime: U64, maxSessionSecs: U64)
    ensures CheckTimes(tAtt, connectionTime, maxSessionSecs).Ok? <==> InTolerance(tAtt, connectionTime, maxSessionSecs)
  {
  }

  lemma IndicesAre(r: Range, i: nat)
    ensures i in IndicesIn(r) <==> r.start <= i < r.end
  {
  }

  lemma CoveredIs(rs: seq<Range>, i: nat)
    ensures i in IndicesOf(rs) <==> Covered(rs, i)
  {
    IndicesOfMember(rs, i);
    if k :| 0 <= k < |rs| && i in IndicesIn(rs[k]) {
      assert Covers(rs[k], i);
    }
    if Covered(rs, i) {
      var k :| 0 <= k < |rs| && Covers(rs[k], i);
      assert i in IndicesIn(rs[k]);
    }
  }

  lemma ShowsOnlyIff(t: Transcript, s: ResponseShape)
    requires AllWithin(s.revealed, |t.received|) && AllWithin(s.revealed, |s.template|)
    requires forall i | i in t.sentAuthed :: i < |t.sent|
    ensures RevealsExactly(t, s) <==> ShowsOnly(t, s)
  {
    hide IndicesOf, Covered;
    forall i: nat
      ensures i in IndicesOf(s.revealed) <==> Covered(s.revealed, i)
    {
      CoveredIs(s.revealed, i);
    }
    if RevealsExactly(t, s) {
      ShowsOnlyIf(t, s);
    }
    if ShowsOnly(t, s) {
      RevealsExactlyIf(t, s);
    }
  }

  lemma ShowsOnlyIf(t: Transcript, s: ResponseShape)
    requires AllWithin(s.revealed, |t.received|) && AllWithin(s.revealed, |s.template|)
    requires forall i: nat :: i in IndicesOf(s.revealed) <==> Covered(s.revealed, i)
    requires RevealsExactly(t, s)
    ensures ShowsOnly(t, s)
  {
    hide IndicesOf;
    forall i: nat | Covered(s.revealed, i)
      ensures i < |t.received| && i < |s.template| && t.received[i] == s.template[i]
    {
      var k :| 0 <= k < |s.revealed| && Covers(s.revealed[k], i);
      var r := s.revealed[k];
      assert t.received[r.start..r.end][i - r.start] == s.template[r.start..r.end][i - r.start];
    }
  }

  lemma RevealsExactlyIf(t: Transcript, s: ResponseShape)
    requires AllWithin(s.revealed, |t.received|) && AllWithin(s.revealed, |s.template|)
    requires forall i: nat :: i in IndicesOf(s.revealed) <==> Covered(s.revealed, i)
    requires ShowsOnly(t, s)
    ensures RevealsExactly(t, s)
  {
    hide IndicesOf;
    if s.requestLine != [] {
      var last := s.requestLine[|s.requestLine| - 1];
      assert |s.requestLine| - 1 < |t.sent|;
    }
    forall k | 0 <= k < |s.revealed|
      ensures t.received[s.revealed[k].start..s.revealed[k].end] == s.template[s.revealed[k].start..s.revealed[k].end]
    {
      var r := s.revealed[k];
      forall i | r.start <= i < r.end
        ensures t.received[i] == s.template[i]
      {
        assert Covers(r, i);
      }
    }
    assert t.sentAuthed == IndicesIn(Range(0, |s.requestLine|));
    assert t.receivedAuthed == IndicesOf(s.revealed);
  }

  lemma CommitsOnlyIff(cs: seq<Commitment>, s: ResponseShape)
    requires AllWithin(s.revealed, |s.template|)
    ensures CommitsOnly(cs, s) <==> CountsMatch(cs, Expected(s)) && AllSha256(cs) && HashesFit(cs, s.hidden)
  {
    hide IndicesOf, OnlyOne, CountOf, IndicesIn;
    ResponseTarget(s);
    var e := Expected(s);
    forall i | 0 <= i < |e|
      ensures CountOf(cs, e[i]) == 1 <==> OnlyOne(cs, e[i])
    {
      CountIsOne(cs, e[i]);
    }
    forall h | 0 <= h < |s.hidden|
      ensures e[h + 2] == Target(Received, IndicesIn(s.hidden[h]))
    {
    }
    if CommitsOnly(cs, s) {
      forall i | 0 <= i < |e|
        ensures OnlyOne(cs, e[i])
      {
        assert 2 <= i ==> e[i] == Target(Received, IndicesIn(s.hidden[i - 2]));
      }
    }
    if CountsMatch(cs, e) {
      forall h | 0 <= h < |s.hidden|
        ensures OnlyOne(cs, Target(Received, IndicesIn(s.hidden[h])))
      {
        assert OnlyOne(cs, e[h + 2]);
      }
      assert OnlyOne(cs, e[0]) && OnlyOne(cs, e[1]);
    }
  }

  lemma CountIsOne(cs: seq<Commitment>, t: Target)
    ensures CountOf(cs, t) == 1 <==> OnlyOne(cs, t)
  {
    if CountOf(cs, t) == 1 {
      OnceIsOne(cs, t);
    }
    if OnlyOne(cs, t) {
      OneIsOnce(cs, t);
    }
  }

  lemma ResponseTarget(s: ResponseShape)
    requires AllWithin(s.revealed, |s.template|)
    ensures IndicesOf(s.revealed) == set i: nat | i < |s.template| && Covered(s.revealed, i)
  {
    hide IndicesOf, Covered;
    forall i: nat
      ensures i in IndicesOf(s.revealed) <==> Covered(s.revealed, i)
      ensures Covered(s.revealed, i) ==> i < |s.template|
    {
      CoveredIs(s.revealed, i);
      if Covered(s.revealed, i) {
        CoveredWithin(s.revealed, |s.template|, i);
      }
    }
  }

  lemma CoveredWithin(rs: seq<Range>, n: nat, i: nat)
    requires AllWithin(rs, n) && Covered(rs, i)
    ensures i < n
  {
  }

  /** A presentation passes exactly if it is by the expected notary and of the expected server, has one
      attested time in tolerance, shows the request line and the structure and nothing else, and commits to
      what it should and to nothing else. */
  lemma AcceptedIff(p: Presentation, e: Expectation)
    requires AllWithin(e.shape.revealed, e.shape.len) && |e.shape.template| == e.shape.len
    requires p.output.Some? ==> Consistent(p.output.value)
    ensures Passes(p, e) <==>
      && p.key == e.key && p.output.Some?
      && var o := p.output.value;
      && o.serverName == Some(e.shape.serverName) && o.receivedLength == |e.shape.template|
      && (exists tAtt: U64 ::
            && OnlyExtension(o.extensions, Lit("pprev.t_att"), TimeBytes(tAtt))
            && InTolerance(tAtt, o.connectionTime, e.maxSessionSecs))
      && o.transcript.Some? && ShowsOnly(o.transcript.value, e.shape)
      && o.commitments.Some? && CommitsOnly(o.commitments.value, e.shape)
  {
    hide RevealsExactly, CountsMatch, HashesFit, AttestedTime, CheckTimes, AllSha256, ShowsOnly, CommitsOnly, Expected,
      OnlyExtension, TimeBytes, InTolerance, Lit;
    if p.output.Some? {
      var o := p.output.value;
      forall tAtt: U64
        ensures AttestedTime(o) == Ok(tAtt) <==> OnlyExtension(o.extensions, Lit("pprev.t_att"), TimeBytes(tAtt))
        ensures CheckTimes(tAtt, o.connectionTime, e.maxSessionSecs).Ok? <==> InTolerance(tAtt, o.connectionTime, e.maxSessionSecs)
      {
        AttestedTimeIs(o, tAtt);
        ToleranceIs(tAtt, o.connectionTime, e.maxSessionSecs);
      }
      if o.transcript.Some? && o.receivedLength == |e.shape.template| {
        ShowsOnlyIff(o.transcript.value, e.shape);
      }
      if o.commitments.Some? {
        CommitsOnlyIff(o.commitments.value, e.shape);
      }
    }
  }

  /** An accepted attestation commits to the layout's ranges and to nothing else, each exactly once; and
      the hash returned for a hidden range is that of the only commitment to it. */
  lemma AcceptedIsBijection(p: Presentation, e: Expectation)
    requires Sound(e.shape) && AllWithin(e.shape.revealed, e.shape.len)
    requires p.output.Some? ==> Consistent(p.output.value)
    requires Passes(p, e)
    ensures var cs := p.output.value.commitments.value;
      && multiset(Targets(cs)) == multiset(Expected(e.shape))
      && forall i | 0 <= i < |Expected(e.shape)| :: OnlyOne(cs, Expected(e.shape)[i])
  {
    var cs := p.output.value.commitments.value;
    var expected := Expected(e.shape);
    hide Expected, CountOf, Sound, Shows;
    ExpectedDistinct(e.shape);
    CountsMeanPermutation(cs, expected);
    forall i | 0 <= i < |expected|
      ensures OnlyOne(cs, expected[i])
    {
      assert CountOf(cs, expected[i]) == 1;
      OnceIsOne(cs, expected[i]);
    }
  }

  // ---------- An honest prover passes ----------

  /** The transcript a prover presents of the bytes sent and received: exactly the request line and the
      response structure are authenticated, and what is authenticated is true. */
  predicate PresentsTruthfully(t: Transcript, s: ResponseShape, sent: Bytes, received: Bytes) {
    && |t.sent| == |sent| && |t.received| == |received|
    && t.sentAuthed == IndicesIn(Range(0, |s.requestLine|))
    && t.receivedAuthed == IndicesOf(s.revealed)
    && (forall i | 0 <= i < |sent| && i in t.sentAuthed :: t.sent[i] == sent[i])
    && forall i | 0 <= i < |received| && i in t.receivedAuthed :: t.received[i] == received[i]
  }

  lemma TruthReveals(t: Transcript, s: ResponseShape, sent: Bytes, received: Bytes)
    requires Sound(s) && Reveals(s, received) && s.requestLine <= sent && PresentsTruthfully(t, s, sent, received)
    requires AllWithin(s.revealed, |t.received|) && AllWithin(s.revealed, |s.template|)
    ensures RevealsExactly(t, s)
  {
    hide IndicesOf, Sound;
    forall i | 0 <= i < |s.requestLine|
      ensures t.sent[i] == s.requestLine[i]
    {
      assert i in IndicesIn(Range(0, |s.requestLine|));
      assert t.sent[i] == sent[i];
    }
    forall k | 0 <= k < |s.revealed|
      ensures t.received[s.revealed[k].start..s.revealed[k].end] == s.template[s.revealed[k].start..s.revealed[k].end]
    {
      var r := s.revealed[k];
      forall i | r.start <= i < r.end
        ensures t.received[i] == received[i]
      {
        assert i in IndicesIn(r);
        IndicesOfMember(s.revealed, i);
      }
      assert t.received[r.start..r.end] == received[r.start..r.end];
    }
  }

  /** A prover that commits once to the request line, once to the response structure and once to each
      hidden value, in any order, passes every check on the attested times' condition alone. */
  lemma HonestPasses(p: Presentation, e: Expectation, sent: Bytes, received: Bytes)
    requires Sound(e.shape) && AllWithin(e.shape.revealed, e.shape.len)
    requires p.key == e.key && p.output.Some? && Consistent(p.output.value)
    requires var o := p.output.value;
      && o.serverName == Some(e.shape.serverName) && o.receivedLength == |received|
      && o.transcript.Some? && o.commitments.Some?
      && PresentsTruthfully(o.transcript.value, e.shape, sent, received)
      && e.shape.requestLine <= sent && Reveals(e.shape, received)
      && multiset(Targets(o.commitments.value)) == multiset(Expected(e.shape))
      && AllSha256(o.commitments.value)
      && forall k | 0 <= k < |o.commitments.value| :: |o.commitments.value[k].hash| == 32
    ensures Passes(p, e) <==>
      AttestedTime(p.output.value).Ok?
      && CheckTimes(AttestedTime(p.output.value).value, p.output.value.connectionTime, e.maxSessionSecs).Ok?
  {
    hide Expected, CountsMatch, RevealsExactly, Sound, AttestedTime, CheckTimes, IndicesOf;
    var o := p.output.value;
    ExpectedDistinct(e.shape);
    CountsMeanPermutation(o.commitments.value, Expected(e.shape));
    TruthReveals(o.transcript.value, e.shape, sent, received);
  }
}
