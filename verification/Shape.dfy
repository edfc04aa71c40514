/** What prover and policy verifier agree on for one exchange, title or record: the request, the reference
    response, and which of its bytes are shown and which stay hidden. */
module Shape {
  import opened Bytes
  import opened Pieces

  datatype ResponseShape = ResponseShape(
    serverName: Bytes,
    path: Bytes,
    requestLine: Bytes,
    template: Bytes,
    len: nat,
    revealed: seq<Range>,
    hidden: seq<Range>)

  /** The request's first line, up to its line end. */
  function RequestLine(path: Bytes): Bytes {
    Lit("GET ") + path + Lit(" HTTP/1.1")
  }

  predicate Apart(rs: seq<Range>) {
    forall i, j | 0 <= i < j < |rs| :: Disjoint(rs[i], rs[j])
  }

  predicate AllWithin(rs: seq<Range>, n: nat) {
    forall i | 0 <= i < |rs| :: rs[i].Within(n)
  }

  /** Revealed and hidden ranges lie in the template and never overlap, and something is hidden at every
      hidden range. */
  predicate Sound(s: ResponseShape) {
    && |s.template| == s.len
    && AllWithin(s.revealed + s.hidden, s.len)
    && Apart(s.revealed + s.hidden)
    && forall i | 0 <= i < |s.hidden| :: s.hidden[i].start < s.hidden[i].end
  }

  /** `bytes` shows at every revealed range what the template shows. */
  predicate Reveals(s: ResponseShape, bytes: Bytes) {
    && |bytes| == s.len == |s.template|
    && forall i | 0 <= i < |s.revealed| ::
         var r := s.revealed[i];
         r.Within(s.len) && bytes[r.start..r.end] == s.template[r.start..r.end]
  }

  lemma SoundRevealed(s: ResponseShape)
    requires Sound(s)
    ensures AllWithin(s.revealed, s.len)
  {
    var all := s.revealed + s.hidden;
    forall i | 0 <= i < |s.revealed|
      ensures s.revealed[i].Within(s.len)
    {
      assert all[i] == s.revealed[i];
    }
  }

  lemma ApartConcat(a: seq<Range>, b: seq<Range>)
    requires Apart(a) && Apart(b)
    requires forall i, j | 0 <= i < |a| && 0 <= j < |b| :: Disjoint(a[i], b[j])
    ensures Apart(a + b)
  {
    var c := a + b;
    forall i, j | 0 <= i < j < |c|
      ensures Disjoint(c[i], c[j])
    {
      if i < |a| && j >= |a| {
        assert Disjoint(a[i], b[j - |a|]);
      } else if i >= |a| {
        assert Disjoint(b[i - |a|], b[j - |a|]);
      }
    }
  }

  lemma InOrderApart(rs: seq<Range>)
    requires InOrder(rs)
    ensures Apart(rs)
  {
  }

  /** No range of `s` meets a range of `t`. */
  predicate Clear(s: seq<Range>, t: seq<Range>) {
    forall a, b | a in s && b in t :: Disjoint(a, b)
  }

  lemma ClearConcat(a: seq<Range>, b: seq<Range>)
    requires Apart(a) && Apart(b) && Clear(a, b)
    ensures Apart(a + b)
  {
    ApartConcat(a, b);
  }

  lemma ClearSum(a: seq<Range>, b: seq<Range>, c: seq<Range>)
    requires Clear(a, c) && Clear(b, c)
    ensures Clear(a + b, c)
  {
  }

  lemma KindsClear(ps: seq<Piece>, s: Tag, t: Tag)
    requires s != t
    ensures Clear(RangesOf(ps, s, 0), RangesOf(ps, t, 0))
  {
    KindsDisjoint(ps, s, t, 0);
  }

  lemma KindWithin(ps: seq<Piece>, t: Tag)
    ensures AllWithin(RangesOf(ps, t, 0), |Flatten(ps)|)
  {
    hide RangesOf, Flatten;
    RangesWithin(ps, t, 0);
    var rs := RangesOf(ps, t, 0);
    assert forall i | 0 <= i < |rs| :: rs[i] in rs;
  }

  lemma KindApart(ps: seq<Piece>, t: Tag)
    ensures Apart(RangesOf(ps, t, 0))
  {
    KindInOrder(ps, t, 0);
    InOrderApart(RangesOf(ps, t, 0));
  }
}
