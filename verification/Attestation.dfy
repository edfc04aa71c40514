/** The reference encoding of an attestation for on-chain verification: its body fields sorted by id,
    and the root of the Merkle tree over them compared with the signed header's. Both hashes and the
    signature recovery are parameters. */
module Attestation {
  import opened Wrappers
  import opened Bytes
  import opened Merkle

  datatype FieldKind =
    | VerifyingKey
    | ConnectionInfo
    | ServerEphemeralKey
    | CertCommitment
    | Extension
    | TranscriptCommitment

  /** One field of the attestation body: its id and the BCS encoding of its data. */
  datatype BodyField = BodyField(id: nat, data: Bytes)

  datatype Body = Body(
    verifyingKey: BodyField,
    connectionInfo: BodyField,
    serverEphemeralKey: BodyField,
    certCommitment: BodyField,
    extensions: seq<BodyField>,
    transcriptCommitments: seq<BodyField>)

  datatype EncodedField<D> = EncodedField(id: nat, kind: FieldKind, data: Bytes, leaf: D)

  datatype Attestation<D> = Attestation(
    signedForEthereum: bool,
    keccakTree: bool,
    headerRoot: D,
    signature: Bytes,
    body: Body)

  datatype Encoded<D, A> = Encoded(fields: seq<EncodedField<D>>, root: D, signer: A)

  datatype EncodeError = SignatureAlgorithm | TreeAlgorithm | SignatureLength | Unrecoverable | RootDiffers

  /** Leaf hash of a kind and its data, node hash of two digests, and the signer of the header under a
      signature, if it recovers. */
  datatype Crypto<!D, !A> = Crypto(leaf: (FieldKind, Bytes) -> D, node: (D, D) -> D, recover: Bytes -> Option<A>)

  function EncodeField<D, A>(c: Crypto<D, A>, kind: FieldKind, f: BodyField): EncodedField<D> {
    EncodedField(f.id, kind, f.data, c.leaf(kind, f.data))
  }

  function EncodeAll<D, A>(c: Crypto<D, A>, kind: FieldKind, fs: seq<BodyField>): (r: seq<EncodedField<D>>)
    ensures |r| == |fs|
  {
    seq(|fs|, i requires 0 <= i < |fs| => EncodeField(c, kind, fs[i]))
  }

  /** Every field of the body, in the order they are collected. */
  function Collected<D, A>(c: Crypto<D, A>, b: Body): (fs: seq<EncodedField<D>>)
    ensures fs != []
  {
    [EncodeField(c, VerifyingKey, b.verifyingKey), EncodeField(c, ConnectionInfo, b.connectionInfo),
     EncodeField(c, ServerEphemeralKey, b.serverEphemeralKey), EncodeField(c, CertCommitment, b.certCommitment)]
    + EncodeAll(c, Extension, b.extensions) + EncodeAll(c, TranscriptCommitment, b.transcriptCommitments)
  }

  // ---------- The stable sort by id ----------

  function InsertById<D>(f: EncodedField<D>, fs: seq<EncodedField<D>>): (r: seq<EncodedField<D>>)
    ensures r != []
  {
    if fs == [] || f.id <= fs[0].id then [f] + fs else [fs[0]] + InsertById(f, fs[1..])
  }

  function SortById<D>(fs: seq<EncodedField<D>>): (r: seq<EncodedField<D>>)
    ensures fs != [] ==> r != []
  {
    if fs == [] then [] else InsertById(fs[0], SortById(fs[1..]))
  }

  predicate Sorted<D>(fs: seq<EncodedField<D>>) {
    forall i, j | 0 <= i < j < |fs| :: fs[i].id <= fs[j].id
  }

  predicate DistinctIds<D>(fs: seq<EncodedField<D>>) {
    forall i, j | 0 <= i < j < |fs| :: fs[i].id != fs[j].id
  }

  lemma {:induction false} InsertKeepsFields<D>(f: EncodedField<D>, fs: seq<EncodedField<D>>)
    ensures multiset(InsertById(f, fs)) == multiset{f} + multiset(fs)
  {
    if fs != [] {
      assert fs == [fs[0]] + fs[1..];
      if f.id > fs[0].id {
        InsertKeepsFields(f, fs[1..]);
      }
    }
  }

  predicate NoneBelow<D>(fs: seq<EncodedField<D>>, id: nat) {
    forall i | 0 <= i < |fs| :: id <= fs[i].id
  }

  lemma SortedCons<D>(f: EncodedField<D>, fs: seq<EncodedField<D>>)
    requires Sorted(fs) && NoneBelow(fs, f.id)
    ensures Sorted([f] + fs)
  {
    var t := [f] + fs;
    forall i, j | 0 <= i < j < |t|
      ensures t[i].id <= t[j].id
    {
      assert t[j] == fs[j - 1] && (i > 0 ==> t[i] == fs[i - 1]);
    }
  }

  lemma SortedParts<D>(fs: seq<EncodedField<D>>)
    requires fs != [] && Sorted(fs)
    ensures Sorted(fs[1..]) && NoneBelow(fs[1..], fs[0].id)
  {
    TailSorted(fs);
  }

  lemma {:induction false} InsertStaysAbove<D>(f: EncodedField<D>, fs: seq<EncodedField<D>>, id: nat)
    requires NoneBelow(fs, id) && id <= f.id
    ensures NoneBelow(InsertById(f, fs), id)
  {
    if fs != [] && f.id > fs[0].id {
      InsertStaysAbove(f, fs[1..], id);
    }
  }

  lemma NoneBelowLess<D>(fs: seq<EncodedField<D>>, f: EncodedField<D>)
    requires Sorted(fs) && (fs == [] || f.id <= fs[0].id)
    ensures NoneBelow(fs, f.id)
  {
  }

  lemma {:induction false} InsertKeepsOrder<D>(f: EncodedField<D>, fs: seq<EncodedField<D>>)
    requires Sorted(fs)
    ensures Sorted(InsertById(f, fs))
  {
    hide Sorted, NoneBelow;
    if fs != [] && f.id > fs[0].id {
      SortedParts(fs);
      InsertKeepsOrder(f, fs[1..]);
      InsertStaysAbove(f, fs[1..], fs[0].id);
      SortedCons(fs[0], InsertById(f, fs[1..]));
    } else {
      NoneBelowLess(fs, f);
      SortedCons(f, fs);
    }
  }

  /** The sort is sorted and keeps every field. */
  lemma {:induction false} SortSorts<D>(fs: seq<EncodedField<D>>)
    ensures Sorted(SortById(fs)) && multiset(SortById(fs)) == multiset(fs)
  {
    if fs != [] {
      SortSorts(fs[1..]);
      InsertKeepsFields(fs[0], SortById(fs[1..]));
      InsertKeepsOrder(fs[0], SortById(fs[1..]));
      assert fs == [fs[0]] + fs[1..];
    }
  }

  function WithId<D>(fs: seq<EncodedField<D>>, id: nat): seq<EncodedField<D>> {
    if fs == [] then [] else (if fs[0].id == id then [fs[0]] else []) + WithId(fs[1..], id)
  }

  lemma {:induction false} InsertIsStable<D>(f: EncodedField<D>, fs: seq<EncodedField<D>>, id: nat)
    ensures WithId(InsertById(f, fs), id) == WithId([f] + fs, id)
  {
    assert ([f] + fs)[1..] == fs;
    if fs != [] && f.id > fs[0].id {
      InsertIsStable(f, fs[1..], id);
      assert ([f] + fs[1..])[1..] == fs[1..];
      assert ([fs[0]] + InsertById(f, fs[1..]))[1..] == InsertById(f, fs[1..]);
    }
  }

  /** Fields that share an id keep their order. */
  lemma {:induction false} SortIsStable<D>(fs: seq<EncodedField<D>>, id: nat)
    ensures WithId(SortById(fs), id) == WithId(fs, id)
  {
    if fs != [] {
      SortIsStable(fs[1..], id);
      InsertIsStable(fs[0], SortById(fs[1..]), id);
      assert ([fs[0]] + SortById(fs[1..]))[1..] == SortById(fs[1..]);
    }
  }

  lemma WithoutOne<T>(s: seq<T>, i: nat)
    requires i < |s|
    ensures multiset(s) == multiset{s[i]} + multiset(s[..i] + s[i + 1..])
  {
    assert s == s[..i] + [s[i]] + s[i + 1..];
  }

  lemma Cancel<T>(x: T, a: multiset<T>, b: multiset<T>)
    requires multiset{x} + a == multiset{x} + b
    ensures a == b
  {
    assert a == (multiset{x} + a) - multiset{x} && b == (multiset{x} + b) - multiset{x};
  }

  lemma SameHead<D>(a: seq<EncodedField<D>>, b: seq<EncodedField<D>>)
    requires Sorted(a) && Sorted(b) && DistinctIds(a) && multiset(a) == multiset(b) && a != [] && b != []
    ensures a[0] == b[0]
  {
    assert a[0] in multiset(b) && b[0] in multiset(a);
    var i :| 0 <= i < |b| && b[i] == a[0];
    var j :| 0 <= j < |a| && a[j] == b[0];
  }

  lemma HeadAndTail<T>(a: seq<T>)
    requires a != []
    ensures a == [a[0]] + a[1..] && a[..0] + a[1..] == a[1..]
  {
  }

  lemma TailSorted<D>(a: seq<EncodedField<D>>)
    requires a != [] && Sorted(a)
    ensures Sorted(a[1..])
  {
    var t := a[1..];
    forall i, j | 0 <= i < j < |t|
      ensures t[i].id <= t[j].id
    {
      assert a[i + 1].id <= a[j + 1].id;
    }
  }

  lemma TailDistinct<D>(a: seq<EncodedField<D>>)
    requires a != [] && DistinctIds(a)
    ensures DistinctIds(a[1..])
  {
    var t := a[1..];
    forall i, j | 0 <= i < j < |t|
      ensures t[i].id != t[j].id
    {
      assert a[i + 1].id != a[j + 1].id;
    }
  }

  lemma {:induction false} SortedIsUnique<D>(a: seq<EncodedField<D>>, b: seq<EncodedField<D>>)
    requires Sorted(a) && Sorted(b) && DistinctIds(a) && multiset(a) == multiset(b)
    ensures a == b
  {
    hide Sorted, DistinctIds;
    assert |multiset(a)| == |a| && |multiset(b)| == |b|;
    if a != [] {
      SameHead(a, b);
      WithoutOne(a, 0);
      WithoutOne(b, 0);
      TailSorted(a);
      TailSorted(b);
      TailDistinct(a);
      HeadAndTail(a);
      HeadAndTail(b);
      Cancel(a[0], multiset(a[1..]), multiset(b[1..]));
      SortedIsUnique(a[1..], b[1..]);
    }
  }

  lemma SortForgetsOrder<D>(a: seq<EncodedField<D>>, b: seq<EncodedField<D>>)
    requires DistinctIds(a) && multiset(a) == multiset(b)
    ensures SortById(a) == SortById(b)
  {
    SortSorts(a);
    SortSorts(b);
    DistinctAsMultiset(a, SortById(a));
    SortedIsUnique(SortById(a), SortById(b));
  }

  lemma {:induction false} DistinctAsMultiset<D>(a: seq<EncodedField<D>>, b: seq<EncodedField<D>>)
    requires DistinctIds(a) && multiset(a) == multiset(b)
    ensures DistinctIds(b)
  {
    forall i, j | 0 <= i < j < |b|
      ensures b[i].id != b[j].id
    {
      assert b == b[..i] + [b[i]] + b[i + 1..j] + [b[j]] + b[j + 1..];
      assert b[i] in multiset(a) && b[j] in multiset(a);
      var p :| 0 <= p < |a| && a[p] == b[i];
      var q :| 0 <= q < |a| && a[q] == b[j];
      if p == q {
        assert multiset(b)[b[i]] >= 2;
        AtMostOnce(a, p);
      }
    }
  }

  lemma AtMostOnce<D>(a: seq<EncodedField<D>>, p: nat)
    requires DistinctIds(a) && p < |a|
    ensures multiset(a)[a[p]] == 1
  {
    assert a == a[..p] + [a[p]] + a[p + 1..];
    assert a[p] !in a[..p] && a[p] !in a[p + 1..];
  }

  // ---------- The encoding ----------

  function Leaves<D>(fs: seq<EncodedField<D>>): (r: seq<D>)
    ensures |r| == |fs|
  {
    seq(|fs|, i requires 0 <= i < |fs| => fs[i].leaf)
  }

  const ECRECOVER_LENGTH := 65

  /** tlsn writes v as 0 or 1; recovery expects 27 or 28. */
  function ForRecovery(signature: Bytes): Bytes
    requires |signature| == ECRECOVER_LENGTH
  {
    if signature[64] < 27 then signature[64 := signature[64] + 27] else signature
  }

  /** What `encode` answers for an attestation. */
  function Encoding<D(==), A>(c: Crypto<D, A>, a: Attestation<D>): Result<Encoded<D, A>, EncodeError> {
    if !a.signedForEthereum then Err(SignatureAlgorithm)
    else if !a.keccakTree then Err(TreeAlgorithm)
    else
      var fields := SortById(Collected(c, a.body));
      var root := TreeHash(c.node, Leaves(fields));
      if |a.signature| != ECRECOVER_LENGTH then Err(SignatureLength)
      else match c.recover(ForRecovery(a.signature))
        case None => Err(Unrecoverable)
        case Some(signer) => if a.headerRoot != root then Err(RootDiffers) else Ok(Encoded(fields, root, signer))
  }

  method Encode<D(0, ==), A>(c: Crypto<D, A>, a: Attestation<D>) returns (r: Result<Encoded<D, A>, EncodeError>)
    ensures r == Encoding(c, a)
  {
    if !a.signedForEthereum {
      return Err(SignatureAlgorithm);
    }
    if !a.keccakTree {
      return Err(TreeAlgorithm);
    }
    var b := a.body;
    var fields := [
      EncodeField(c, VerifyingKey, b.verifyingKey), EncodeField(c, ConnectionInfo, b.connectionInfo),
      EncodeField(c, ServerEphemeralKey, b.serverEphemeralKey), EncodeField(c, CertCommitment, b.certCommitment)];
    ghost var first := fields;
    for i := 0 to |b.extensions|
      invariant fields == first + EncodeAll(c, Extension, b.extensions)[..i]
    {
      fields := fields + [EncodeField(c, Extension, b.extensions[i])];
    }
    ghost var second := fields;
    for i := 0 to |b.transcriptCommitments|
      invariant fields == second + EncodeAll(c, TranscriptCommitment, b.transcriptCommitments)[..i]
    {
      fields := fields + [EncodeField(c, TranscriptCommitment, b.transcriptCommitments[i])];
    }
    assert fields == Collected(c, b);
    fields := SortById(fields);
    var root := MerkleRoot(c.node, Leaves(fields));
    if |a.signature| != ECRECOVER_LENGTH {
      return Err(SignatureLength);
    }
    var signer := c.recover(ForRecovery(a.signature));
    if signer.None? {
      return Err(Unrecoverable);
    }
    if a.headerRoot != root.value {
      return Err(RootDiffers);
    }
    r := Ok(Encoded(fields, root.value, signer.value));
  }

  lemma EncodeAllWithoutOne<D, A>(c: Crypto<D, A>, kind: FieldKind, s: seq<BodyField>, i: nat)
    requires i < |s|
    ensures multiset(EncodeAll(c, kind, s))
      == multiset{EncodeField(c, kind, s[i])} + multiset(EncodeAll(c, kind, s[..i] + s[i + 1..]))
  {
    var e := EncodeAll(c, kind, s);
    WithoutOne(e, i);
    assert e[..i] + e[i + 1..] == EncodeAll(c, kind, s[..i] + s[i + 1..]);
  }

  lemma WithoutFirst<T>(a: seq<T>, b: seq<T>) returns (i: nat)
    requires a != [] && multiset(a) == multiset(b)
    ensures i < |b| && b[i] == a[0] && multiset(a[..0] + a[1..]) == multiset(b[..i] + b[i + 1..])
  {
    assert a[0] in multiset(b);
    i :| 0 <= i < |b| && b[i] == a[0];
    WithoutOne(a, 0);
    WithoutOne(b, i);
    Cancel(a[0], multiset(a[..0] + a[1..]), multiset(b[..i] + b[i + 1..]));
  }

  lemma {:induction false} EncodeAllPermutes<D, A>(c: Crypto<D, A>, kind: FieldKind, a: seq<BodyField>, b: seq<BodyField>)
    requires multiset(a) == multiset(b)
    ensures multiset(EncodeAll(c, kind, a)) == multiset(EncodeAll(c, kind, b))
    decreases |a|
  {
    hide EncodeAll, EncodeField;
    if a == [] {
      assert |multiset(b)| == |b|;
      assert b == [];
    } else {
      var i := WithoutFirst(a, b);
      EncodeAllPermutes(c, kind, a[..0] + a[1..], b[..i] + b[i + 1..]);
      EncodeAllWithoutOne(c, kind, a, 0);
      EncodeAllWithoutOne(c, kind, b, i);
    }
  }

  /** The order of the extensions and of the transcript commitments in the body does not matter. */
  lemma OrderDoesNotMatter<D, A>(c: Crypto<D, A>, a: Attestation<D>, extensions: seq<BodyField>, commitments: seq<BodyField>)
    requires DistinctIds(Collected(c, a.body))
    requires multiset(extensions) == multiset(a.body.extensions)
    requires multiset(commitments) == multiset(a.body.transcriptCommitments)
    ensures Encoding(c, a.(body := a.body.(extensions := extensions, transcriptCommitments := commitments))) == Encoding(c, a)
  {
    EncodeAllPermutes(c, Extension, extensions, a.body.extensions);
    EncodeAllPermutes(c, TranscriptCommitment, commitments, a.body.transcriptCommitments);
    var other := a.body.(extensions := extensions, transcriptCommitments := commitments);
    SortForgetsOrder(Collected(c, a.body), Collected(c, other));
  }

  /** Two leaf preimages with one leaf hash. */
  ghost predicate LeafCollision<D, A>(c: Crypto<D, A>, f: EncodedField<D>, g: EncodedField<D>) {
    (f.kind, f.data) != (g.kind, g.data) && c.leaf(f.kind, f.data) == c.leaf(g.kind, g.data)
  }

  ghost predicate SameContents<D>(a: seq<EncodedField<D>>, b: seq<EncodedField<D>>) {
    |a| == |b| && forall i | 0 <= i < |a| :: a[i].kind == b[i].kind && a[i].data == b[i].data
  }

  lemma SortedLeaves<D, A>(c: Crypto<D, A>, b: Body)
    ensures forall f | f in SortById(Collected(c, b)) :: f.leaf == c.leaf(f.kind, f.data)
  {
    var fs := Collected(c, b);
    SortSorts(fs);
    forall f | f in SortById(fs)
      ensures f.leaf == c.leaf(f.kind, f.data)
    {
      assert f in multiset(fs);
    }
  }

  /** The signed root binds the fields: two accepted attestations with one header root and equally many
      fields carry the same kinds and data in the same order, or else show a collision of the node hash
      or of the leaf hash. */
  lemma HeaderRootBinds<D(!new), A(!new)>(c: Crypto<D, A>, a: Attestation<D>, b: Attestation<D>)
    returns (x: Option<Collision<D>>)
    requires Encoding(c, a).Ok? && Encoding(c, b).Ok? && a.headerRoot == b.headerRoot
    requires |Encoding(c, a).value.fields| == |Encoding(c, b).value.fields|
    ensures var (fa, fb) := (Encoding(c, a).value.fields, Encoding(c, b).value.fields);
      || SameContents(fa, fb)
      || (x.Some? && Collides(c.node, x.value))
      || exists i | 0 <= i < |fa| :: LeafCollision(c, fa[i], fb[i])
  {
    var (fa, fb) := (Encoding(c, a).value.fields, Encoding(c, b).value.fields);
    SortedLeaves(c, a.body);
    SortedLeaves(c, b.body);
    x := None;
    if Leaves(fa) != Leaves(fb) {
      var found := RootBinds(c.node, Leaves(fa), Leaves(fb));
      x := Some(found);
    } else {
      forall i | 0 <= i < |fa| && !LeafCollision(c, fa[i], fb[i])
        ensures fa[i].kind == fb[i].kind && fa[i].data == fb[i].data
      {
        assert Leaves(fa)[i] == Leaves(fb)[i];
      }
    }
  }

  // ---------- What an accepted encoding holds ----------

  /** Which attestations are refused, and for what first. */
  lemma EncodeErrors<D, A>(c: Crypto<D, A>, a: Attestation<D>)
    ensures Encoding(c, a) == Err(SignatureAlgorithm) <==> !a.signedForEthereum
    ensures Encoding(c, a) == Err(TreeAlgorithm) <==> a.signedForEthereum && !a.keccakTree
    ensures Encoding(c, a) == Err(SignatureLength) <==> a.signedForEthereum && a.keccakTree && |a.signature| != 65
  {
    hide Collected, SortById, TreeHash;
  }

  /** The signer recovered is that of the signature with v as recovery expects it: 0 and 1 become 27 and 28,
      27 and more stay, and no other byte changes. */
  lemma SignerOf<D, A>(c: Crypto<D, A>, a: Attestation<D>)
    requires Encoding(c, a).Ok?
    ensures a.signedForEthereum && a.keccakTree && |a.signature| == 65
    ensures a.signature[64] == 0 ==> c.recover(a.signature[..64] + [27]) == Some(Encoding(c, a).value.signer)
    ensures a.signature[64] == 1 ==> c.recover(a.signature[..64] + [28]) == Some(Encoding(c, a).value.signer)
    ensures 27 <= a.signature[64] ==> c.recover(a.signature) == Some(Encoding(c, a).value.signer)
  {
    hide Collected, SortById, TreeHash;
    var s := a.signature;
    assert s[64] == 0 ==> s[64 := 27] == s[..64] + [27];
    assert s[64] == 1 ==> s[64 := 28] == s[..64] + [28];
  }

  /** Each field of the body is encoded exactly once, under its own kind, with the leaf hash of that kind and
      its data, and nothing else is; the root is the signed header's. */
  lemma EncodedFields<D, A>(c: Crypto<D, A>, a: Attestation<D>)
    requires Encoding(c, a).Ok?
    ensures var (b, e) := (a.body, Encoding(c, a).value);
      && Sorted(e.fields) && e.root == a.headerRoot == TreeHash(c.node, Leaves(e.fields))
      && multiset(e.fields) ==
           multiset{
             EncodedField(b.verifyingKey.id, VerifyingKey, b.verifyingKey.data, c.leaf(VerifyingKey, b.verifyingKey.data)),
             EncodedField(b.connectionInfo.id, ConnectionInfo, b.connectionInfo.data, c.leaf(ConnectionInfo, b.connectionInfo.data)),
             EncodedField(b.serverEphemeralKey.id, ServerEphemeralKey, b.serverEphemeralKey.data,
               c.leaf(ServerEphemeralKey, b.serverEphemeralKey.data)),
             EncodedField(b.certCommitment.id, CertCommitment, b.certCommitment.data, c.leaf(CertCommitment, b.certCommitment.data))}
           + multiset(seq(|b.extensions|, i requires 0 <= i < |b.extensions| =>
               EncodedField(b.extensions[i].id, Extension, b.extensions[i].data, c.leaf(Extension, b.extensions[i].data))))
           + multiset(seq(|b.transcriptCommitments|, i requires 0 <= i < |b.transcriptCommitments| =>
               EncodedField(b.transcriptCommitments[i].id, TranscriptCommitment, b.transcriptCommitments[i].data,
                 c.leaf(TranscriptCommitment, b.transcriptCommitments[i].data))))
  {
    hide SortById, TreeHash;
    var b := a.body;
    SortSorts(Collected(c, b));
    assert EncodeAll(c, Extension, b.extensions) == seq(|b.extensions|, i requires 0 <= i < |b.extensions| =>
      EncodedField(b.extensions[i].id, Extension, b.extensions[i].data, c.leaf(Extension, b.extensions[i].data)));
    assert EncodeAll(c, TranscriptCommitment, b.transcriptCommitments)
      == seq(|b.transcriptCommitments|, i requires 0 <= i < |b.transcriptCommitments| =>
           EncodedField(b.transcriptCommitments[i].id, TranscriptCommitment, b.transcriptCommitments[i].data,
             c.leaf(TranscriptCommitment, b.transcriptCommitments[i].data)));
  }
}
