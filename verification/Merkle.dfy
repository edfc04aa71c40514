/** The Merkle tree over an attestation's body fields: a bottom-up loop over layers, in which the
    last node of an odd layer goes up as it is. The node hash is a parameter. */
module Merkle {
  import opened Wrappers

  datatype MerkleError = NoLeaves

  /** One layer up: hashed pairs, and the last node alone if the count is odd. */
  function PairUp<D>(hash: (D, D) -> D, layer: seq<D>): (up: seq<D>)
    ensures layer != [] ==> up != []
  {
    if |layer| <= 1 then layer else [hash(layer[0], layer[1])] + PairUp(hash, layer[2..])
  }

  lemma {:induction false} PairUpLength<D>(hash: (D, D) -> D, layer: seq<D>)
    ensures |PairUp(hash, layer)| == (|layer| + 1) / 2
  {
    if |layer| > 1 {
      PairUpLength(hash, layer[2..]);
    }
  }

  /** The largest power of two below `n`. */
  function SplitPoint(n: nat): (k: nat)
    requires 2 <= n
    ensures 0 < k < n <= 2 * k
  {
    if n == 2 then 1 else 2 * SplitPoint((n + 1) / 2)
  }

  ghost predicate IsPowerOfTwo(k: nat) {
    k == 1 || (0 < k && k % 2 == 0 && IsPowerOfTwo(k / 2))
  }

  /** The recursive tree shape of RFC 6962, section 2.1, without its prefixes. */
  function TreeHash<D>(hash: (D, D) -> D, leaves: seq<D>): D
    requires leaves != []
    decreases |leaves|
  {
    if |leaves| == 1 then leaves[0]
    else
      var k := SplitPoint(|leaves|);
      hash(TreeHash(hash, leaves[..k]), TreeHash(hash, leaves[k..]))
  }

  lemma {:induction false} SplitPointIsPower(n: nat)
    requires 2 <= n
    ensures IsPowerOfTwo(SplitPoint(n))
  {
    if n > 2 {
      SplitPointIsPower((n + 1) / 2);
    }
  }

  lemma {:induction false} PairUpSplits<D>(hash: (D, D) -> D, a: seq<D>, b: seq<D>)
    requires |a| % 2 == 0
    ensures PairUp(hash, a + b) == PairUp(hash, a) + PairUp(hash, b)
  {
    if a == [] {
      assert a + b == b;
    } else {
      assert (a + b)[2..] == a[2..] + b;
      PairUpSplits(hash, a[2..], b);
    }
  }

  lemma PairUpTwo<D>(hash: (D, D) -> D, leaves: seq<D>)
    requires |leaves| == 2
    ensures TreeHash(hash, PairUp(hash, leaves)) == TreeHash(hash, leaves)
  {
    assert leaves[2..] == [] && PairUp(hash, leaves) == [hash(leaves[0], leaves[1])];
    assert leaves[..1] == [leaves[0]] && leaves[1..] == [leaves[1]];
  }

  /** Which way round the small trees are hashed. */
  lemma SmallTrees<D>(hash: (D, D) -> D, a: D, b: D, c: D)
    ensures TreeHash(hash, [a]) == a
    ensures TreeHash(hash, [a, b]) == hash(a, b)
    ensures TreeHash(hash, [a, b, c]) == hash(hash(a, b), c)
  {
    assert [a, b][..1] == [a] && [a, b][1..] == [b];
    assert [a, b, c][..2] == [a, b] && [a, b, c][2..] == [c];
    assert SplitPoint(2) == 1 && SplitPoint(3) == 2;
  }

  lemma TreeSplits<D>(hash: (D, D) -> D, leaves: seq<D>, k: nat)
    requires 2 <= |leaves| && k == SplitPoint(|leaves|)
    ensures TreeHash(hash, leaves) == hash(TreeHash(hash, leaves[..k]), TreeHash(hash, leaves[k..]))
  {
    hide SplitPoint;
  }

  lemma Halves<T>(a: seq<T>, b: seq<T>)
    ensures (a + b)[..|a|] == a && (a + b)[|a|..] == b
  {
  }

  lemma TreeJoin<D>(hash: (D, D) -> D, a: seq<D>, b: seq<D>)
    requires a != [] && b != [] && |a| == SplitPoint(|a| + |b|)
    ensures TreeHash(hash, a + b) == hash(TreeHash(hash, a), TreeHash(hash, b))
  {
    hide SplitPoint, TreeHash;
    TreeSplits(hash, a + b, |a|);
    Halves(a, b);
  }

  lemma SplitPointHalves(n: nat, h: nat)
    requires 2 < n && h == SplitPoint((n + 1) / 2)
    ensures SplitPoint(n) == 2 * h && 0 < 2 * h < n
    ensures (2 * h + 1) / 2 == h && h + (n - 2 * h + 1) / 2 == (n + 1) / 2 && 0 < (n - 2 * h + 1) / 2
  {
  }

  /** One layer up splits where the tree splits. */
  lemma PairUpAtSplit<D>(hash: (D, D) -> D, leaves: seq<D>) returns (a: seq<D>, b: seq<D>)
    requires 2 < |leaves|
    ensures leaves == a + b && a != [] && b != [] && |a| == SplitPoint(|leaves|)
    ensures var (a', b') := (PairUp(hash, a), PairUp(hash, b));
      PairUp(hash, leaves) == a' + b' && a' != [] && b' != [] && |a'| == SplitPoint(|a'| + |b'|)
  {
    hide PairUp, SplitPoint;
    var h := SplitPoint((|leaves| + 1) / 2);
    SplitPointHalves(|leaves|, h);
    a, b := leaves[..2 * h], leaves[2 * h..];
    assert leaves == a + b;
    PairUpSplits(hash, a, b);
    PairUpLength(hash, a);
    PairUpLength(hash, b);
  }

  lemma JoinedKeepRoot<D>(hash: (D, D) -> D, a: seq<D>, b: seq<D>, a': seq<D>, b': seq<D>)
    requires a != [] && b != [] && |a| == SplitPoint(|a| + |b|)
    requires a' != [] && b' != [] && |a'| == SplitPoint(|a'| + |b'|)
    requires TreeHash(hash, a') == TreeHash(hash, a) && TreeHash(hash, b') == TreeHash(hash, b)
    ensures TreeHash(hash, a' + b') == TreeHash(hash, a + b)
  {
    hide SplitPoint, TreeHash;
    TreeJoin(hash, a, b);
    TreeJoin(hash, a', b');
  }

  /** Hashing one layer does not change the tree's root. */
  lemma {:induction false} PairUpKeepsRoot<D>(hash: (D, D) -> D, leaves: seq<D>)
    requires leaves != []
    ensures TreeHash(hash, PairUp(hash, leaves)) == TreeHash(hash, leaves)
    decreases |leaves|
  {
    hide PairUp, SplitPoint, TreeHash;
    if |leaves| == 1 {
      SingleMovesUp(hash, leaves);
    } else if |leaves| == 2 {
      PairUpTwo(hash, leaves);
    } else {
      var a, b := PairUpAtSplit(hash, leaves);
      PairUpKeepsRoot(hash, a);
      PairUpKeepsRoot(hash, b);
      JoinedKeepRoot(hash, a, b, PairUp(hash, a), PairUp(hash, b));
    }
  }

  lemma SingleMovesUp<D>(hash: (D, D) -> D, layer: seq<D>)
    requires |layer| <= 1
    ensures PairUp(hash, layer) == layer
  {
  }

  /** The root, layer by layer from the leaves. */
  method MerkleRoot<D(0)>(hash: (D, D) -> D, leaves: seq<D>) returns (r: Result<D, MerkleError>)
    ensures r == if leaves == [] then Err(NoLeaves) else Ok(TreeHash(hash, leaves))
  {
    if leaves == [] {
      return Err(NoLeaves);
    }
    var layer := leaves;
    while |layer| > 1
      invariant layer != [] && TreeHash(hash, layer) == TreeHash(hash, leaves)
      decreases |layer|
    {
      PairUpKeepsRoot(hash, layer);
      PairUpLength(hash, layer);
      layer := PairUp(hash, layer);
    }
    r := Ok(layer[0]);
  }

  /** Two different pairs with the same hash. */
  datatype Collision<D> = Collision(a: D, b: D, c: D, d: D)

  ghost predicate Collides<D(!new)>(hash: (D, D) -> D, x: Collision<D>) {
    (x.a, x.b) != (x.c, x.d) && hash(x.a, x.b) == hash(x.c, x.d)
  }

  /** Binding: two different leaf lists of one length with the same root hand over a collision of the
      node hash. */
  lemma {:induction false} RootBinds<D(!new)>(hash: (D, D) -> D, s: seq<D>, t: seq<D>) returns (x: Collision<D>)
    requires |s| == |t| && s != [] && s != t && TreeHash(hash, s) == TreeHash(hash, t)
    ensures Collides(hash, x)
    decreases |s|
  {
    if |s| == 1 {
      assert false;
    }
    var k := SplitPoint(|s|);
    var (s0, s1) := (TreeHash(hash, s[..k]), TreeHash(hash, s[k..]));
    var (t0, t1) := (TreeHash(hash, t[..k]), TreeHash(hash, t[k..]));
    x := Collision(s0, s1, t0, t1);
    if (s0, s1) == (t0, t1) {
      if s[..k] == t[..k] {
        assert s == s[..k] + s[k..] && t == t[..k] + t[k..];
        x := RootBinds(hash, s[k..], t[k..]);
      } else {
        x := RootBinds(hash, s[..k], t[..k]);
      }
    }
  }

  /** The root says nothing about the number of leaves: a list of two shares its root with the list of
      the node above them. */
  lemma LengthsCanCoincide<D>(hash: (D, D) -> D, a: D, b: D)
    ensures TreeHash(hash, [a, b]) == TreeHash(hash, [hash(a, b)])
  {
    assert [a, b][..1] == [a] && [a, b][1..] == [b];
  }
}
