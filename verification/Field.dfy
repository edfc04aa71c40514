/** How 32-byte values become public inputs: numerals below the order of the BN254 scalar field. */
module Field {
  import opened Wrappers
  import opened Bytes
  import opened Text

  /** Order of the BN254 scalar field. */
  const R: nat := 21888242871839275222246405745257275088548364400416034343698204186575808495617

  /** The same number in hexadecimal. */
  lemma FieldOrder()
    ensures R == 0x30644e72e131a029b85045b68181585d2833e84879b9709143e1f593f0000001
  {
  }

  const TWO_64: nat := 0x1_0000_0000_0000_0000
  const TWO_128: nat := TWO_64 * TWO_64
  const TWO_248: nat := 0x100_0000_0000_0000 * TWO_64 * TWO_64 * TWO_64

  function Pow256(n: nat): (p: nat)
    ensures p > 0
  {
    if n == 0 then 1 else 256 * Pow256(n - 1)
  }

  /** The value of big-endian bytes. */
  function BigEndian(b: Bytes): nat {
    if b == [] then 0 else 256 * BigEndian(b[..|b| - 1]) + b[|b| - 1] as nat
  }

  lemma {:induction false} BigEndianBelow(b: Bytes)
    ensures BigEndian(b) < Pow256(|b|)
  {
    if b != [] {
      BigEndianBelow(b[..|b| - 1]);
    }
  }

  /** Bytes of known length are determined by their value. */
  lemma {:induction false} BigEndianInjective(a: Bytes, b: Bytes)
    requires |a| == |b| && BigEndian(a) == BigEndian(b)
    ensures a == b
  {
    if a != [] {
      var n := |a| - 1;
      BigEndianInjective(a[..n], b[..n]);
      assert a == a[..n] + [a[n]] && b == b[..n] + [b[n]];
    }
  }

  lemma MulAdd(x: nat, y: nat, p: nat, z: nat, q: nat)
    requires q == 256 * p
    ensures 256 * (x * p + y) + z == x * q + (256 * y + z)
  {
    calc {
      256 * (x * p + y) + z;
      256 * (x * p) + 256 * y + z;
      x * (256 * p) + 256 * y + z;
    }
  }

  lemma {:induction false} BigEndianConcat(a: Bytes, b: Bytes)
    ensures BigEndian(a + b) == BigEndian(a) * Pow256(|b|) + BigEndian(b)
  {
    if b == [] {
      assert a + b == a;
    } else {
      var n := |b| - 1;
      assert (a + b)[..|a + b| - 1] == a + b[..n];
      BigEndianConcat(a, b[..n]);
      MulAdd(BigEndian(a), BigEndian(b[..n]), Pow256(n), b[n] as nat, Pow256(n + 1));
    }
  }

  lemma Powers()
    ensures Pow256(8) == TWO_64
    ensures Pow256(16) == TWO_128
    ensures Pow256(31) == TWO_248
  {
    assert Pow256(4) == 0x1_0000_0000;
    assert Pow256(8) == 0x1_0000_0000 * Pow256(4);
    assert Pow256(12) == 0x1_0000_0000 * Pow256(8);
    assert Pow256(16) == 0x1_0000_0000 * Pow256(12);
    assert Pow256(20) == 0x1_0000_0000 * Pow256(16);
    assert Pow256(24) == 0x1_0000_0000 * Pow256(20);
    assert Pow256(28) == 0x1_0000_0000 * Pow256(24);
    assert Pow256(31) == 0x100_0000 * Pow256(28);
  }

  /** A public input: the shortest numeral of a field element. */
  predicate IsElement(s: string) {
    AllDigits(s) && Value(s) < R && s == Decimal(Value(s))
  }

  lemma ElementOf(n: nat)
    requires n < R
    ensures IsElement(Decimal(n))
  {
  }

  // ---------- Limbs ----------

  /** `limbs`: the two 128-bit halves, most significant first. */
  function Limbs(word: Word): (r: seq<string>)
    ensures |r| == 2
  {
    [Decimal(BigEndian(word[..16])), Decimal(BigEndian(word[16..]))]
  }

  lemma LimbsAreElements(word: Word)
    ensures IsElement(Limbs(word)[0]) && IsElement(Limbs(word)[1])
  {
    hide BigEndian, Pow256, Decimal, Value;
    Powers();
    BigEndianBelow(word[..16]);
    BigEndianBelow(word[16..]);
  }

  /** No information is lost: equal limbs are the limbs of equal words. */
  lemma LimbsInjective(a: Word, b: Word)
    requires Limbs(a) == Limbs(b)
    ensures a == b
  {
    hide BigEndian, Decimal, Value;
    assert Limbs(a)[0] == Limbs(b)[0] && Limbs(a)[1] == Limbs(b)[1];
    assert BigEndian(a[..16]) == Value(Limbs(a)[0]) && BigEndian(b[..16]) == Value(Limbs(b)[0]);
    assert BigEndian(a[16..]) == Value(Limbs(a)[1]) && BigEndian(b[16..]) == Value(Limbs(b)[1]);
    BigEndianInjective(a[..16], b[..16]);
    BigEndianInjective(a[16..], b[16..]);
    assert a == a[..16] + a[16..] && b == b[..16] + b[16..];
  }

  /** The two limbs denote the word. */
  lemma LimbsDenote(word: Word)
    ensures AllDigits(Limbs(word)[0]) && AllDigits(Limbs(word)[1])
    ensures Value(Limbs(word)[0]) * TWO_128 + Value(Limbs(word)[1]) == BigEndian(word)
    ensures Value(Limbs(word)[1]) < TWO_128
  {
    hide BigEndian, Pow256, Decimal, Value;
    Powers();
    BigEndianConcat(word[..16], word[16..]);
    BigEndianBelow(word[16..]);
    assert word == word[..16] + word[16..];
  }

  // ---------- Reduced and canonical values ----------

  /** `bind_value`: the digest modulo the field order. */
  function BindValue(digest: Word): string {
    Decimal(BigEndian(digest) % R)
  }

  /** Two digests bind alike exactly if they differ by a multiple of the field order. */
  lemma BindAlikeIff(a: Word, b: Word)
    ensures IsElement(BindValue(a))
    ensures BindValue(a) == BindValue(b) <==> (BigEndian(a) - BigEndian(b)) % R == 0
  {
    hide BigEndian, Decimal, Value;
    var x, y := BigEndian(a), BigEndian(b);
    assert Value(BindValue(a)) == x % R && Value(BindValue(b)) == y % R;
    SameResidue(x, y, R);
  }

  lemma SameResidue(x: nat, y: nat, m: nat)
    requires m > 0
    ensures x % m == y % m <==> (x - y) % m == 0
  {
    var q: int := x / m - y / m;
    var d: int := x % m - y % m;
    var k: int := (x - y) / m;
    var rest: int := (x - y) % m;
    assert x == m * (x / m) + x % m && y == m * (y / m) + y % m;
    assert m * q == m * (x / m) - m * (y / m);
    assert x - y == m * k + rest;
    assert m * (k - q) == m * k - m * q == d - rest;
    MultiplesAreFar(m, k - q);
  }

  lemma MultiplesAreFar(m: int, k: int)
    requires m >= 0
    ensures k == 0 || m <= m * k || m * k + m <= 0
  {
    if k >= 1 {
      assert m * k == m + m * (k - 1);
    } else if k <= -1 {
      assert m * k + m == m * (k + 1);
    }
  }

  /** `field_element`: a word at or above the field order would alias a smaller one and is refused. */
  function FieldElement(word: Word): Option<string> {
    if BigEndian(word) < R then Some(Decimal(BigEndian(word))) else None
  }

  /** Accepted words are canonical: their numeral is an element and no other word has it. */
  lemma FieldElementInjective(a: Word, b: Word)
    requires FieldElement(a).Some?
    ensures IsElement(FieldElement(a).value)
    ensures FieldElement(a) == FieldElement(b) ==> a == b
  {
    hide BigEndian, Decimal, Value;
    if FieldElement(a) == FieldElement(b) {
      assert Value(FieldElement(a).value) == BigEndian(a) && Value(FieldElement(b).value) == BigEndian(b);
      BigEndianInjective(a, b);
    }
  }

  // ---------- Words ----------

  /** A value at the front of a word of zeros. */
  function ZeroExtended(value: Bytes): Word
    requires |value| <= 32
  {
    value + seq(32 - |value|, i => 0)
  }

  lemma ZeroExtendedInjective(a: Bytes, b: Bytes)
    requires |a| == |b| <= 32
    ensures ZeroExtended(a) == ZeroExtended(b) <==> a == b
  {
    assert ZeroExtended(a)[..|a|] == a && ZeroExtended(b)[..|b|] == b;
  }
}
