/** Searching, splitting and number formatting as the Rust standard library does them. */
module Text {
  import opened Wrappers

  predicate OccursAt<T(==)>(s: seq<T>, pat: seq<T>, i: nat) {
    i + |pat| <= |s| && s[i..i + |pat|] == pat
  }

  /** Position of the first window of `s` equal to `pat`. */
  function Find<T(==)>(s: seq<T>, pat: seq<T>): (r: Option<nat>)
    ensures r.Some? ==> OccursAt(s, pat, r.value) && forall j: nat :: j < r.value ==> !OccursAt(s, pat, j)
    ensures r.None? ==> forall j: nat :: !OccursAt(s, pat, j)
  {
    FindFrom(s, pat, 0)
  }

  function FindFrom<T(==)>(s: seq<T>, pat: seq<T>, i: nat): (r: Option<nat>)
    ensures r.Some? ==> i <= r.value && OccursAt(s, pat, r.value)
    ensures r.Some? ==> forall j: nat :: i <= j < r.value ==> !OccursAt(s, pat, j)
    ensures r.None? ==> forall j: nat :: i <= j ==> !OccursAt(s, pat, j)
    decreases |s| - i
  {
    if |s| < i + |pat| then None
    else if OccursAt(s, pat, i) then Some(i)
    else if i == |s| then None
    else FindFrom(s, pat, i + 1)
  }

  lemma FindIs<T>(s: seq<T>, pat: seq<T>, i: nat)
    requires OccursAt(s, pat, i) && forall j: nat :: j < i ==> !OccursAt(s, pat, j)
    ensures Find(s, pat) == Some(i)
  {
  }

  /** The first occurrence stays the first one when the text grows. */
  lemma FindExtends<T>(s: seq<T>, pat: seq<T>, more: seq<T>)
    requires Find(s, pat).Some?
    ensures Find(s + more, pat) == Find(s, pat)
  {
    var i := Find(s, pat).value;
    assert (s + more)[i..i + |pat|] == s[i..i + |pat|];
    forall j: nat | j < i
      ensures !OccursAt(s + more, pat, j)
    {
      assert !OccursAt(s, pat, j);
      assert (s + more)[j..j + |pat|] == s[j..j + |pat|];
    }
    FindIs(s + more, pat, i);
  }

  /** `str::split`: the pieces between successive occurrences of `sep`. */
  function Split(s: string, sep: string): (parts: seq<string>)
    requires sep != ""
    ensures parts != []
  {
    match Find(s, sep)
    case None => [s]
    case Some(i) => [s[..i]] + Split(s[i + |sep|..], sep)
  }

  lemma SplitNone(s: string, c: char)
    requires c !in s
    ensures Split(s, [c]) == [s]
  {
    forall j: nat
      ensures !OccursAt(s, [c], j)
    {
      assert j < |s| ==> s[j..j + 1] == [s[j]];
    }
  }

  lemma SplitFirst(a: string, c: char, rest: string)
    requires c !in a
    ensures Split(a + [c] + rest, [c]) == [a] + Split(rest, [c])
  {
    var s := a + [c] + rest;
    assert OccursAt(s, [c], |a|);
    forall j: nat | j < |a|
      ensures !OccursAt(s, [c], j)
    {
      assert s[j] == a[j] && a[j] in a;
    }
    FindIs(s, [c], |a|);
    assert s[..|a|] == a && s[|a| + 1..] == rest;
  }

  lemma SplitThree(a: string, b: string, d: string, c: char)
    requires c !in a && c !in b && c !in d
    ensures Split(a + [c] + b + [c] + d, [c]) == [a, b, d]
  {
    hide Split;
    SplitFirst(a, c, b + [c] + d);
    SplitFirst(b, c, d);
    SplitNone(d, c);
    assert a + [c] + b + [c] + d == a + [c] + (b + [c] + d);
  }

  /** Splitting at one character and joining with it gives the text back. */
  lemma {:induction false} SplitPieces(s: string, c: char)
    ensures var parts := Split(s, [c]); Join(parts, c) == s && forall p | p in parts :: c !in p
  {
    match Find(s, [c])
    case None =>
      forall i | 0 <= i < |s|
        ensures s[i] != c
      {
        assert !OccursAt(s, [c], i);
      }
    case Some(i) =>
      SplitPieces(s[i + 1..], c);
      assert s == s[..i] + [c] + s[i + 1..];
      forall j | 0 <= j < i
        ensures s[j] != c
      {
        assert !OccursAt(s, [c], j);
      }
  }

  function Join(parts: seq<string>, c: char): string
    requires parts != []
  {
    if |parts| == 1 then parts[0] else parts[0] + [c] + Join(parts[1..], c)
  }

  lemma JoinThree(parts: seq<string>, c: char)
    requires |parts| == 3
    ensures Join(parts, c) == parts[0] + [c] + (parts[1] + [c] + parts[2])
  {
    assert Join(parts[1..], c) == parts[1] + [c] + Join(parts[1..][1..], c);
  }

  predicate IsDigit(c: char) {
    '0' <= c <= '9'
  }

  predicate AllDigits(s: string) {
    forall c | c in s :: IsDigit(c)
  }

  /** Value of a decimal numeral. */
  function Value(s: string): nat
    requires AllDigits(s)
  {
    if s == "" then 0
    else
      assert s[|s| - 1] in s;
      10 * Value(s[..|s| - 1]) + (s[|s| - 1] - '0') as nat
  }

  /** `to_string` of an unsigned integer. */
  function Decimal(n: nat): (s: string)
    ensures s != "" && AllDigits(s)
    ensures Value(s) == n
  {
    var last := ['0' + (n % 10) as char];
    if n < 10 then last else Decimal(n / 10) + last
  }

  /** `{:0w}`: zeros in front up to width `w`. */
  function ZeroPad(s: string, w: nat): string
    decreases w - |s|
  {
    if |s| < w then ZeroPad("0" + s, w) else s
  }

  function Pow10(w: nat): nat {
    if w == 0 then 1 else 10 * Pow10(w - 1)
  }

  lemma {:induction false} DecimalFits(n: nat, w: nat)
    requires 0 < w && n < Pow10(w)
    ensures |Decimal(n)| <= w
  {
    if n >= 10 {
      DecimalFits(n / 10, w - 1);
    }
  }

  lemma {:induction false} ValueOfZeroAhead(s: string)
    requires AllDigits(s)
    ensures AllDigits("0" + s) && Value("0" + s) == Value(s)
  {
    if s != "" {
      ValueOfZeroAhead(s[..|s| - 1]);
      assert ("0" + s)[..|s|] == "0" + s[..|s| - 1];
    }
  }

  lemma {:induction false} ZeroPadKeeps(s: string, w: nat)
    requires AllDigits(s) && |s| <= w
    ensures var p := ZeroPad(s, w); |p| == w && AllDigits(p) && Value(p) == Value(s)
    decreases w - |s|
  {
    if |s| < w {
      ValueOfZeroAhead(s);
      ZeroPadKeeps("0" + s, w);
    }
  }

  /** A numeral of known width is determined by its value. */
  lemma {:induction false} ValueInjective(s: string, t: string)
    requires AllDigits(s) && AllDigits(t) && |s| == |t| && Value(s) == Value(t)
    ensures s == t
  {
    if s != "" {
      var k := |s| - 1;
      assert s[k] in s && t[k] in t;
      ValueInjective(s[..k], t[..k]);
      assert s == s[..k] + [s[k]] && t == t[..k] + [t[k]];
    }
  }

  lemma {:induction false} ValueBelow(s: string)
    requires AllDigits(s)
    ensures Value(s) < Pow10(|s|)
  {
    if s != "" {
      assert s[|s| - 1] in s;
      ValueBelow(s[..|s| - 1]);
    }
  }

  /** Unicode White_Space, as `str::trim` removes it. */
  predicate IsWhitespace(c: char) {
    || '\t' <= c <= '\r' || c == ' ' || c == 0x85 as char || c == 0xa0 as char || c == 0x1680 as char
    || 0x2000 as char <= c <= 0x200a as char || c == 0x2028 as char || c == 0x2029 as char
    || c == 0x202f as char || c == 0x205f as char || c == 0x3000 as char
  }

  function TrimStart(s: string): string {
    if s != "" && IsWhitespace(s[0]) then TrimStart(s[1..]) else s
  }

  function TrimEnd(s: string): string {
    if s != "" && IsWhitespace(s[|s| - 1]) then TrimEnd(s[..|s| - 1]) else s
  }

  function Trim(s: string): string {
    TrimEnd(TrimStart(s))
  }

  /** Trimming does not reach past a tail that neither starts nor ends with white space. */
  lemma {:induction false} TrimKeepsTail(p: string, tail: string)
    requires tail != "" && !IsWhitespace(tail[0]) && !IsWhitespace(tail[|tail| - 1])
    ensures Trim(p + tail) == TrimStart(p) + tail
  {
    if p == "" {
      assert p + tail == tail;
    } else if IsWhitespace(p[0]) {
      assert (p + tail)[1..] == p[1..] + tail;
      TrimKeepsTail(p[1..], tail);
    }
  }

  predicate AllWhitespace(s: string) {
    forall c | c in s :: IsWhitespace(c)
  }

  lemma {:induction false} TrimStartIs(s: string) returns (a: string)
    ensures s == a + TrimStart(s) && AllWhitespace(a)
    ensures TrimStart(s) != "" ==> !IsWhitespace(TrimStart(s)[0])
  {
    hide IsWhitespace;
    if s != "" && IsWhitespace(s[0]) {
      var rest := TrimStartIs(s[1..]);
      a := [s[0]] + rest;
    } else {
      a := "";
    }
  }

  lemma {:induction false} TrimEndIs(s: string) returns (b: string)
    ensures s == TrimEnd(s) + b && AllWhitespace(b)
    ensures TrimEnd(s) != "" ==> !IsWhitespace(TrimEnd(s)[|TrimEnd(s)| - 1])
    ensures TrimEnd(s) <= s
  {
    hide IsWhitespace;
    if s != "" && IsWhitespace(s[|s| - 1]) {
      var front := TrimEndIs(s[..|s| - 1]);
      b := front + [s[|s| - 1]];
      assert s == s[..|s| - 1] + [s[|s| - 1]];
    } else {
      b := "";
    }
  }

  /** Trimming takes away white space at both ends, and all of it. */
  lemma TrimIs(s: string) returns (a: string, b: string)
    ensures s == a + Trim(s) + b && AllWhitespace(a) && AllWhitespace(b)
    ensures Trim(s) != "" ==> !IsWhitespace(Trim(s)[0]) && !IsWhitespace(Trim(s)[|Trim(s)| - 1])
  {
    hide IsWhitespace, TrimStart, TrimEnd;
    a := TrimStartIs(s);
    b := TrimEndIs(TrimStart(s));
  }
}
