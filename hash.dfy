/**
 * hashCode: the Java-style string hash computed with JavaScript's 32-bit
 * integer operators. The string is given as its UTF-16 code units, which is
 * what charCodeAt returns.
 */
module Hash {

  const TwoTo32: int := 0x1_0000_0000
  const TwoTo31: int := 0x8000_0000

  type CodeUnit = c: int | 0 <= c < 0x1_0000

  /** ECMAScript ToInt32: the signed 32-bit integer congruent to x modulo 2^32. */
  function ToInt32(x: int): (r: int)
    ensures -TwoTo31 <= r < TwoTo31
    ensures (x - r) % TwoTo32 == 0
  {
    (x + TwoTo31) % TwoTo32 - TwoTo31
  }

  lemma {:induction false} ToInt32Congruent(a: int, b: int)
    requires (a - b) % TwoTo32 == 0
    ensures ToInt32(a) == ToInt32(b)
  {
    var k := (a - b) / TwoTo32;
    assert a + TwoTo31 == (b + TwoTo31) + k * TwoTo32;
  }

  /** The hash of a prefix, one wrapped step per code unit. */
  function HashOf(s: seq<CodeUnit>): int
  {
    if |s| == 0 then 0 else ToInt32(31 * HashOf(s[..|s| - 1]) + s[|s| - 1])
  }

  /** The unwrapped polynomial sum of c_i * 31^(n-1-i). */
  function Polynomial(s: seq<CodeUnit>): int
  {
    if |s| == 0 then 0 else 31 * Polynomial(s[..|s| - 1]) + s[|s| - 1]
  }

  /** A multiple of 2^32 leaves no remainder. */
  lemma MultipleOfTwoTo32(n: int)
    ensures (n * TwoTo32) % TwoTo32 == 0
  {
  }

  /** Congruence modulo 2^32 survives one step of the polynomial. */
  lemma {:induction false} StepCongruent(q: int, h: int, c: int)
    requires (q - h) % TwoTo32 == 0
    ensures ((31 * q + c) - (31 * h + c)) % TwoTo32 == 0
  {
    var k := (q - h) / TwoTo32;
    assert q - h == k * TwoTo32;
    assert (31 * q + c) - (31 * h + c) == (31 * k) * TwoTo32;
    MultipleOfTwoTo32(31 * k);
  }

  /**
   * Wrapping after every step gives the same result as wrapping once at the
   * end: the hash is the polynomial hash reduced to a signed 32-bit integer.
   */
  lemma {:induction false} HashIsWrappedPolynomial(s: seq<CodeUnit>)
    ensures HashOf(s) == ToInt32(Polynomial(s))
  {
    if |s| > 0 {
      var p := s[..|s| - 1];
      var c := s[|s| - 1];
      HashIsWrappedPolynomial(p);
      var h := HashOf(p);
      var q := Polynomial(p);
      assert HashOf(s) == ToInt32(31 * h + c);
      assert Polynomial(s) == 31 * q + c;
      assert (q - h) % TwoTo32 == 0;
      StepCongruent(q, h, c);
      ToInt32Congruent(31 * q + c, 31 * h + c);
    }
  }

  /** One loop step: ((hash << 5) - hash) + char, then `& hash` truncates to 32 bits. */
  lemma {:induction false} StepIsWrappedTimes31(h: int, c: CodeUnit)
    ensures ToInt32(ToInt32(h * 32) - h + c) == ToInt32(31 * h + c)
  {
    var w := ToInt32(h * 32);
    assert (h * 32 - w) % TwoTo32 == 0;
    var k := (h * 32 - w) / TwoTo32;
    assert (31 * h + c) - (w - h + c) == k * TwoTo32;
    ToInt32Congruent(31 * h + c, w - h + c);
  }

  /** hashCode, as the loop the source runs; the result is a signed 32-bit integer. */
  method HashCode(s: seq<CodeUnit>) returns (hash: int)
    ensures hash == HashOf(s)
    ensures hash == ToInt32(Polynomial(s))
    ensures -TwoTo31 <= hash < TwoTo31
  {
    hash := 0;
    for i := 0 to |s|
      invariant hash == HashOf(s[..i])
    {
      var unit := s[i];
      StepIsWrappedTimes31(hash, unit);
      // `hash << 5` shifts the 32-bit value; `hash & hash` is ToInt32 of the sum.
      hash := ToInt32(ToInt32(hash * 32) - hash + unit);
      assert s[..i + 1][..i] == s[..i];
    }
    assert s[..|s|] == s;
    HashIsWrappedPolynomial(s);
  }
}
