/** Greatest common divisors and least common multiples, as the clock server and the strip charts compute them. */
module Arithmetic {

  const UINT64_MAX: nat := 0xFFFF_FFFF_FFFF_FFFF

  ghost predicate Divides(d: nat, a: nat) {
    d > 0 && a % d == 0
  }

  lemma MulStep(a: nat, b: nat, d: nat)
    requires a < b
    ensures a * d + d <= b * d
  {
    assert (b - a - 1) * d >= 0;
    assert b * d == a * d + d + (b - a - 1) * d;
  }

  lemma QuotientUnique(n: nat, q: nat, d: nat, rem: nat)
    requires n * d == q * d + rem && rem < d
    ensures n == q
  {
    if n < q {
      MulStep(n, q, d);
    } else if q < n {
      MulStep(q, n, d);
    }
  }

  lemma MultipleDivides(n: nat, d: nat)
    requires d > 0
    ensures (n * d) % d == 0 && (n * d) / d == n
  {
    var q, rem := (n * d) / d, (n * d) % d;
    assert n * d == q * d + rem;
    QuotientUnique(n, q, d, rem);
  }

  lemma Quotient(d: nat, a: nat) returns (n: nat)
    requires Divides(d, a)
    ensures a == n * d
  {
    n := a / d;
  }

  lemma DividesSum(d: nat, a: nat, b: nat)
    requires Divides(d, a) && Divides(d, b)
    ensures Divides(d, a + b)
  {
    var x := Quotient(d, a);
    var y := Quotient(d, b);
    assert a + b == (x + y) * d;
    MultipleDivides(x + y, d);
  }

  lemma DividesDifference(d: nat, a: nat, b: nat)
    requires Divides(d, a + b) && Divides(d, b)
    ensures Divides(d, a)
  {
    var x := Quotient(d, a + b);
    var y := Quotient(d, b);
    if x < y {
      MulStep(x, y, d);
    } else {
      assert a == (x - y) * d;
      MultipleDivides(x - y, d);
    }
  }

  lemma DividesMultiple(d: nat, a: nat, n: nat)
    requires Divides(d, a)
    ensures Divides(d, n * a)
  {
    var x := Quotient(d, a);
    assert n * a == (n * x) * d;
    MultipleDivides(n * x, d);
  }

  lemma DividesTransitive(a: nat, b: nat, c: nat)
    requires Divides(a, b) && Divides(b, c)
    ensures Divides(a, c)
  {
    var n := Quotient(b, c);
    DividesMultiple(a, b, n);
  }

  lemma DividesBound(d: nat, a: nat)
    requires Divides(d, a) && a > 0
    ensures d <= a
  {
    var n := Quotient(d, a);
    if n > 0 {
      MulStep(0, n, d);
    }
  }

  lemma Distribute(a: int, b: int, n: nat)
    ensures (a - b) * n == a * n - b * n
  {
  }

  lemma NoMultiple(n: nat, k: int, d: nat)
    requires 0 < d < n
    ensures k * n != d
  {
    if k <= 0 {
      assert k * n <= 0;
    } else {
      assert k * n >= n;
    }
  }

  lemma OnlyZero(k: int, n: nat, d: int)
    requires k * n == d && 0 < d + n && d < n
    ensures k == 0
  {
    if d > 0 {
      NoMultiple(n, k, d);
    } else if d < 0 {
      Distribute(0, k, n);
      NoMultiple(n, -k, -d);
    }
  }

  // ---------------------------------------------------------------------------------------------------------
  // Greatest common divisor

  /** Euclid's algorithm by recursion. */
  function Gcd2(a: nat, b: nat): nat
    decreases b
  {
    if b == 0 then a else Gcd2(b, a % b)
  }

  /** The strip charts' entry point puts the larger number first. */
  function Gcd(a: nat, b: nat): nat {
    if a < b then Gcd2(b, a) else Gcd2(a, b)
  }

  lemma DividesRemainder(d: nat, a: nat, b: nat)
    requires b > 0 && Divides(d, b)
    ensures Divides(d, a) <==> Divides(d, a % b)
  {
    var m := (a / b) * b;
    assert a == a % b + m;
    DividesMultiple(d, b, a / b);
    if Divides(d, a) {
      DividesDifference(d, a % b, m);
    }
    if Divides(d, a % b) {
      DividesSum(d, a % b, m);
    }
  }

  /** Euclid's algorithm keeps exactly the common divisors. */
  lemma {:induction false} Gcd2Divisors(a: nat, b: nat, d: nat)
    requires a > 0 || b > 0
    ensures Gcd2(a, b) > 0
    ensures Divides(d, a) && Divides(d, b) <==> Divides(d, Gcd2(a, b))
    decreases b
  {
    if b > 0 {
      Gcd2Divisors(b, a % b, d);
      if Divides(d, b) {
        DividesRemainder(d, a, b);
      }
    }
  }

  /** The result divides both numbers, and every common divisor divides it: it is their greatest common divisor. */
  lemma GcdDivisors(a: nat, b: nat, d: nat)
    requires a > 0 || b > 0
    ensures Gcd(a, b) > 0
    ensures Divides(d, a) && Divides(d, b) <==> Divides(d, Gcd(a, b))
  {
    if a < b {
      Gcd2Divisors(b, a, d);
    } else {
      Gcd2Divisors(a, b, d);
    }
  }

  lemma Gcd2DividesBoth(a: nat, b: nat)
    requires a > 0 || b > 0
    ensures Divides(Gcd2(a, b), a) && Divides(Gcd2(a, b), b)
  {
    Gcd2Divisors(a, b, 1);
    Gcd2Divisors(a, b, Gcd2(a, b));
  }

  /** Bezout: the result is an integer combination of the two numbers. */
  lemma {:induction false} Bezout(a: nat, b: nat) returns (x: int, y: int)
    ensures x * a + y * b == Gcd2(a, b)
    decreases b
  {
    if b == 0 {
      x, y := 1, 0;
    } else {
      var u, v := Bezout(b, a % b);
      x, y := v, u - v * (a / b);
      assert a == (a / b) * b + a % b;
      BezoutStep(a, b, a / b, a % b, u, v);
    }
  }

  lemma BezoutStep(a: int, b: int, q: int, r: int, u: int, v: int)
    requires a == q * b + r
    ensures v * a + (u - v * q) * b == u * b + v * r
  {
    assert v * a == v * (q * b) + v * r;
    assert (u - v * q) * b == u * b - v * q * b;
  }

  /** Euclid's algorithm as a loop. */
  method GcdLoop(a: nat, b: nat) returns (g: nat)
    ensures g == Gcd2(a, b)
  {
    g := a;
    var y: nat := b;
    while y != 0
      invariant Gcd2(g, y) == Gcd2(a, b)
      decreases y
    {
      g, y := y, g % y;
    }
  }

  // ---------------------------------------------------------------------------------------------------------
  // Least common multiple, in 64 bits

  /** The least common multiple of two positive numbers. */
  function TrueLcm(a: nat, b: nat): nat
    requires a > 0 && b > 0
  {
    Gcd2Divisors(a, b, 1);
    a / Gcd2(a, b) * b
  }

  lemma LcmIsLeast(a: nat, b: nat, m: nat)
    requires a > 0 && b > 0
    ensures TrueLcm(a, b) > 0
    ensures Divides(a, m) && Divides(b, m) <==> Divides(TrueLcm(a, b), m)
  {
    Gcd2DividesBoth(a, b);
    var g := Gcd2(a, b);
    var p := Quotient(g, a);
    var q := Quotient(g, b);
    MultipleDivides(p, g);
    var l := TrueLcm(a, b);
    assert l == p * b == q * a by {
      assert p * b == p * (q * g) && q * a == q * (p * g);
      MulRotate(p, q, g);
    }
    LcmPositive(p, b, a, g);
    DividesMultiple(a, a, q);
    DividesMultiple(b, b, p);
    if Divides(l, m) {
      DividesTransitive(a, l, m);
      DividesTransitive(b, l, m);
    }
    if Divides(a, m) && Divides(b, m) {
      LcmDividesMultiple(a, b, m, p, q, g);
    }
  }

  lemma MulRotate(p: nat, q: nat, g: nat)
    ensures p * (q * g) == q * (p * g)
  {
  }

  lemma LcmPositive(p: nat, b: nat, a: nat, g: nat)
    requires a == p * g && a > 0 && b > 0
    ensures p * b > 0
  {
  }

  /** A common multiple is a multiple of the least one, by Bezout. */
  lemma LcmDividesMultiple(a: nat, b: nat, m: nat, p: nat, q: nat, g: nat)
    requires a > 0 && b > 0 && Divides(a, m) && Divides(b, m)
    requires g == Gcd2(a, b) && a == p * g && b == q * g
    ensures p * b > 0 && Divides(p * b, m)
  {
    LcmPositive(p, b, a, g);
    var x, y := Bezout(a, b);
    var s := Quotient(a, m);
    var t := Quotient(b, m);
    var n := x * t + y * s;
    CommonMultipleForm(a, b, m, p, q, g, x, y, s, t);
    assert m == n * (p * b);
    if n < 0 {
      NegativeProduct(n, p * b);
    } else {
      MultipleDivides(n, p * b);
    }
  }

  lemma NegativeProduct(n: int, d: nat)
    requires n < 0 && d > 0
    ensures n * d < 0
  {
  }

  lemma CommonMultipleForm(a: int, b: int, m: int, p: int, q: int, g: int, x: int, y: int, s: int, t: int)
    requires a == p * g && b == q * g && g != 0 && x * a + y * b == g && m == s * a && m == t * b
    ensures m == (x * t + y * s) * (p * b)
  {
    // m * g == m * (x * a + y * b) == t * b * x * a + s * a * y * b == (x * t + y * s) * a * b
    var c := x * t + y * s;
    assert m * g == m * (x * a) + m * (y * b);
    assert m * (x * a) == (t * b) * (x * a) == (x * t) * (a * b);
    assert m * (y * b) == (s * a) * (y * b) == (y * s) * (a * b);
    assert m * g == c * (a * b);
    assert c * (a * b) == c * (p * b) * g;
    CancelFactor(m, c * (p * b), g);
  }

  lemma CancelFactor(a: int, b: int, g: int)
    requires a * g == b * g && g != 0
    ensures a == b
  {
    assert (a - b) * g == 0;
  }

  datatype Option<T> = None | Some(value: T)

  /** The clock server's least common multiple on unsigned 64-bit numbers: it refuses when the product of the two
      reduced factors overflows, and then multiplies by the common divisor, which can wrap around. */
  function Lcm64(a: nat, b: nat): Option<nat>
    requires a > 0 && b > 0
  {
    Gcd2Divisors(a, b, 1);
    Gcd2DividesBoth(a, b);
    DividesBound(Gcd2(a, b), a);
    var g := Gcd2(a, b);
    PositiveQuotient(a, g);
    if b / g > UINT64_MAX / (a / g) then None else Some(a / g * (b / g) * g % (UINT64_MAX + 1))
  }

  lemma PositiveQuotient(a: nat, d: nat)
    requires a > 0 && Divides(d, a)
    ensures a / d > 0
  {
    DividesBound(d, a);
    assert a == a / d * d + a % d;
  }

  lemma Lcm64Value(a: nat, b: nat)
    requires a > 0 && b > 0
    ensures Gcd2(a, b) > 0 && a / Gcd2(a, b) * (b / Gcd2(a, b)) * Gcd2(a, b) == TrueLcm(a, b)
  {
    Gcd2Divisors(a, b, 1);
    Gcd2DividesBoth(a, b);
    var g := Gcd2(a, b);
    var q := Quotient(g, b);
    MultipleDivides(q, g);
    Regroup(a / g, q, g);
  }

  lemma Regroup(x: nat, y: nat, z: nat)
    ensures x * y * z == x * (y * z)
  {
  }

  /** The 64-bit result is the least common multiple if and only if that fits into 64 bits. */
  lemma Lcm64ExactIff(a: nat, b: nat)
    requires a > 0 && b > 0
    ensures Lcm64(a, b) == Some(TrueLcm(a, b)) <==> TrueLcm(a, b) <= UINT64_MAX
  {
    Gcd2Divisors(a, b, 1);
    Gcd2DividesBoth(a, b);
    Lcm64Value(a, b);
    var g := Gcd2(a, b);
    PositiveQuotient(a, g);
    var p, q := a / g, b / g;
    if TrueLcm(a, b) <= UINT64_MAX {
      ProductFits(p, q, g);
    }
  }

  lemma ProductFits(p: nat, q: nat, g: nat)
    requires p > 0 && g > 0 && p * q * g <= UINT64_MAX
    ensures q <= UINT64_MAX / p
  {
    var m := UINT64_MAX / p;
    assert UINT64_MAX == m * p + UINT64_MAX % p;
    assert p * q * g >= p * q by { assert p * q * (g - 1) >= 0; }
    if m < q {
      MulStep(m, q, p);
    }
  }

  // ---------------------------------------------------------------------------------------------------------
  // The base frequency

  ghost predicate AllPositive(fs: seq<nat>) {
    forall i | 0 <= i < |fs| :: fs[i] > 0
  }

  ghost predicate AllDivide(fs: seq<nat>, m: nat) {
    forall i | 0 <= i < |fs| :: Divides(fs[i], m)
  }

  /** The least common multiple of `base` and a list of frequencies. */
  ghost function TrueLcmAll(base: nat, fs: seq<nat>): (r: nat)
    requires base > 0 && AllPositive(fs)
    ensures r > 0
    decreases |fs|
  {
    if fs == [] then base else
      LcmIsLeast(base, fs[0], 0);
      TrueLcmAll(TrueLcm(base, fs[0]), fs[1..])
  }

  /** The same in 64 bits, as initialisation computes it; a result that has wrapped to zero stops the next step,
      whose overflow test divides by it. */
  function LcmAll64(base: nat, fs: seq<nat>): Option<nat>
    decreases |fs|
  {
    if fs == [] then Some(base)
    else if base == 0 || fs[0] == 0 then None
    else match Lcm64(base, fs[0])
      case None => None
      case Some(l) => LcmAll64(l, fs[1..])
  }

  lemma AllDivideSplit(fs: seq<nat>, m: nat)
    requires fs != []
    ensures AllDivide(fs, m) <==> Divides(fs[0], m) && AllDivide(fs[1..], m)
  {
    hide Divides;
    var rest := fs[1..];
    assert forall i | 0 <= i < |rest| :: rest[i] == fs[i + 1];
    if Divides(fs[0], m) && AllDivide(rest, m) {
      forall i | 0 <= i < |fs| ensures Divides(fs[i], m) {
        if i > 0 {
          assert fs[i] == rest[i - 1];
        }
      }
    }
    if AllDivide(fs, m) {
      forall i | 0 <= i < |rest| ensures Divides(rest[i], m) {
        assert rest[i] == fs[i + 1];
      }
    }
  }

  /** `TrueLcmAll` is the least common multiple: its multiples are exactly the common multiples. */
  lemma {:induction false} LcmAllIsLeast(base: nat, fs: seq<nat>, m: nat)
    requires base > 0 && AllPositive(fs)
    ensures Divides(base, m) && AllDivide(fs, m) <==> Divides(TrueLcmAll(base, fs), m)
    decreases |fs|
  {
    hide TrueLcm, Divides, AllDivide;
    if fs == [] {
      NoneDivide(m);
    } else {
      LcmIsLeast(base, fs[0], m);
      LcmAllIsLeast(TrueLcm(base, fs[0]), fs[1..], m);
      AllDivideSplit(fs, m);
    }
  }

  // ---------------------------------------------------------------------------------------------------------
  // Powers of two in a base frequency

  function Pow2(k: nat): (p: nat)
    ensures p > 0
  {
    if k == 0 then 1 else 2 * Pow2(k - 1)
  }

  /** An odd factor contributes nothing to a power of two. */
  lemma {:induction false} OddFactor(k: nat, a: nat, x: nat)
    requires x % 2 == 1 && Divides(Pow2(k), a * x)
    ensures Divides(Pow2(k), a)
  {
    if k > 0 {
      var p := Pow2(k - 1);
      var n := Quotient(2 * p, a * x);
      assert a * x == 2 * (n * p);
      EvenFactor(a, x, n * p);
      var h := a / 2;
      assert h * x == n * p by {
        assert a == 2 * h;
        assert a * x == 2 * (h * x);
      }
      MultipleDivides(n, p);
      OddFactor(k - 1, h, x);
      var m := Quotient(p, h);
      assert a == m * (2 * p);
      MultipleDivides(m, 2 * p);
    }
  }

  lemma EvenFactor(a: nat, x: nat, n: nat)
    requires a * x == 2 * n && x % 2 == 1
    ensures a % 2 == 0
  {
    if a % 2 == 1 {
      OddProduct(a / 2, x / 2);
    }
  }

  lemma OddProduct(b: nat, y: nat)
    ensures (2 * b + 1) * (2 * y + 1) == 2 * (2 * b * y + b + y) + 1
  {
  }

  /** A power of two that divides a least common multiple divides one of the two numbers. */
  lemma PowerInLcm(k: nat, a: nat, b: nat)
    requires a > 0 && b > 0 && Divides(Pow2(k), TrueLcm(a, b))
    ensures Divides(Pow2(k), a) || Divides(Pow2(k), b)
  {
    var l := TrueLcm(a, b);
    hide TrueLcm;
    LcmIsLeast(a, b, l);
    if !Divides(Pow2(k), a) && !Divides(Pow2(k), b) {
      HalfDivides(k, a, l);
      HalfDivides(k, b, l);
      LcmIsLeast(a, b, l / 2);
      DividesBound(l, l / 2);
    }
  }

  /** A number that lacks a power of two which its multiple has divides also half of the multiple. */
  lemma HalfDivides(k: nat, a: nat, l: nat)
    requires l > 0 && Divides(a, l) && Divides(Pow2(k), l) && !Divides(Pow2(k), a)
    ensures Divides(a, l / 2) && l / 2 > 0
  {
    var x := Quotient(a, l);
    hide Divides;
    if x % 2 == 1 {
      assert l == a * x;
      OddFactor(k, a, x);
    } else {
      HalfMultiple(x / 2, a, l);
    }
  }

  lemma HalfMultiple(h: nat, a: nat, l: nat)
    requires a > 0 && l > 0 && l == 2 * h * a
    ensures Divides(a, l / 2) && l / 2 > 0
  {
    assert l == 2 * (h * a);
    MultipleDivides(h, a);
  }

  /** A power of two that divides the least common multiple of many numbers divides one of them. */
  lemma {:induction false} PowerInLcmAll(k: nat, base: nat, fs: seq<nat>)
    requires base > 0 && AllPositive(fs) && Divides(Pow2(k), TrueLcmAll(base, fs))
    ensures Divides(Pow2(k), base) || exists i :: 0 <= i < |fs| && Divides(Pow2(k), fs[i])
    decreases |fs|
  {
    hide TrueLcm, Divides, Pow2;
    if fs != [] {
      LcmIsLeast(base, fs[0], 0);
      var rest := fs[1..];
      PowerInLcmAll(k, TrueLcm(base, fs[0]), rest);
      if Divides(Pow2(k), TrueLcm(base, fs[0])) {
        PowerInLcm(k, base, fs[0]);
      } else {
        var i :| 0 <= i < |rest| && Divides(Pow2(k), rest[i]);
        assert fs[i + 1] == rest[i];
      }
    }
  }

  const UINT32_MAX: nat := 0xFFFF_FFFF

  lemma Pow62()
    ensures Pow2(62) == 0x4000_0000_0000_0000
  {
    assert Pow2(8) == 256;
    assert Pow2(16) == 256 * Pow2(8);
    assert Pow2(24) == 256 * Pow2(16);
    assert Pow2(32) == 256 * Pow2(24);
    assert Pow2(40) == 256 * Pow2(32);
    assert Pow2(48) == 256 * Pow2(40);
    assert Pow2(56) == 256 * Pow2(48);
  }

  /** The base frequency of 32-bit frequencies is no multiple of 2^62. */
  lemma NarrowBase(fs: seq<nat>)
    requires AllPositive(fs) && forall i | 0 <= i < |fs| :: fs[i] <= UINT32_MAX
    ensures !Divides(Pow2(62), TrueLcmAll(1, fs))
  {
    NoSmallMultiple(1);
    forall i | 0 <= i < |fs| ensures !Divides(Pow2(62), fs[i]) {
      NoSmallMultiple(fs[i]);
    }
    hide Pow2, TrueLcmAll, Divides;
    if Divides(Pow2(62), TrueLcmAll(1, fs)) {
      PowerInLcmAll(62, 1, fs);
    }
  }

  lemma NoSmallMultiple(x: nat)
    requires 0 < x <= UINT32_MAX
    ensures !Divides(Pow2(62), x)
  {
    Pow62();
    hide Pow2;
  }

  lemma OneDivides(m: nat)
    ensures Divides(1, m)
  {
  }

  lemma NoneDivide(m: nat)
    ensures AllDivide([], m)
  {
  }

  lemma LcmAllGrows(base: nat, fs: seq<nat>)
    requires base > 0 && AllPositive(fs)
    ensures base <= TrueLcmAll(base, fs)
    ensures AllDivide(fs, TrueLcmAll(base, fs))
  {
    var l := TrueLcmAll(base, fs);
    hide TrueLcmAll, AllDivide, TrueLcm;
    LcmAllIsLeast(base, fs, l);
    assert Divides(l, l);
    DividesBound(base, l);
  }

  /** The base frequency that initialisation computes is right if and only if the least common multiple of all
      frequencies fits into 64 bits. */
  lemma {:induction false} BaseFrequencyExactIff(base: nat, fs: seq<nat>)
    requires 0 < base <= UINT64_MAX && AllPositive(fs)
    ensures LcmAll64(base, fs) == Some(TrueLcmAll(base, fs)) <==> TrueLcmAll(base, fs) <= UINT64_MAX
    decreases |fs|
  {
    hide TrueLcm, Lcm64, Divides;
    LcmAll64Bounded(base, fs);
    if fs != [] && TrueLcmAll(base, fs) <= UINT64_MAX {
      LcmIsLeast(base, fs[0], 0);
      var l := TrueLcm(base, fs[0]);
      LcmAllGrows(l, fs[1..]);
      Lcm64ExactIff(base, fs[0]);
      BaseFrequencyExactIff(l, fs[1..]);
    }
  }

  lemma {:induction false} LcmAll64Bounded(base: nat, fs: seq<nat>)
    requires base <= UINT64_MAX
    ensures LcmAll64(base, fs).Some? ==> LcmAll64(base, fs).value <= UINT64_MAX
    decreases |fs|
  {
    if fs != [] && base > 0 && fs[0] > 0 {
      Lcm64Bounded(base, fs[0]);
      hide Lcm64;
      if Lcm64(base, fs[0]).Some? {
        LcmAll64Bounded(Lcm64(base, fs[0]).value, fs[1..]);
      }
    }
  }

  lemma Lcm64Bounded(a: nat, b: nat)
    requires a > 0 && b > 0
    ensures Lcm64(a, b).Some? ==> Lcm64(a, b).value <= UINT64_MAX
  {
  }

  lemma GcdOne(a: nat, b: nat, x: nat, y: nat)
    requires a > 0 && b > 0 && x * a == 1 + y * b
    ensures Gcd2(a, b) == 1
  {
    Gcd2Divisors(a, b, 1);
    Gcd2DividesBoth(a, b);
    var g := Gcd2(a, b);
    DividesMultiple(g, a, x);
    DividesMultiple(g, b, y);
    DividesDifference(g, 1, y * b);
    DividesBound(g, 1);
  }

  lemma FirstLcm(a: nat)
    requires 0 < a <= UINT64_MAX
    ensures Lcm64(1, a) == Some(a) && TrueLcm(1, a) == a
  {
    GcdOne(1, a, a + 1, 1);
  }

  /** The base frequency of a power of two and a power of three: both fit into 32 bits, and their product into 64. */
  lemma TwoFrequencies()
    ensures Lcm64(0x8000_0000, 3486784401) == Some(7487812485248974848)
    ensures TrueLcm(0x8000_0000, 3486784401) == 7487812485248974848
  {
    GcdOne(0x8000_0000, 3486784401, 1458428738, 898235023);
  }

  lemma ThirdFrequency()
    ensures Lcm64(7487812485248974848, 0xA000_0000) == Some(545574278825771008)
  {
    var l, c := 7487812485248974848, 0xA000_0000;
    assert l % c == 0x8000_0000 && c % 0x8000_0000 == 0x2000_0000;
    assert Gcd2(0x8000_0000, 0x2000_0000) == Gcd2(0x2000_0000, 0);
    assert Gcd2(c, 0x8000_0000) == 0x2000_0000;
    assert Gcd2(l, c) == 0x2000_0000;
  }

  /** The overflow test looks at the reduced factors only, so it can pass although the result wraps around: with these
      three frequencies the computed base frequency is not a multiple of the second one. */
  lemma OverflowUndetected()
    ensures LcmAll64(1, [0x8000_0000, 3486784401, 0xA000_0000]) == Some(545574278825771008)
    ensures !Divides(3486784401, 545574278825771008)
  {
    var a, b, c := 0x8000_0000, 3486784401, 0xA000_0000;
    FirstLcm(a);
    TwoFrequencies();
    ThirdFrequency();
    hide Lcm64, Gcd2, TrueLcm;
    assert [a, b, c][1..] == [b, c] && [b, c][1..] == [c] && [c][1..] == [];
    assert LcmAll64(1, [a, b, c]) == LcmAll64(a, [b, c]);
  }
}
