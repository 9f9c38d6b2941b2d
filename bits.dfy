/**
 * Bits of a natural number, least significant first.
 *
 * This is the mathematical view in which every field of the buffer is
 * specified: a `w`-bit field holding `v` occupies the stream bits
 * `LowBits(v, w)`, and reading `w` bits back yields `Value` of them.
 */
module Bits {

  /** 2 to the power `n`. */
  function Pow2(n: nat): (r: nat)
    ensures r >= 1
  {
    if n == 0 then 1 else 2 * Pow2(n - 1)
  }

  /** The `n` low bits of `v`, least significant bit first. */
  function LowBits(v: nat, n: nat): (s: seq<bool>)
    ensures |s| == n
  {
    if n == 0 then [] else [v % 2 == 1] + LowBits(v / 2, n - 1)
  }

  /** The number whose binary digits, least significant first, are `s`. */
  function Value(s: seq<bool>): (r: nat)
    ensures r < Pow2(|s|)
  {
    if s == [] then 0 else (if s[0] then 1 else 0) + 2 * Value(s[1..])
  }

  /** `v` shifted right by `m` bits: `v / 2^m`. */
  function Shr(v: nat, m: nat): (r: nat)
    ensures r <= v
  {
    var d := Pow2(m);
    DivisionBounds(v, d);
    v / d
  }

  /** `n` clear bits. */
  function Zeros(n: nat): (s: seq<bool>)
    ensures |s| == n
  {
    seq(n, _ => false)
  }

  // ---------------------------------------------------------------------
  // Arithmetic facts about powers of two, division and remainder.
  // ---------------------------------------------------------------------

  lemma Pow2Add(a: nat, b: nat)
    ensures Pow2(a + b) == Pow2(a) * Pow2(b)
  {
    if a > 0 {
      Pow2Add(a - 1, b);
    }
  }

  /** A power of two from two known ones. */
  lemma Pow2Product(a: nat, b: nat, x: nat, y: nat)
    requires Pow2(a) == x && Pow2(b) == y
    ensures Pow2(a + b) == x * y
  {
    Pow2Add(a, b);
  }

  lemma Pow2Monotonic(a: nat, b: nat)
    requires a <= b
    ensures Pow2(a) <= Pow2(b)
  {
    if a < b {
      Pow2Monotonic(a, b - 1);
    }
  }

  /** Division with remainder is unique. */
  lemma DivModUnique(v: int, d: int, q: int, r: int)
    requires d > 0 && 0 <= r < d && v == q * d + r
    ensures v / d == q && v % d == r
  {
    var q', r' := v / d, v % d;
    assert (q' - q) * d == r - r';
    if q' > q {
      MulAtLeast(q' - q, d);
      assert false;
    } else if q' < q {
      MulAtLeast(q - q', d);
      assert false;
    }
  }

  lemma DivisionBounds(v: int, d: int)
    requires v >= 0 && d >= 1
    ensures 0 <= v / d <= v
  {
  }

  lemma MulAssoc(a: int, b: int, c: int)
    ensures a * (b * c) == (a * b) * c
  {
  }

  lemma MulAtLeast(k: int, d: int)
    requires k >= 1 && d > 0
    ensures k * d >= d
  {
  }

  /** Halving first and then dividing by `p` divides by `2 * p`. */
  lemma DivDouble(v: nat, p: nat)
    requires p >= 1
    ensures (v / 2) / p == v / (2 * p)
    ensures v % (2 * p) == v % 2 + 2 * ((v / 2) % p)
  {
    var q, a, b := v / 2, (v / 2) / p, (v / 2) % p;
    assert q == a * p + b;
    assert v == a * (2 * p) + (2 * b + v % 2);
    DivModUnique(v, 2 * p, a, 2 * b + v % 2);
  }

  lemma HalfThenDivide(v: nat, m: nat)
    requires m > 0
    ensures Shr(v / 2, m - 1) == Shr(v, m)
  {
    DivDouble(v, Pow2(m - 1));
  }

  lemma DivPow2(v: nat, a: nat, b: nat)
    ensures Shr(Shr(v, a), b) == Shr(v, a + b)
    decreases a
  {
    if a > 0 {
      // v / 2^a / 2^b == (v / 2) / 2^(a-1) / 2^b == (v / 2) / 2^(a-1+b) == v / 2^(a+b)
      DivDouble(v, Pow2(a - 1));
      DivPow2(v / 2, a - 1, b);
      DivDouble(v, Pow2(a - 1 + b));
    }
  }

  // ---------------------------------------------------------------------
  // LowBits and Value are inverse to each other.
  // ---------------------------------------------------------------------

  /** Reading back the `n` low bits of `v` gives `v` modulo `2^n`. */
  lemma {:induction false} ValueOfLowBits(v: nat, n: nat)
    ensures Value(LowBits(v, n)) == v % Pow2(n)
  {
    if n > 0 {
      var s := LowBits(v, n);
      assert s[1..] == LowBits(v / 2, n - 1);
      ValueOfLowBits(v / 2, n - 1);
      DivDouble(v, Pow2(n - 1));
    }
  }

  /** The bits of a value are the bits it was built from. */
  lemma {:induction false} LowBitsOfValue(s: seq<bool>)
    ensures LowBits(Value(s), |s|) == s
  {
    if s != [] {
      var v := Value(s);
      assert v % 2 == 1 <==> s[0];
      assert v / 2 == Value(s[1..]);
      LowBitsOfValue(s[1..]);
    }
  }

  /** Concatenating bit strings places the second above the first. */
  lemma {:induction false} ValueConcat(s: seq<bool>, t: seq<bool>)
    ensures Value(s + t) == Value(s) + Pow2(|s|) * Value(t)
  {
    if s != [] {
      assert (s + t)[1..] == s[1..] + t;
      ValueConcat(s[1..], t);
      var b := if s[0] then 1 else 0;
      var p := Pow2(|s| - 1);
      calc {
        Value(s + t);
        b + 2 * Value(s[1..] + t);
        b + 2 * (Value(s[1..]) + p * Value(t));
        { MulAssoc(2, p, Value(t)); }
        b + 2 * Value(s[1..]) + (2 * p) * Value(t);
        Value(s) + Pow2(|s|) * Value(t);
      }
    } else {
      assert s + t == t;
    }
  }

  lemma {:induction false} ValueOfZeros(n: nat)
    ensures Value(Zeros(n)) == 0
  {
    if n > 0 {
      assert Zeros(n)[1..] == Zeros(n - 1);
      ValueOfZeros(n - 1);
    }
  }

  /** Clear high bits do not change a value. */
  lemma ValueZeroExtend(s: seq<bool>, k: nat)
    ensures Value(s + Zeros(k)) == Value(s)
  {
    ValueConcat(s, Zeros(k));
    ValueOfZeros(k);
  }

  /** The low `m + k` bits are the low `m` bits followed by the next `k`. */
  lemma {:induction false} LowBitsSplit(v: nat, m: nat, k: nat)
    ensures LowBits(v, m + k) == LowBits(v, m) + LowBits(Shr(v, m), k)
  {
    if m > 0 {
      LowBitsSplit(v / 2, m - 1, k);
      HalfThenDivide(v, m);
      calc {
        LowBits(v, m + k);
        [v % 2 == 1] + LowBits(v / 2, (m - 1) + k);
        [v % 2 == 1] + (LowBits(v / 2, m - 1) + LowBits(Shr(v, m), k));
        ([v % 2 == 1] + LowBits(v / 2, m - 1)) + LowBits(Shr(v, m), k);
        LowBits(v, m) + LowBits(Shr(v, m), k);
      }
    }
  }

  /** Reducing modulo `2^m` keeps the low `n <= m` bits. */
  lemma {:induction false} LowBitsMod(v: nat, n: nat, m: nat)
    requires n <= m
    ensures LowBits(v % Pow2(m), n) == LowBits(v, n)
  {
    if n > 0 {
      DivDouble(v, Pow2(m - 1));
      LowBitsMod(v / 2, n - 1, m - 1);
    }
  }
}
