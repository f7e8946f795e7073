/** Python integer bit operations as used by the probe firmware, and the
    packing of bit sequences into words (most significant bit first).

    Python integers are unbounded and behave as infinite two's-complement
    bit strings under `>>`, `&` and `|`. Dafny's `/` and `%` with a positive
    divisor round toward minus infinity, exactly as Python's `//` and `%`
    do, so halving with `/ 2` is Python's `>> 1` for every integer. */
module Bits {

  function Pow2(n: nat): (p: nat)
    ensures p >= 1
  {
    if n == 0 then 1 else 2 * Pow2(n - 1)
  }

  /** Python's `x >> k`. */
  function Shr(x: int, k: nat): int
    decreases k
  {
    if k == 0 then x else Shr(x / 2, k - 1)
  }

  /** Python's `x & m` for a non-negative mask `m`, one bit at a time. */
  function BitAnd(x: int, m: nat): nat
    decreases m
  {
    if m == 0 then 0
    else 2 * BitAnd(x / 2, m / 2) + (if x % 2 == 1 && m % 2 == 1 then 1 else 0)
  }

  /** Python's `a | b` for non-negative operands, one bit at a time. */
  function BitOr(a: nat, b: nat): nat
    decreases a + b
  {
    if a == 0 then b
    else if b == 0 then a
    else 2 * BitOr(a / 2, b / 2) + (if a % 2 == 1 || b % 2 == 1 then 1 else 0)
  }

  /** The `n` low bits of `x`, most significant first. */
  function MsbBits(x: int, n: nat): (bs: seq<bool>)
    ensures |bs| == n
    decreases n
  {
    if n == 0 then [] else MsbBits(x / 2, n - 1) + [x % 2 == 1]
  }

  /** The number whose binary digits are `bs`, most significant first. */
  function Pack(bs: seq<bool>): (v: nat)
    ensures v < Pow2(|bs|)
  {
    if bs == [] then 0
    else 2 * Pack(bs[..|bs| - 1]) + (if bs[|bs| - 1] then 1 else 0)
  }

  lemma Pow2Values()
    ensures Pow2(1) == 2 && Pow2(6) == 64 && Pow2(16) == 0x10000
  {
    assert Pow2(2) == 4;
    assert Pow2(4) == 16;
    assert Pow2(6) == 64;
    assert Pow2(8) == 256;
    assert Pow2(12) == 4096;
    assert Pow2(16) == 0x10000;
  }

  // ---------------------------------------------------------------------
  // Arithmetic helpers

  /** Division with remainder determines the remainder. */
  lemma ModUnique(x: int, m: int, t: int, s: int)
    requires m > 0 && 0 <= s < m && x == m * t + s
    ensures x % m == s && x / m == t
  {
    var q, r := x / m, x % m;
    assert x == m * q + r;
    if q > t {
      assert m * q >= m * (t + 1) by { MulMonotone(m, t + 1, q); }
    } else if q < t {
      assert m * t >= m * (q + 1) by { MulMonotone(m, q + 1, t); }
    }
  }

  lemma MulMonotone(m: int, a: int, b: int)
    requires m > 0 && a <= b
    ensures m * a <= m * b
  {
    assert m * b - m * a == m * (b - a);
  }

  lemma MulDouble(p: int, q: int)
    ensures p * (2 * q) == 2 * (p * q)
  {
  }

  /** Splitting off the lowest bit commutes with taking the low bits. */
  lemma ModDouble(x: int, p: nat, q: nat)
    requires p >= 1 && q == 2 * p
    ensures 2 * ((x / 2) % p) + x % 2 == x % q
    ensures (x / 2) / p == x / q
  {
    var q, r := x / 2, x % 2;
    var t, u := q / p, q % p;
    assert x == 2 * q + r;
    assert q == p * t + u;
    assert x == (2 * p) * t + (2 * u + r);
    ModUnique(x, 2 * p, t, 2 * u + r);
  }

  // ---------------------------------------------------------------------
  // Masks and disjoint or

  /** `x & (2^n - 1)` keeps exactly the `n` low bits of `x`. */
  lemma {:induction false} AndLowMask(x: int, n: nat)
    ensures BitAnd(x, Pow2(n) - 1) == x % Pow2(n)
    decreases n
  {
    if n > 0 {
      var p, m := Pow2(n - 1), Pow2(n) - 1;
      assert Pow2(n) == 2 * p;
      assert m / 2 == p - 1 && m % 2 == 1;
      AndLowMask(x / 2, n - 1);
      assert BitAnd(x, m) == 2 * BitAnd(x / 2, p - 1) + x % 2;
      ModDouble(x, p, Pow2(n));
      assert BitAnd(x, m) == x % Pow2(n);
    } else {
      assert Pow2(n) == 1 && BitAnd(x, 0) == 0;
      assert x % Pow2(n) == 0;
    }
  }

  /** When `a` has its `n` low bits clear and `b` fits in them, `a | b == a + b`. */
  lemma {:induction false} OrDisjoint(a: nat, b: nat, n: nat)
    requires a % Pow2(n) == 0 && b < Pow2(n)
    ensures BitOr(a, b) == a + b
  {
    if a != 0 && b != 0 {
      assert n > 0;
      var p := Pow2(n - 1);
      ModDouble(a, p, Pow2(n));
      assert (a / 2) % p == 0;
      OrDisjoint(a / 2, b / 2, n - 1);
    }
  }

  // ---------------------------------------------------------------------
  // Bit sequences

  /** Element `i` of `MsbBits(x, n)` is bit `n - 1 - i` of `x`, that is
      `(x >> (n - 1 - i)) & 1`. */
  lemma {:induction false} MsbBitsAt(x: int, n: nat, i: nat)
    requires i < n
    ensures MsbBits(x, n)[i] == (Shr(x, n - 1 - i) % 2 == 1)
    decreases n
  {
    if i < n - 1 {
      MsbBitsAt(x / 2, n - 1, i);
    }
  }

  /** Packing appends: the bits of `b` are the low bits. */
  lemma {:induction false} PackAppend(a: seq<bool>, b: seq<bool>)
    ensures Pack(a + b) == Pack(a) * Pow2(|b|) + Pack(b)
  {
    if b == [] {
      assert a + b == a;
    } else {
      var b' := b[..|b| - 1];
      var last := if b[|b| - 1] then 1 else 0;
      assert (a + b)[..|a + b| - 1] == a + b';
      PackAppend(a, b');
      var p, q := Pack(a), Pow2(|b'|);
      var pq := p * q;
      assert Pack(a + b') == pq + Pack(b');
      calc {
        Pack(a + b);
        2 * Pack(a + b') + last;
        2 * pq + (2 * Pack(b') + last);
        2 * pq + Pack(b);
        { MulDouble(p, q); }
        p * (2 * q) + Pack(b);
        { assert Pow2(|b|) == 2 * q; }
        p * Pow2(|b|) + Pack(b);
      }
    }
  }

  /** Packing the `n` low bits of `x` gives `x mod 2^n`. */
  lemma {:induction false} PackMsbBits(x: int, n: nat)
    ensures Pack(MsbBits(x, n)) == x % Pow2(n)
    decreases n
  {
    if n > 0 {
      var bs := MsbBits(x, n);
      assert bs[..n - 1] == MsbBits(x / 2, n - 1);
      PackMsbBits(x / 2, n - 1);
      ModDouble(x, Pow2(n - 1), Pow2(n));
    }
  }

  /** Splitting a packed word back into its bits gives the bits. */
  lemma {:induction false} MsbBitsPack(bs: seq<bool>)
    ensures MsbBits(Pack(bs), |bs|) == bs
  {
    if bs != [] {
      var init := bs[..|bs| - 1];
      var v := Pack(bs);
      assert v / 2 == Pack(init) && v % 2 == (if bs[|bs| - 1] then 1 else 0);
      MsbBitsPack(init);
    }
  }

  /** Only the `n` low bits of `x` show in `MsbBits(x, n)`. */
  lemma {:induction false} LowBitsOnly(x: int, n: nat)
    ensures MsbBits(x, n) == MsbBits(x % Pow2(n), n)
  {
    PackMsbBits(x, n);
    MsbBitsPack(MsbBits(x, n));
  }

  /** Dropping the leading bit of a packed sequence is taking it modulo the
      weight of that bit. */
  lemma {:induction false} PackDropHead(bs: seq<bool>)
    requires |bs| >= 1
    ensures Pack(bs) % Pow2(|bs| - 1) == Pack(bs[1..])
  {
    var head, rest := bs[..1], bs[1..];
    assert bs == head + rest;
    PackAppend(head, rest);
    var m, t, s := Pow2(|rest|), Pack(head), Pack(rest);
    assert Pack(bs) == m * t + s;
    ModUnique(Pack(bs), m, t, s);
  }
}
