/**
 * Splitting a 64-bit address into the set index and the tag of a
 * set-associative cache (csim.c, `search_update`, first two statements).
 *
 * Addresses are `unsigned long long`: naturals below 2^64. The C shifts on
 * that type are written out: `x << k` keeps the low 64 bits of x * 2^k and
 * `x >> k` is x / 2^k.
 */
module AddressDecode {

  /** Width of an address in bits. */
  const AddressBits: nat := 64

  /** 2^64: one more than the largest address. */
  const AddressSpace: nat := 0x1_0000_0000_0000_0000

  function Pow2(n: nat): (r: nat)
    ensures r >= 1
  {
    if n == 0 then 1 else 2 * Pow2(n - 1)
  }

  lemma AddressSpaceIsPow2()
    ensures Pow2(AddressBits) == AddressSpace
  {
    Pow2Square(1, 2);
    Pow2Square(2, 4);
    Pow2Square(4, 16);
    Pow2Square(8, 0x100);
    Pow2Square(16, 0x1_0000);
    Pow2Square(32, 0x1_0000_0000);
  }

  predicate IsAddress(addr: nat) {
    addr < AddressSpace
  }

  /** `x << k` on a 64-bit unsigned operand: k doublings, each keeping the low 64 bits. */
  function ShiftLeft64(x: nat, k: nat): (r: nat)
    ensures IsAddress(r)
    decreases k
  {
    if k == 0 then x % AddressSpace else ShiftLeft64((2 * x) % AddressSpace, k - 1)
  }

  /** `x >> k` on an unsigned operand: k halvings. */
  function ShiftRight(x: nat, k: nat): (r: nat)
    ensures r <= x
    decreases k
  {
    if k == 0 then x else ShiftRight(x / 2, k - 1)
  }

  /**
   * The geometry the shifts are defined for: the three shift counts
   * `t = 64 - s - b`, `t + b = 64 - s` and `s + b` all lie in 0..63.
   */
  predicate ShiftsDefined(s: nat, b: nat) {
    1 <= s && s + b < AddressBits
  }

  /**
   * The set index as the source computes it: `(addr << t) >> (t + b)` with
   * `t = 64 - s - b`. It always names one of the 2^s sets.
   */
  function SetIndex(addr: nat, s: nat, b: nat): (index: nat)
    requires ShiftsDefined(s, b)
    ensures index < Pow2(s)
  {
    var t := AddressBits - s - b;
    SetIndexMeaning(addr, s, b, t);
    ShiftRight(ShiftLeft64(addr, t), t + b)
  }

  /** The set index is the s bits just above the b offset bits. */
  lemma SetIndexIsMiddleBits(addr: nat, s: nat, b: nat)
    requires ShiftsDefined(s, b)
    ensures SetIndex(addr, s, b) == (addr / Pow2(b)) % Pow2(s)
  {
    SetIndexMeaning(addr, s, b, AddressBits - s - b);
  }

  /** The tag as the source computes it: `addr >> (s + b)`. */
  function Tag(addr: nat, s: nat, b: nat): (tag: nat)
    requires ShiftsDefined(s, b)
    ensures tag == addr / Pow2(s + b)
  {
    ShiftRightValue(addr, s + b);
    ShiftRight(addr, s + b)
  }

  /** The offset inside the block (computed by no one in the source, used for the round trip). */
  function Offset(addr: nat, b: nat): nat {
    addr % Pow2(b)
  }

  /**
   * Tag, set index and offset put back together give the address, and the
   * tag fits in the remaining 64 - s - b bits.
   */
  lemma DecodeRoundTrip(addr: nat, s: nat, b: nat)
    requires IsAddress(addr) && ShiftsDefined(s, b)
    ensures Tag(addr, s, b) * Pow2(s + b) + SetIndex(addr, s, b) * Pow2(b) + Offset(addr, b) == addr
    ensures Tag(addr, s, b) < Pow2(AddressBits - s - b)
  {
    SetIndexIsMiddleBits(addr, s, b);
    ShiftRightValue(addr, s + b);
    Pow2Add(s, b);
    Recompose(addr, Pow2(b), Pow2(s));
    Pow2Add(s + b, AddressBits - s - b);
    AddressSpaceIsPow2();
    DivBelow(addr, Pow2(s + b), Pow2(AddressBits - s - b));
  }

  /**
   * Two addresses decode to the same set index and tag exactly when they lie
   * in the same block of 2^b bytes.
   */
  lemma SameDecodeIffSameBlock(a1: nat, a2: nat, s: nat, b: nat)
    requires ShiftsDefined(s, b)
    ensures (SetIndex(a1, s, b) == SetIndex(a2, s, b) && Tag(a1, s, b) == Tag(a2, s, b))
            <==> a1 / Pow2(b) == a2 / Pow2(b)
  {
    SetIndexIsMiddleBits(a1, s, b);
    SetIndexIsMiddleBits(a2, s, b);
    ShiftRightValue(a1, s + b);
    ShiftRightValue(a2, s + b);
    Pow2Add(s, b);
    SameBlock(a1, a2, Pow2(b), Pow2(s));
  }

  // ---------------------------------------------------------------------
  // Arithmetic facts behind the two lemmas above and SetIndex's contract.
  // ---------------------------------------------------------------------

  lemma {:induction false} Pow2Add(m: nat, n: nat)
    ensures Pow2(m + n) == Pow2(m) * Pow2(n)
  {
    if m > 0 {
      Pow2Add(m - 1, n);
      MulAssoc(2, Pow2(m - 1), Pow2(n));
    }
  }

  lemma Pow2Square(n: nat, v: nat)
    requires Pow2(n) == v
    ensures Pow2(n + n) == v * v
  {
    Pow2Add(n, n);
  }

  lemma MulAssoc(x: int, y: int, z: int)
    ensures x * (y * z) == (x * y) * z
  {
  }

  lemma MulLe(x: int, y: int, d: int)
    requires d >= 0 && x <= y
    ensures x * d <= y * d
  {
    assert y * d - x * d == (y - x) * d;
  }

  lemma Regroup(u: int, v: int, q: int, p: int)
    ensures (u * q + v) * p == u * (p * q) + v * p
  {
  }

  /** Quotient and remainder are the only ones with x == q * d + r and 0 <= r < d. */
  lemma DivModUnique(x: int, d: int, q: int, r: int)
    requires d > 0 && 0 <= r < d && x == q * d + r
    ensures x / d == q && x % d == r
  {
    var q', r' := x / d, x % d;
    assert x == q' * d + r';
    assert (q - q') * d == r' - r;
    if q > q' {
      MulLe(1, q - q', d);
    } else if q < q' {
      MulLe(1, q' - q, d);
    }
  }

  /** Dividing by p * q is dividing by p, then by q. */
  lemma DivDiv(a: nat, p: nat, q: nat)
    requires p > 0 && q > 0
    ensures a / (p * q) == (a / p) / q
    ensures a % (p * q) == (a / p) % q * p + a % p
  {
    var n := a / p;
    var u, v, w := n / q, n % q, a % p;
    assert a == n * p + w;
    assert n == u * q + v;
    MulLe(v, q - 1, p);
    Regroup(u, v, q, p);
    DivModUnique(a, p * q, u, v * p + w);
  }

  /** Shifting left by m and keeping m * q worth of low bits. */
  lemma MulMod(x: nat, m: nat, q: nat)
    requires m > 0 && q > 0
    ensures (x * m) % (m * q) == (x % q) * m
  {
    var u, v := x / q, x % q;
    assert x == u * q + v;
    MulLe(v, q - 1, m);
    Regroup(u, v, q, m);
    DivModUnique(x * m, m * q, u, v * m);
  }

  /** Shifting left by m then right by m * k is shifting right by k. */
  lemma MulDivCancel(y: nat, m: nat, k: nat)
    requires m > 0 && k > 0
    ensures (y * m) / (m * k) == y / k
  {
    var u, v := y / k, y % k;
    assert y == u * k + v;
    MulLe(v, k - 1, m);
    Regroup(u, v, k, m);
    DivModUnique(y * m, m * k, u, v * m);
  }

  lemma DivBelow(a: nat, p: nat, q: nat)
    requires p > 0 && a < p * q
    ensures a / p < q
  {
    var n := a / p;
    assert a == n * p + a % p;
    if n >= q {
      MulLe(q, n, p);
      assert false;
    }
  }

  /** Round trip over abstract powers of two. */
  lemma Recompose(addr: nat, pb: nat, ps: nat)
    requires pb > 0 && ps > 0
    ensures (addr / (ps * pb)) * (ps * pb) + ((addr / pb) % ps) * pb + addr % pb == addr
  {
    assert ps * pb == pb * ps;
    DivDiv(addr, pb, ps);
    var n := addr / pb;
    assert n == (n / ps) * ps + n % ps;
    assert addr == n * pb + addr % pb;
    Regroup(n / ps, n % ps, ps, pb);
  }

  /** Same block number over abstract powers of two. */
  lemma SameBlock(a1: nat, a2: nat, pb: nat, ps: nat)
    requires pb > 0 && ps > 0
    ensures ((a1 / pb) % ps == (a2 / pb) % ps && a1 / (ps * pb) == a2 / (ps * pb))
            <==> a1 / pb == a2 / pb
  {
    assert ps * pb == pb * ps;
    DivDiv(a1, pb, ps);
    DivDiv(a2, pb, ps);
    var n1, n2 := a1 / pb, a2 / pb;
    assert n1 == (n1 / ps) * ps + n1 % ps;
    assert n2 == (n2 / ps) * ps + n2 % ps;
  }

  /** The shift form of the set index, over abstract powers of two. */
  lemma ShiftFormula(addr: nat, pt: nat, pb: nat, ps: nat, m: nat, ptb: nat)
    requires pt > 0 && pb > 0 && ps > 0
    requires m == pt * (ps * pb) && ptb == pt * pb
    ensures ((addr * pt) % m) / ptb == (addr / pb) % ps
  {
    var psb := ps * pb;
    MulMod(addr, pt, psb);
    var low := addr % psb;
    MulDivCancel(low, pt, pb);
    DivDiv(addr, pb, ps);
    assert psb == pb * ps;
    assert low == (addr / pb) % ps * pb + addr % pb;
    DivModUnique(low, pb, (addr / pb) % ps, addr % pb);
  }

  /** `x << k` keeps the low 64 bits of x * 2^k. */
  lemma {:induction false} ShiftLeft64Value(x: nat, k: nat)
    ensures ShiftLeft64(x, k) == (x * Pow2(k)) % AddressSpace
    decreases k
  {
    if k > 0 {
      ShiftLeft64Value((2 * x) % AddressSpace, k - 1);
      ModMulMod(2 * x, Pow2(k - 1), AddressSpace);
      MulAssoc(x, 2, Pow2(k - 1));
    }
  }

  /** `x >> k` is x / 2^k. */
  lemma {:induction false} ShiftRightValue(x: nat, k: nat)
    ensures ShiftRight(x, k) == x / Pow2(k)
    decreases k
  {
    if k > 0 {
      ShiftRightValue(x / 2, k - 1);
      DivDiv(x, 2, Pow2(k - 1));
    }
  }

  /** Reducing a factor modulo m before multiplying does not change the product modulo m. */
  lemma ModMulMod(a: nat, c: nat, m: nat)
    requires m > 0
    ensures ((a % m) * c) % m == (a * c) % m
  {
    var q, r := a / m, a % m;
    assert a == q * m + r;
    assert a * c == (q * c) * m + r * c by {
      Regroup(q, r, m, c);
      MulAssoc(q, m, c);
    }
    var q2, r2 := (r * c) / m, (r * c) % m;
    assert r * c == q2 * m + r2;
    assert a * c == (q * c + q2) * m + r2;
    DivModUnique(a * c, m, q * c + q2, r2);
  }

  lemma Pow2Split(s: nat, b: nat, t: nat)
    requires s + b + t == AddressBits
    ensures AddressSpace == Pow2(t) * (Pow2(s) * Pow2(b))
    ensures Pow2(t + b) == Pow2(t) * Pow2(b)
  {
    AddressSpaceIsPow2();
    Pow2Add(t, s + b);
    Pow2Add(s, b);
    Pow2Add(t, b);
  }

  /** The shift form of the set index equals the arithmetic one. */
  lemma SetIndexMeaning(addr: nat, s: nat, b: nat, t: nat)
    requires s + b + t == AddressBits
    ensures ShiftRight(ShiftLeft64(addr, t), t + b) == (addr / Pow2(b)) % Pow2(s)
    ensures (addr / Pow2(b)) % Pow2(s) < Pow2(s)
  {
    Pow2Split(s, b, t);
    var pt, pb, ps, m, ptb := Pow2(t), Pow2(b), Pow2(s), AddressSpace, Pow2(t + b);
    ShiftFormula(addr, pt, pb, ps, m, ptb);
    ShiftLeft64Value(addr, t);
    ShiftRightValue(ShiftLeft64(addr, t), t + b);
  }
}
