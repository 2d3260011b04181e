/** The C integer operators of the source, on unbounded naturals.

    Shifts, masks and bitwise or are defined bit by bit; the lemmas below turn every use the
    source makes of them (fields, flags, aligned addresses) into division and remainder. */
module Bits {

  type byte = x: int | 0 <= x < 256
  type u16 = x: int | 0 <= x < 0x1_0000
  type u32 = x: int | 0 <= x < 0x1_0000_0000
  type u64 = x: int | 0 <= x < 0x1_0000_0000_0000_0000

  function Pow2(n: nat): (p: nat)
    ensures p > 0
  {
    if n == 0 then 1 else 2 * Pow2(n - 1)
  }

  function And(a: nat, b: nat): nat {
    if a == 0 || b == 0 then 0
    else 2 * And(a / 2, b / 2) + (if a % 2 == 1 && b % 2 == 1 then 1 else 0)
  }

  function Or(a: nat, b: nat): nat
    decreases a + b
  {
    if a == 0 then b else if b == 0 then a
    else 2 * Or(a / 2, b / 2) + (if a % 2 == 1 || b % 2 == 1 then 1 else 0)
  }

  function Shr(x: nat, n: nat): nat {
    if n == 0 then x else Shr(x / 2, n - 1)
  }

  function Shl(x: nat, n: nat): nat {
    if n == 0 then x else 2 * Shl(x, n - 1)
  }

  /** n one bits. */
  function Ones(n: nat): nat {
    if n == 0 then 0 else 2 * Ones(n - 1) + 1
  }

  lemma MulAtLeast(n: int, d: int)
    requires n >= 1 && d >= 0
    ensures n * d >= d
  {
    assert (n - 1) * d >= 0;
    assert n * d == (n - 1) * d + d;
  }

  lemma MulDistributes(a: int, b: int, d: int)
    ensures (a - b) * d == a * d - b * d
  {}

  lemma DivModUnique(x: int, d: int, q: int, r: int)
    requires x == q * d + r && 0 <= r < d
    ensures x / d == q && x % d == r
  {
    var q', r' := x / d, x % d;
    assert x == q' * d + r';
    MulDistributes(q', q, d);
    if q' > q {
      MulAtLeast(q' - q, d);
    } else if q' < q {
      MulDistributes(q, q', d);
      MulAtLeast(q - q', d);
    }
  }

  lemma HalveMod(x: nat, p: nat)
    requires p > 0
    ensures x % (2 * p) == 2 * (x / 2 % p) + x % 2
    ensures x / (2 * p) == x / 2 / p
  {
    var q, r := x / 2 / p, x / 2 % p;
    assert x / 2 == q * p + r;
    assert x == q * (2 * p) + (2 * r + x % 2) by {
      assert q * (2 * p) == 2 * (q * p);
    }
    DivModUnique(x, 2 * p, q, 2 * r + x % 2);
  }

  lemma {:induction false} ShrIsDiv(x: nat, n: nat)
    ensures Shr(x, n) == x / Pow2(n)
  {
    if n != 0 {
      ShrIsDiv(x / 2, n - 1);
      HalveMod(x, Pow2(n - 1));
    }
  }

  lemma {:induction false} ShlIsMul(x: nat, n: nat)
    ensures Shl(x, n) == x * Pow2(n)
  {
    if n != 0 {
      ShlIsMul(x, n - 1);
    }
  }

  /** A mask of k ones keeps the k low bits. */
  lemma {:induction false} AndOnes(x: nat, k: nat)
    ensures And(x, Ones(k)) == x % Pow2(k)
  {
    if k != 0 {
      AndOnes(x / 2, k - 1);
      HalveMod(x, Pow2(k - 1));
    }
  }

  /** A mask whose m low bits are clear acts on the bits above them. */
  lemma {:induction false} AndShl(x: nat, y: nat, m: nat)
    ensures And(x, Shl(y, m)) == Shl(And(Shr(x, m), y), m)
  {
    if m != 0 {
      AndShl(x / 2, y, m - 1);
      ZeroShl(m);
    }
  }

  lemma {:induction false} ZeroShl(m: nat)
    ensures Shl(0, m) == 0 && Shr(0, m) == 0
  {
    if m != 0 { ZeroShl(m - 1); }
  }

  /** A field of k bits at bit m, masked in place. */
  lemma AndField(x: nat, k: nat, m: nat)
    ensures And(x, Shl(Ones(k), m)) == (x / Pow2(m) % Pow2(k)) * Pow2(m)
  {
    AndShl(x, Ones(k), m);
    ShrIsDiv(x, m);
    AndOnes(Shr(x, m), k);
    ShlIsMul(x / Pow2(m) % Pow2(k), m);
  }

  /** Testing one bit. */
  lemma AndBit(x: nat, m: nat)
    ensures And(x, Shl(1, m)) != 0 <==> x / Pow2(m) % 2 == 1
  {
    assert Ones(1) == 1 && Pow2(1) == 2;
    AndField(x, 1, m);
  }

  /** Or of a value whose k low bits are clear with a value of at most k bits is their sum. */
  lemma {:induction false} OrDisjoint(a: nat, b: nat, k: nat)
    requires a % Pow2(k) == 0 && b < Pow2(k)
    ensures Or(a, b) == a + b
  {
    if a != 0 && b != 0 {
      HalveMod(a, Pow2(k - 1));
      OrDisjoint(a / 2, b / 2, k - 1);
    }
  }

  lemma {:induction false} OrSwap(a: nat, b: nat)
    ensures Or(a, b) == Or(b, a)
    decreases a + b
  {
    if a != 0 && b != 0 { OrSwap(a / 2, b / 2); }
  }

  lemma Powers()
    ensures Pow2(1) == 2 && Pow2(2) == 4 && Pow2(3) == 8 && Pow2(8) == 256 && Pow2(9) == 512
    ensures Pow2(10) == 1024 && Pow2(12) == 0x1000 && Pow2(16) == 0x1_0000
    ensures Pow2(21) == 0x20_0000 && Pow2(24) == 0x100_0000
    ensures Pow2(30) == 0x4000_0000 && Pow2(32) == 0x1_0000_0000
    ensures Pow2(36) == 0x10_0000_0000 && Pow2(39) == 0x80_0000_0000
    ensures Pow2(60) == 0x1000_0000_0000_0000 && Pow2(61) == 0x2000_0000_0000_0000
    ensures Pow2(62) == 0x4000_0000_0000_0000 && Pow2(64) == 0x1_0000_0000_0000_0000
  {
    assert Pow2(8) == 256;
    assert Pow2(16) == 0x1_0000;
    assert Pow2(24) == 0x100_0000;
    assert Pow2(32) == 0x1_0000_0000;
    assert Pow2(40) == 0x100_0000_0000;
    assert Pow2(48) == 0x1_0000_0000_0000;
    assert Pow2(56) == 0x100_0000_0000_0000;
    assert Pow2(64) == 0x1_0000_0000_0000_0000;
  }
}
