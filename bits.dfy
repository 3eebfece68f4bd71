/** The C shift, or and and operators on unsigned integers, defined bit by bit
    on natural numbers, with the facts that turn the byte-packing expressions
    of the drivers into plain arithmetic. */
module Bits {

  function Pow2(k: nat): (r: nat)
    ensures r >= 1
  {
    if k == 0 then 1 else 2 * Pow2(k - 1)
  }

  lemma {:induction false} Pow2Add(j: nat, k: nat)
    ensures Pow2(j + k) == Pow2(j) * Pow2(k)
  {
    if j > 0 {
      Pow2Add(j - 1, k);
    }
  }

  /** The powers the drivers shift by */
  lemma Pow2Values()
    ensures Pow2(2) == 4 && Pow2(4) == 16 && Pow2(5) == 32
    ensures Pow2(8) == 256 && Pow2(12) == 4096 && Pow2(16) == 65536
  {
    assert Pow2(2) == 4;
    assert Pow2(4) == 16;
    assert Pow2(5) == 32;
    assert Pow2(8) == 256 by { Pow2Add(4, 4); }
    assert Pow2(12) == 4096 by { Pow2Add(8, 4); }
    assert Pow2(16) == 65536 by { Pow2Add(8, 8); }
  }

  /** x << k */
  function Shl(x: nat, k: nat): nat {
    x * Pow2(k)
  }

  /** x >> k, one bit at a time */
  function Shr(x: nat, k: nat): nat {
    if k == 0 then x else Shr(x / 2, k - 1)
  }

  /** x | y, one bit at a time from the least significant end */
  function Or(x: nat, y: nat): nat
    decreases x + y
  {
    if x == 0 then y
    else if y == 0 then x
    else 2 * Or(x / 2, y / 2) + (if x % 2 == 1 || y % 2 == 1 then 1 else 0)
  }

  /** x & y, one bit at a time from the least significant end */
  function And(x: nat, y: nat): nat
    decreases x + y
  {
    if x == 0 || y == 0 then 0
    else 2 * And(x / 2, y / 2) + (if x % 2 == 1 && y % 2 == 1 then 1 else 0)
  }

  /** Or-ing a value into the zero low bits of a shifted value adds it. */
  lemma {:induction false} OrShifted(m: nat, y: nat, k: nat)
    requires y < Pow2(k)
    ensures Or(m * Pow2(k), y) == m * Pow2(k) + y
  {
    if k == 0 {
      assert y == 0;
    } else {
      var p := Pow2(k - 1);
      var x := m * Pow2(k);
      assert x == 2 * (m * p);
      if x != 0 && y != 0 {
        assert x / 2 == m * p && x % 2 == 0;
        assert y / 2 < p;
        OrShifted(m, y / 2, k - 1);
        assert Or(x, y) == 2 * Or(x / 2, y / 2) + y % 2;
      }
    }
  }

  /** (a << 12) | (b << 4) | (c >> 4) for bytes a, b, c: the 20-bit value
      whose upper 16 bits are a and b and whose lower 4 bits are the upper
      nibble of c */
  lemma Pack20(a: nat, b: nat, c: nat)
    requires a < 256 && b < 256 && c < 256
    ensures Or(Or(Shl(a, 12), Shl(b, 4)), Shr(c, 4)) == a * 4096 + b * 16 + c / 16
    ensures a * 4096 + b * 16 + c / 16 < 0x10_0000
  {
    Pow2Values();
    var hi, mid, lo := a * 4096, b * 16, c / 16;
    ShrNibble(c);
    assert Shl(a, 12) == a * Pow2(12) == hi;
    assert Shl(b, 4) == b * Pow2(4) == mid;
    assert mid < Pow2(12);
    OrShifted(a, mid, 12);
    assert Or(hi, mid) == hi + mid;
    var m := a * 256 + b;
    assert m * Pow2(4) == m * 16 == hi + mid;
    assert lo < Pow2(4);
    OrShifted(m, lo, 4);
    assert Or(hi + mid, lo) == hi + mid + lo;
  }

  /** (n << 16) | (b << 8) | c for a nibble n and bytes b, c: the 20-bit
      value whose upper 4 bits are n */
  lemma PackNibbleHigh(n: nat, b: nat, c: nat)
    requires n < 16 && b < 256 && c < 256
    ensures Or(Or(Shl(n, 16), Shl(b, 8)), c) == n * 65536 + b * 256 + c
    ensures n * 65536 + b * 256 + c < 0x10_0000
  {
    Pow2Values();
    var hi, mid := n * 65536, b * 256;
    assert Shl(n, 16) == n * Pow2(16) == hi;
    assert Shl(b, 8) == b * Pow2(8) == mid;
    assert mid < Pow2(16);
    OrShifted(n, mid, 16);
    assert Or(hi, mid) == hi + mid;
    var m := n * 256 + b;
    assert m * Pow2(8) == m * 256 == hi + mid;
    assert c < Pow2(8);
    OrShifted(m, c, 8);
    assert Or(hi + mid, c) == hi + mid + c;
  }

  /** x >> 4 is x / 16. */
  lemma ShrNibble(x: nat)
    ensures Shr(x, 4) == x / 16
  {
    var x1 := x / 2;
    var x2 := x1 / 2;
    var x3 := x2 / 2;
    var x4 := x3 / 2;
    assert Shr(x, 4) == Shr(x1, 3) == Shr(x2, 2) == Shr(x3, 1) == x4;
    var r := 8 * (x3 % 2) + 4 * (x2 % 2) + 2 * (x1 % 2) + x % 2;
    assert x == 16 * x4 + r;
    DivModUnique(x, 16, x4, r);
  }

  /** x & (2^k - 1) keeps the k low bits. */
  lemma {:induction false} AndLowMask(x: nat, k: nat)
    ensures And(x, Pow2(k) - 1) == x % Pow2(k)
  {
    if k == 0 {
      assert Pow2(k) - 1 == 0;
    } else if x != 0 {
      var p := Pow2(k - 1);
      assert Pow2(k) == 2 * p;
      var mask := 2 * p - 1;
      assert mask / 2 == p - 1 && mask % 2 == 1;
      assert And(x, mask) == 2 * And(x / 2, p - 1) + x % 2;
      AndLowMask(x / 2, k - 1);
      ModDouble(x, p);
      assert And(x, mask) == x % (2 * p);
    }
  }

  lemma ModDouble(x: nat, p: nat)
    requires p >= 1
    ensures x % (2 * p) == 2 * ((x / 2) % p) + x % 2
  {
    var q := (x / 2) / p;
    var r := (x / 2) % p;
    assert x / 2 == q * p + r;
    assert x == q * (2 * p) + (2 * r + x % 2);
    DivModUnique(x, 2 * p, q, 2 * r + x % 2);
  }

  /** The quotient and remainder of a division are the only such pair. */
  lemma DivModUnique(x: nat, d: nat, q: nat, r: nat)
    requires d >= 1 && r < d && x == q * d + r
    ensures x / d == q && x % d == r
  {
    var q0, r0 := x / d, x % d;
    assert x == q0 * d + r0;
    if q0 < q {
      MulSplit(q0, q - q0, d);
    } else if q0 > q {
      MulSplit(q, q0 - q, d);
    }
  }

  lemma {:induction false} MulSplit(a: nat, k: nat, d: nat)
    requires k >= 1
    ensures (a + k) * d >= a * d + d
  {
    if k > 1 {
      MulSplit(a, k - 1, d);
      assert (a + k) * d == (a + k - 1) * d + d;
    } else {
      assert (a + 1) * d == a * d + d;
    }
  }
}
