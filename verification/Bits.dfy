/** Numbers as strings of bits: powers of two, and bit-wise operations of a given width. */
module Bits {
  function Pow2(n: nat): (p: nat)
    ensures p > 0
  {
    if n == 0 then 1 else 2 * Pow2(n - 1)
  }

  lemma {:induction false} Pow2Of32()
    ensures Pow2(32) == 0x1_0000_0000
  {
    assert Pow2(8) == 0x100;
    assert Pow2(16) == 0x1_0000;
    assert Pow2(24) == 0x100_0000;
  }

  /** The bits set in both of two numbers of `n` bits. */
  function And(x: nat, y: nat, n: nat): (r: nat)
    requires x < Pow2(n) && y < Pow2(n)
    ensures r < Pow2(n)
  {
    if n == 0 then 0 else 2 * And(x / 2, y / 2, n - 1) + if x % 2 == 1 && y % 2 == 1 then 1 else 0
  }

  /** The bits set in one of two numbers of `n` bits. */
  function Or(x: nat, y: nat, n: nat): (r: nat)
    requires x < Pow2(n) && y < Pow2(n)
    ensures r < Pow2(n)
  {
    if n == 0 then 0 else 2 * Or(x / 2, y / 2, n - 1) + if x % 2 == 1 || y % 2 == 1 then 1 else 0
  }

  /** The number that the lower `k` bits make up. */
  function Low(x: nat, k: nat): (r: nat)
    ensures r < Pow2(k)
  {
    x % Pow2(k)
  }

  lemma {:induction false} LowHalf(x: nat, k: nat)
    requires k > 0
    ensures Low(x, k) == 2 * Low(x / 2, k - 1) + x % 2
  {
    var s := Pow2(k - 1);
    hide Pow2;
    var (q, r) := (x / 2 / s, x / 2 % s);
    Division(x / 2, s);
    Doubled(q, s);
    Remainder(x, q, 2 * s, 2 * r + x % 2);
  }

  lemma {:induction false} LowNone(x: nat)
    ensures Low(x, 0) == 0
  {}

  lemma {:induction false} Division(x: nat, s: nat)
    requires s > 0
    ensures x == x / s * s + x % s && x % s < s
  {}

  lemma {:induction false} Doubled(q: nat, s: nat)
    ensures q * (2 * s) == 2 * (q * s)
  {}

  lemma {:induction false} Remainder(x: nat, q: nat, s: nat, r: nat)
    requires s > 0 && x == q * s + r && r < s
    ensures x % s == r && x / s == q
  {
    Division(x, s);
    assert (x / s - q) * s == x / s * s - q * s;
    Multiples(x / s - q, s);
  }

  lemma {:induction false} Multiples(d: int, s: nat)
    ensures d >= 1 ==> d * s >= s
    ensures d <= -1 ==> d * s <= 0 - s
  {
    if d >= 1 {
      assert d * s == (d - 1) * s + s && (d - 1) * s >= 0;
    } else if d <= -1 {
      assert d * s == 0 - ((0 - d - 1) * s + s) && (0 - d - 1) * s >= 0;
    }
  }

  lemma {:induction false} Pow2Order(k: nat, n: nat)
    requires k <= n
    ensures Pow2(k) <= Pow2(n)
  {
    if k < n {
      Pow2Order(k, n - 1);
    }
  }

  /** Keeping the upper bits rounds down to a multiple of the rest. */
  lemma {:induction false} AndUpper(x: nat, k: nat, n: nat)
    requires k <= n && x < Pow2(n) && Pow2(k) <= Pow2(n)
    ensures And(x, Pow2(n) - Pow2(k), n) == x - Low(x, k)
  {
    LowNone(x);
    hide Low;
    if k == 0 {
      AndAll(x, n);
    } else {
      var y := Pow2(n) - Pow2(k);
      Pow2Order(k - 1, n - 1);
      assert y == 2 * (Pow2(n - 1) - Pow2(k - 1));
      AndUpper(x / 2, k - 1, n - 1);
      LowHalf(x, k);
    }
  }

  lemma {:induction false} AndAll(x: nat, n: nat)
    requires x < Pow2(n)
    ensures And(x, Pow2(n) - 1, n) == x
  {
    if n > 0 {
      AndAll(x / 2, n - 1);
      assert (Pow2(n) - 1) / 2 == Pow2(n - 1) - 1 && (Pow2(n) - 1) % 2 == 1;
    }
  }

  /** Keeping the lower bits gives the remainder. */
  lemma {:induction false} AndLower(x: nat, k: nat, n: nat)
    requires k <= n && x < Pow2(n) && Pow2(k) <= Pow2(n)
    ensures And(x, Pow2(k) - 1, n) == Low(x, k)
  {
    LowNone(x);
    hide Low;
    if k == 0 {
      AndNone(x, n);
    } else {
      Pow2Order(k - 1, n - 1);
      assert (Pow2(k) - 1) / 2 == Pow2(k - 1) - 1 && (Pow2(k) - 1) % 2 == 1;
      AndLower(x / 2, k - 1, n - 1);
      LowHalf(x, k);
    }
  }

  lemma {:induction false} AndNone(x: nat, n: nat)
    requires x < Pow2(n)
    ensures And(x, 0, n) == 0
  {
    if n > 0 {
      AndNone(x / 2, n - 1);
    }
  }

  /** Where the bits of one number are absent from the other, setting them adds it. */
  lemma {:induction false} OrSplit(h: nat, u: nat, k: nat, n: nat)
    requires k <= n && h < Pow2(k) <= Pow2(n) && u < Pow2(n) && Low(u, k) == 0
    ensures Or(h, u, n) == h + u
  {
    LowNone(u);
    hide Low;
    if n > 0 {
      if k == 0 {
        OrNone(u, n);
      } else {
        Pow2Order(k - 1, n - 1);
        LowHalf(u, k);
        OrSplit(h / 2, u / 2, k - 1, n - 1);
      }
    }
  }

  lemma {:induction false} OrNone(x: nat, n: nat)
    requires x < Pow2(n)
    ensures Or(0, x, n) == x
  {
    if n > 0 {
      OrNone(x / 2, n - 1);
    }
  }
}
