/** Bitwise operations on natural numbers, and how they act on the fields of a word. */
module Bits {
  import opened Arithmetic

  function Pow2(k: nat): (p: nat)
    ensures p > 0
  {
    if k == 0 then 1 else 2 * Pow2(k - 1)
  }

  /** `a | b`. */
  function Or(a: nat, b: nat): nat
    decreases a + b
  {
    if a == 0 && b == 0 then 0
    else 2 * Or(a / 2, b / 2) + (if a % 2 == 1 || b % 2 == 1 then 1 else 0)
  }

  /** `a ^ b`. */
  function Xor(a: nat, b: nat): nat
    decreases a + b
  {
    if a == 0 && b == 0 then 0
    else 2 * Xor(a / 2, b / 2) + (if a % 2 != b % 2 then 1 else 0)
  }

  /** The bits of `a` from position `k` up: `a >> k`. */
  function High(a: nat, k: nat): nat {
    if k == 0 then a else High(a / 2, k - 1)
  }

  /** The `k` lowest bits of `a`: `a & (2^k - 1)`. */
  function Low(a: nat, k: nat): nat {
    if k == 0 then 0 else 2 * Low(a / 2, k - 1) + a % 2
  }

  /** Shifting and masking are division and remainder. */
  lemma {:induction false} HighLow(a: nat, k: nat)
    ensures High(a, k) == a / Pow2(k) && Low(a, k) == a % Pow2(k)
    ensures a == Pow2(k) * High(a, k) + Low(a, k) && Low(a, k) < Pow2(k)
  {
    if k > 0 {
      HighLow(a / 2, k - 1);
      HalveDivMod(a, Pow2(k - 1), Pow2(k));
    }
  }

  lemma OrHalves(a: nat, b: nat)
    ensures Or(a, b) / 2 == Or(a / 2, b / 2)
    ensures Or(a, b) % 2 == (if a % 2 == 1 || b % 2 == 1 then 1 else 0)
  {}

  /** The bits above and below position `k` are or-ed separately. */
  lemma {:induction false} OrSplit(a: nat, b: nat, k: nat)
    ensures High(Or(a, b), k) == Or(High(a, k), High(b, k))
    ensures Low(Or(a, b), k) == Or(Low(a, k), Low(b, k))
  {
    if k > 0 {
      OrHalves(a, b);
      OrHalves(Low(a, k), Low(b, k));
      OrSplit(a / 2, b / 2, k - 1);
    }
  }

  lemma {:induction false} OrZero(a: nat)
    ensures Or(a, 0) == a && Or(0, a) == a
  {
    if a > 0 { OrZero(a / 2); }
  }

  /** A multiple of `2^k` or-ed with a number below `2^k` is their sum. */
  lemma OrAdd(a: nat, b: nat, k: nat)
    requires a % Pow2(k) == 0 && b < Pow2(k)
    ensures Or(a, b) == a + b
  {
    OrSplit(a, b, k);
    HighLow(a, k);
    HighLow(b, k);
    HighLow(Or(a, b), k);
    DivModUnique(b, Pow2(k), 0, b);
    OrZero(b);
    OrZero(High(a, k));
  }

  lemma {:induction false} OrComm(a: nat, b: nat)
    ensures Or(a, b) == Or(b, a)
    decreases a + b
  {
    if a > 0 || b > 0 { OrComm(a / 2, b / 2); }
  }

  lemma Fields(q: nat, x: nat, k: nat)
    requires x < Pow2(k)
    ensures High(Pow2(k) * q + x, k) == q && Low(Pow2(k) * q + x, k) == x
  {
    HighLow(Pow2(k) * q + x, k);
    DivModUnique(Pow2(k) * q + x, Pow2(k), q, x);
  }

  /** Or-ing a number below `2^k` leaves the bits from `k` up alone. */
  lemma OrBelow(q: nat, x: nat, y: nat, k: nat)
    requires x < Pow2(k) && y < Pow2(k)
    ensures Or(Pow2(k) * q + x, y) == Pow2(k) * q + Or(x, y) && Or(x, y) < Pow2(k)
  {
    Fields(q, x, k);
    Fields(0, x, k);
    Fields(0, y, k);
    assert Pow2(k) * 0 + x == x && Pow2(k) * 0 + y == y;
    hide Or, High, Low, Pow2;
    var w := Pow2(k) * q + x;
    OrSplit(w, y, k);
    OrSplit(x, y, k);
    HighLow(Or(x, y), k);
    HighLow(Or(w, y), k);
    OrZero(q);
  }

  lemma {:induction false} Pow2Monotone(j: nat, k: nat)
    requires j <= k
    ensures Pow2(j) <= Pow2(k)
    decreases k
  {
    if j < k { Pow2Monotone(j, k - 1); }
  }

  lemma {:induction false} Pow2Add(j: nat, k: nat)
    ensures Pow2(j + k) == Pow2(j) * Pow2(k)
    decreases k
  {
    if k > 0 {
      assert j + k - 1 == j + (k - 1);
      Pow2Add(j, k - 1);
      assert 2 * (Pow2(j) * Pow2(k - 1)) == Pow2(j) * (2 * Pow2(k - 1));
    }
  }
}
