/** The shifted and rotated handle word with which `HandleMap` walks its tree. */
module HandleWalk {
  import opened Arithmetic
  import opened Bits
  import opened HandleTree

  const WORDS: nat := 0x1_0000_0000

  /** `x << bits` on 32 bits. */
  function ShiftLeft(x: nat, bits: nat): nat { x * Pow2(bits) % WORDS }

  /** `x.rotate_left(8)` on 32 bits. */
  function RotateLeft8(x: nat): nat { x * 256 % WORDS + x / 0x100_0000 }

  function BitLength(x: nat): (k: nat)
    ensures x < Pow2(k) && (x > 0 ==> k > 0 && Pow2(k - 1) <= x)
  {
    if x == 0 then 0 else BitLength(x / 2) + 1
  }

  /** `max_handle.leading_zeros() & !7`. */
  function ExtraBits(max: nat): nat
    requires max < WORDS
  {
    BitLength32(max);
    var zeros := 32 - BitLength(max);
    zeros - zeros % 8
  }

  lemma BitLength32(max: nat)
    requires max < WORDS
    ensures BitLength(max) <= 32
  {
    var k := BitLength(max);
    if k > 32 { Pow2Monotone(32, k - 1); Pow2Is(); }
  }

  lemma Pow2Is()
    ensures Pow2(8) == 256 && Pow2(16) == 0x1_0000 && Pow2(24) == 0x100_0000 && Pow2(32) == WORDS
  {
    assert Pow2(8) == 256;
    assert Pow2(16) == 0x1_0000;
    assert Pow2(24) == 0x100_0000;
  }

  /** `(32 - extra_bits).div_ceil(8)`. */
  function Depth(max: nat): nat
    requires max < WORDS
  {
    (32 - ExtraBits(max) + 7) / 8
  }

  /** For a positive maximum the depth is the number of bytes it takes. */
  lemma DepthIs(max: nat)
    requires 0 < max < WORDS
    ensures 1 <= Depth(max) <= 4 && ExtraBits(max) == 8 * (4 - Depth(max))
    ensures max < Pow256(Depth(max)) && (Depth(max) > 1 ==> Pow256(Depth(max) - 1) <= max)
  {
    BitLength32(max);
    var k, d := BitLength(max), Depth(max);
    assert 8 * (d - 1) < k <= 8 * d;
    BytePowers(d);
    BytePowers(d - 1);
    Pow2Monotone(k, 8 * d);
    Pow2Monotone(8 * (d - 1), k - 1);
  }

  /** For a maximum of zero no shift of the handle is left, and no level. */
  lemma NoHandles(max: nat)
    requires max == 0
    ensures ExtraBits(max) == 32 && Depth(max) == 0
  {}

  lemma {:induction false} BytePowers(k: nat)
    ensures Pow2(8 * k) == Pow256(k)
  {
    if k > 0 {
      BytePowers(k - 1);
      assert Pow2(8 * k) == 256 * Pow2(8 * k - 8) by { PowByte(8 * k - 8); }
    }
  }

  lemma PowByte(k: nat)
    ensures Pow2(k + 8) == 256 * Pow2(k)
  {
    assert Pow2(k + 8) == 4 * Pow2(k + 6) && Pow2(k + 6) == 4 * Pow2(k + 4) && Pow2(k + 4) == 4 * Pow2(k + 2);
  }

  // ---------------------------------------------------------------- the word after some rotations

  /** After `m` of `d` bytes of `g` have been rotated to the bottom, the rest is at the top. */
  function WalkWord(d: nat, g: nat, m: nat): nat
    requires m <= d <= 4
  {
    g % Pow256(d - m) * Pow256(4 - d + m) + Quot(g, Pow256(d - m))
  }

  lemma Powers()
    ensures Pow256(0) == 1 && Pow256(1) == 256 && Pow256(2) == 0x1_0000 && Pow256(3) == 0x100_0000 && Pow256(4) == WORDS
  {
    assert Pow256(1) == 256;
    assert Pow256(2) == 0x1_0000;
    assert Pow256(3) == 0x100_0000;
  }

  lemma {:induction false} Pow256Add(j: nat, k: nat)
    ensures Pow256(j + k) == Pow256(j) * Pow256(k)
    decreases k
  {
    if k > 0 {
      Pow256Add(j, k - 1);
      assert 256 * (Pow256(j) * Pow256(k - 1)) == Pow256(j) * (256 * Pow256(k - 1));
    }
  }

  /** The shift drops the bytes above the depth and moves the others to the top. */
  lemma WalkStarts(d: nat, h: nat)
    requires 1 <= d <= 4
    ensures ShiftLeft(h, 8 * (4 - d)) == WalkWord(d, h % Pow256(d), 0)
  {
    BytePowers(4 - d);
    Powers();
    Pow256Add(d, 4 - d);
    hide Pow2, Pow256;
    ShiftDrops(h, Pow256(d), Pow256(4 - d), WORDS);
    var g := h % Pow256(d);
    DivModUnique(g, Pow256(d), 0, g);
  }

  lemma ShiftDrops(h: nat, p: nat, q: nat, w: nat)
    requires p > 0 && q > 0 && w == p * q
    ensures h * q % w == h % p * q
  {
    assert h == p * (h / p) + h % p;
    assert h * q == w * (h / p) + h % p * q by { assert p * (h / p) * q == w * (h / p); }
    assert h % p * q < w by { MulSub(q, p, h % p); MulAtLeast(q, p - h % p); }
    DivModUnique(h * q, w, h / p, h % p * q);
  }

  /** One rotation brings the next byte of the handle to the bottom. */
  lemma WalkStep(d: nat, g: nat, m: nat)
    requires 1 <= d <= 4 && m < d && g < Pow256(d)
    ensures RotateLeft8(WalkWord(d, g, m)) == WalkWord(d, g, m + 1)
    ensures WalkWord(d, g, m + 1) % 256 == Index(d, g, m)
    ensures WalkWord(d, g, m) < WORDS
  {
    hide Pow256, WalkWord, Quot, RotateLeft8;
    var s, t := Pow256(d - m - 1), Pow256(4 - d + m);
    WalkPowers(d, m, s, t);
    var q, r := Quot(g, 256 * s), g % (256 * s);
    BytesOf(g, s, q, r);
    var a, b := Quot(r, s), r % s;
    WalkParts(d, g, m, s, t);
    QuotientSmall(g, 256 * s, Pow256(m), Pow256(m) * (256 * s));
    Rotated(s, t, q, r, a, b);
    LowByte(q, a, b, t);
  }

  lemma WalkPowers(d: nat, m: nat, s: nat, t: nat)
    requires 1 <= d <= 4 && m < d && s == Pow256(d - m - 1) && t == Pow256(4 - d + m)
    ensures s > 0 && t > 0 && Pow256(d - m) == 256 * s && Pow256(4 - d + m + 1) == 256 * t && s * t == 0x100_0000
    ensures Pow256(d) == Pow256(m) * (256 * s) && Pow256(m) <= t
  {
    Powers();
    Pow256Add(d - m - 1, 4 - d + m);
    Pow256Add(m, d - m);
    assert d - m - 1 + (4 - d + m) == 3;
    SmallPower(m, 4 - d + m);
  }

  /** A number by its bytes above, at and below a position. */
  lemma BytesOf(g: nat, s: nat, q: nat, r: nat)
    requires s > 0 && q == Quot(g, 256 * s) && r == g % (256 * s)
    ensures r == s * Quot(r, s) + r % s && Quot(r, s) < 256
    ensures Quot(g, s) == 256 * q + Quot(r, s) && Quot(g, s) % 256 == Quot(r, s) && g % s == r % s
  {
    Digits(g, 256, s, 256 * s);
    var x := g / s;
    assert x == 256 * (x / 256) + x % 256;
  }

  lemma WalkParts(d: nat, g: nat, m: nat, s: nat, t: nat)
    requires 1 <= d <= 4 && m < d && s > 0
    requires Pow256(d - m) == 256 * s && Pow256(d - m - 1) == s && Pow256(4 - d + m) == t
             && Pow256(4 - d + m + 1) == 256 * t
    ensures WalkWord(d, g, m) == g % (256 * s) * t + Quot(g, 256 * s)
    ensures WalkWord(d, g, m + 1) == g % s * (256 * t) + Quot(g, s)
    ensures Index(d, g, m) == Quot(g, s) % 256
  {
    hide Pow256, Quot;
    assert d - (m + 1) == d - m - 1 && 4 - d + (m + 1) == 4 - d + m + 1 && d - 1 - m == d - m - 1;
  }

  lemma SmallPower(m: nat, n: nat)
    requires m <= n
    ensures Pow256(m) <= Pow256(n)
    decreases n
  {
    if m < n { SmallPower(m, n - 1); }
  }

  lemma QuotientSmall(g: nat, s: nat, p: nat, all: nat)
    requires s > 0 && all == p * s && g < all
    ensures Quot(g, s) < p
  {
    var q := g / s;
    assert g == s * q + g % s;
    if q >= p { MulSub(s, q, p); }
  }

  lemma Rotated(s: nat, t: nat, q: nat, r: nat, a: nat, b: nat)
    requires s > 0 && t > 0 && s * t == 0x100_0000 && r == s * a + b && b < s && a < 256 && q < t
    ensures var word := r * t + q;
            word < WORDS && RotateLeft8(word) == b * (256 * t) + (256 * q + a)
  {
    hide RotateLeft8;
    var x := b * t;
    assert r * t == 0x100_0000 * a + x by { assert (s * a + b) * t == s * t * a + b * t; }
    assert x + t <= 0x100_0000 by { MulSub(t, s, b); MulAtLeast(t, s - b); }
    assert b * (256 * t) == 256 * x;
    RotateByte(r * t + q, a, x + q);
  }

  lemma RotateByte(word: nat, a: nat, x: nat)
    requires word == 0x100_0000 * a + x && x < 0x100_0000 && a < 256
    ensures word < WORDS && RotateLeft8(word) == 256 * x + a
  {
    DivModUnique(word, 0x100_0000, a, x);
    DivModUnique(word * 256, WORDS, a, 256 * x);
  }

  lemma LowByte(q: nat, a: nat, b: nat, t: nat)
    requires a < 256
    ensures (b * (256 * t) + (256 * q + a)) % 256 == a
  {
    assert b * (256 * t) == 256 * (b * t);
    DivModUnique(b * (256 * t) + (256 * q + a), 256, b * t + q, a);
  }

  /** In the end the word is the handle again. */
  lemma WalkEnds(d: nat, g: nat)
    requires d <= 4
    ensures WalkWord(d, g, d) == g
  {}
}
