/** Blocks of pages and their buddies: the arithmetic of kernel_core/src/memory/buddy.rs. */
module BuddyBlocks {
  import opened Arithmetic
  import opened Bits

  /** An allocator for `[base, end)` with pages of `2^shift` bytes and orders below `maxOrder`. */
  datatype Config = Config(shift: nat, maxOrder: nat, base: nat, end: nat) {
    predicate Ok() { 0 < maxOrder <= 64 && 0 < base <= end && base % Pow2(shift) == 0 }
  }

  /** `2^order` pages from address `at` on. */
  datatype Block = Block(at: nat, order: nat)

  /** The bytes of a block of this order. */
  function Size(c: Config, order: nat): (n: nat)
    ensures n > 0
  {
    Pow2(c.shift + order)
  }

  lemma SizeDoubles(c: Config, order: nat)
    ensures Size(c, order + 1) == 2 * Size(c, order)
  {
    assert c.shift + (order + 1) - 1 == c.shift + order;
  }

  ghost predicate In(c: Config, b: Block, a: nat) { b.at <= a < b.at + Size(c, b.order) }

  /** Inside the managed memory and aligned to its own size, counted from the base. */
  ghost predicate Fine(c: Config, b: Block) {
    && b.order < c.maxOrder && c.base <= b.at && b.at + Size(c, b.order) <= c.end
    && (b.at - c.base) % Size(c, b.order) == 0
  }

  ghost predicate Disjoint(c: Config, x: Block, y: Block) {
    x.at + Size(c, x.order) <= y.at || y.at + Size(c, y.order) <= x.at
  }

  ghost predicate Apart(c: Config, blocks: set<Block>) {
    forall x, y :: x in blocks && y in blocks && x != y ==> Disjoint(c, x, y)
  }

  /** The blocks are made of exactly the bytes of `pool`. */
  ghost predicate Fills(c: Config, blocks: set<Block>, pool: iset<nat>) {
    && (forall b, a :: b in blocks && In(c, b, a) ==> a in pool)
    && (forall a :: a in pool ==> exists b :: b in blocks && In(c, b, a))
  }

  /** Naturally aligned, pairwise disjoint, and together the pool. */
  ghost predicate Sound(c: Config, blocks: set<Block>, pool: iset<nat>) {
    (forall b :: b in blocks ==> Fine(c, b)) && Apart(c, blocks) && Fills(c, blocks, pool)
  }

  // ---------------------------------------------------------------- buddies

  /** Flipping one bit adds or subtracts its value. */
  lemma {:induction false} XorPow2(a: nat, k: nat)
    ensures Xor(a, Pow2(k)) == if (a / Pow2(k)) % 2 == 0 then a + Pow2(k) else a - Pow2(k)
    ensures (a / Pow2(k)) % 2 == 1 ==> Pow2(k) <= a
  {
    hide Xor, Pow2;
    Pow2Step(k);
    XorStep(a, Pow2(k));
    if k == 0 {
      XorZero(a / 2);
    } else {
      XorPow2(a / 2, k - 1);
      HalveDivMod(a, Pow2(k - 1), Pow2(k));
    }
  }

  lemma Pow2Step(k: nat)
    ensures Pow2(k) == if k == 0 then 1 else 2 * Pow2(k - 1)
  {}

  lemma XorStep(a: nat, b: nat)
    ensures Xor(a, b) == 2 * Xor(a / 2, b / 2) + if a % 2 != b % 2 then 1 else 0
  {}

  lemma {:induction false} XorZero(a: nat)
    ensures Xor(a, 0) == a
  {
    if a > 0 { XorZero(a / 2); }
  }

  /** A multiple of `s` is a multiple of `2 * s` or `s` more than one. */
  lemma EvenOdd(o: nat, s: nat, d: nat)
    requires s > 0 && d == 2 * s && o % s == 0
    ensures (o / s) % 2 == 0 <==> o % d == 0
    ensures (o / s) % 2 == 1 <==> o % d == s
  {
    var q := o / s;
    assert o == s * q;
    assert s * (2 * (q / 2) + q % 2) == d * (q / 2) + s * (q % 2);
    DivModUnique(o, d, q / 2, s * (q % 2));
  }

  /** `buddy_of`. */
  function BuddyOf(c: Config, at: nat, order: nat): nat
    requires c.base <= at
  {
    c.base + Xor(at - c.base, Size(c, order))
  }

  predicate Lower(c: Config, at: nat, order: nat)
    requires c.base <= at
  {
    (at - c.base) % Size(c, order + 1) == 0
  }

  /** The buddy is the neighbour with which a block makes an aligned block of the next order. */
  lemma BuddyIsNeighbour(c: Config, at: nat, order: nat)
    requires c.base <= at && (at - c.base) % Size(c, order) == 0
    ensures var buddy := BuddyOf(c, at, order);
            && buddy >= c.base && (buddy - c.base) % Size(c, order) == 0
            && buddy == (if Lower(c, at, order) then at + Size(c, order) else at - Size(c, order))
            && (Lower(c, buddy, order) <==> !Lower(c, at, order))
            && BuddyOf(c, buddy, order) == at
  {
    hide Size, BuddyOf;
    SizeDoubles(c, order);
    BuddyIs(c, at, order);
    Neighbour(at - c.base, Size(c, order), Size(c, order + 1), BuddyOf(c, at, order) - c.base);
    BuddyIs(c, BuddyOf(c, at, order), order);
  }

  lemma BuddyIs(c: Config, at: nat, order: nat)
    requires c.base <= at && (at - c.base) % Size(c, order) == 0
    ensures BuddyOf(c, at, order) == if Lower(c, at, order) then at + Size(c, order) else at - Size(c, order)
    ensures !Lower(c, at, order) ==> Size(c, order) <= at - c.base
  {
    hide Xor, Pow2;
    SizeDoubles(c, order);
    EvenOdd(at - c.base, Size(c, order), Size(c, order + 1));
    XorPow2(at - c.base, c.shift + order);
  }

  lemma Neighbour(o: nat, s: nat, d: nat, o': nat)
    requires s > 0 && d == 2 * s && o % s == 0
    requires o' == if o % d == 0 then o + s else o - s
    ensures o' % s == 0 && (o' % d == 0 <==> o % d != 0)
  {
    EvenOdd(o, s, d);
    var q := o / d;
    assert o == d * q + o % d;
    if o % d == 0 {
      DivModUnique(o', d, q, s);
      assert s * (2 * q + 1) == d * q + s;
      DivModUnique(o', s, 2 * q + 1, 0);
    } else {
      DivModUnique(o', d, q, 0);
      assert s * (2 * q) == d * q;
      DivModUnique(o', s, 2 * q, 0);
    }
  }

  // ---------------------------------------------------------------- splitting and merging

  /** The halves of a block. */
  ghost predicate Halves(c: Config, b: Block, low: Block, high: Block) {
    && b.order > 0 && low == Block(b.at, b.order - 1) && high == Block(b.at + Size(c, low.order), low.order)
  }

  lemma HalvesFine(c: Config, b: Block, low: Block, high: Block)
    requires Halves(c, b, low, high) && Fine(c, b)
    ensures Fine(c, low) && Fine(c, high)
  {
    hide Size;
    SizeDoubles(c, low.order);
    var s, o := Size(c, low.order), b.at - c.base;
    var q := o / (2 * s);
    assert o == s * (2 * q) && o + s == s * (2 * q + 1);
    DivModUnique(o, s, 2 * q, 0);
    DivModUnique(o + s, s, 2 * q + 1, 0);
  }

  lemma HalvesCover(c: Config, b: Block, low: Block, high: Block)
    requires Halves(c, b, low, high)
    ensures forall a :: In(c, b, a) <==> In(c, low, a) || In(c, high, a)
    ensures Disjoint(c, low, high)
  {
    SizeDoubles(c, low.order);
  }

  lemma SplitSound(c: Config, blocks: set<Block>, pool: iset<nat>, b: Block, low: Block, high: Block)
    requires Sound(c, blocks, pool) && b in blocks && Halves(c, b, low, high)
    ensures Sound(c, blocks - {b} + {low, high}, pool)
    ensures low !in blocks && high !in blocks
  {
    HalvesFine(c, b, low, high);
    HalvesCover(c, b, low, high);
    SizeDoubles(c, low.order);
    hide Size;
    var next := blocks - {b} + {low, high};
    forall x, y | x in next && y in next && x != y ensures Disjoint(c, x, y) {
      if x in blocks { assert x != b; }
      if y in blocks { assert y != b; }
    }
    SameFill(c, blocks, next, pool, b, low, high);
  }

  lemma SameFill(c: Config, blocks: set<Block>, next: set<Block>, pool: iset<nat>, b: Block, low: Block, high: Block)
    requires Fills(c, blocks, pool) && b in blocks && next == blocks - {b} + {low, high}
    requires forall a :: In(c, b, a) <==> In(c, low, a) || In(c, high, a)
    ensures Fills(c, next, pool)
  {
    hide In;
    forall a | a in pool ensures exists x :: x in next && In(c, x, a) {
      var x :| x in blocks && In(c, x, a);
      if x == b {
        assert In(c, low, a) || In(c, high, a);
        assert low in next && high in next;
      } else {
        assert x in next;
      }
    }
  }

  lemma MergeSound(c: Config, blocks: set<Block>, pool: iset<nat>, b: Block, low: Block, high: Block)
    requires Sound(c, blocks, pool) && low in blocks && high in blocks && Halves(c, b, low, high)
    requires b.order < c.maxOrder && Lower(c, low.at, low.order)
    ensures Sound(c, blocks - {low, high} + {b}, pool)
  {
    HalvesCover(c, b, low, high);
    SizeDoubles(c, low.order);
    hide Size;
    var next := blocks - {low, high} + {b};
    assert Fine(c, b) by { assert Fine(c, low) && Fine(c, high); }
    forall x, y | x in next && y in next && x != y ensures Disjoint(c, x, y) {
      if x == b { assert Disjoint(c, low, y) && Disjoint(c, high, y); NotBetween(c, b, low, high, y); }
      if y == b { assert Disjoint(c, low, x) && Disjoint(c, high, x); NotBetween(c, b, low, high, x); }
    }
    MergedFill(c, blocks, next, pool, b, low, high);
  }

  lemma NotBetween(c: Config, b: Block, low: Block, high: Block, y: Block)
    requires Halves(c, b, low, high) && Disjoint(c, low, y) && Disjoint(c, high, y)
    ensures Disjoint(c, b, y)
  {
    SizeDoubles(c, low.order);
  }

  lemma MergedFill(c: Config, blocks: set<Block>, next: set<Block>, pool: iset<nat>, b: Block, low: Block, high: Block)
    requires Fills(c, blocks, pool) && low in blocks && high in blocks && next == blocks - {low, high} + {b}
    requires forall a :: In(c, b, a) <==> In(c, low, a) || In(c, high, a)
    ensures Fills(c, next, pool)
  {
    hide In;
    forall a | a in pool ensures exists x :: x in next && In(c, x, a) {
      var x :| x in blocks && In(c, x, a);
      if x == low || x == high { assert b in next && In(c, b, a); } else { assert x in next; }
    }
  }

  /** While a block is live, neither it nor its buddy is part of a free block that contains it. */
  lemma NotFreeTwice(c: Config, blocks: set<Block>, pool: iset<nat>, at: nat, order: nat)
    requires Sound(c, blocks, pool) && Block(at, order) in blocks
    ensures Block(at, order + 1) !in blocks
    ensures Block(BuddyOf(c, at, order), order + 1) !in blocks
  {
    hide Size, BuddyOf;
    var b := Block(at, order);
    assert Fine(c, b);
    SizeDoubles(c, order);
    BuddyIsNeighbour(c, at, order);
    var up, other := Block(at, order + 1), Block(BuddyOf(c, at, order), order + 1);
    assert b != up && !Disjoint(c, b, up);
    assert b != other && !(Disjoint(c, b, other) && Fine(c, other));
  }

  // ---------------------------------------------------------------- free lists

  /** The free blocks of all lists. */
  ghost function FreeSet(lists: seq<seq<nat>>): set<Block> {
    set o, a | 0 <= o < |lists| && a in lists[o] :: Block(a, o)
  }

  ghost predicate IsFree(lists: seq<seq<nat>>, b: Block) { b.order < |lists| && b.at in lists[b.order] }

  lemma InFreeSet(lists: seq<seq<nat>>)
    ensures forall b :: b in FreeSet(lists) <==> IsFree(lists, b)
  {}

  lemma FreeUpdate(lists: seq<seq<nat>>, o: nat, l: seq<nat>)
    requires o < |lists|
    ensures forall b :: b in FreeSet(lists[o := l]) <==> if b.order == o then b.at in l else b in FreeSet(lists)
    ensures forall a :: Block(a, o) in FreeSet(lists) <==> a in lists[o]
    ensures Listed(lists) && Unique(l) ==> Listed(lists[o := l])
  {
    InFreeSet(lists);
    InFreeSet(lists[o := l]);
    hide FreeSet;
    forall b ensures b in FreeSet(lists[o := l]) <==> if b.order == o then b.at in l else b in FreeSet(lists) {
      assert b in FreeSet(lists[o := l]) <==> IsFree(lists[o := l], b);
    }
    forall a ensures Block(a, o) in FreeSet(lists) <==> a in lists[o] {
      assert Block(a, o) in FreeSet(lists) <==> IsFree(lists, Block(a, o));
    }
  }

  predicate Unique(l: seq<nat>) { forall i, j :: 0 <= i < j < |l| ==> l[i] != l[j] }

  ghost predicate Listed(lists: seq<seq<nat>>) { forall o :: 0 <= o < |lists| ==> Unique(lists[o]) }

  /** `total_pages_free`. */
  function FreePages(lists: seq<seq<nat>>): nat {
    var n := |lists|;
    if n == 0 then 0 else FreePages(lists[..n - 1]) + |lists[n - 1]| * Pow2(n - 1)
  }

  lemma {:induction false} FreePagesUpdate(lists: seq<seq<nat>>, o: nat, l: seq<nat>, d: int)
    requires o < |lists| && |l| == |lists[o]| + d
    ensures FreePages(lists[o := l]) == FreePages(lists) + d * Pow2(o)
  {
    var n := |lists|;
    if o == n - 1 {
      assert lists[o := l][..n - 1] == lists[..n - 1];
      assert |l| * Pow2(o) == |lists[o]| * Pow2(o) + d * Pow2(o);
    } else {
      assert lists[o := l][..n - 1] == lists[..n - 1][o := l];
      FreePagesUpdate(lists[..n - 1], o, l, d);
    }
  }

  function Pushed(lists: seq<seq<nat>>, o: nat, a: nat): (r: seq<seq<nat>>)
    requires o < |lists|
    ensures |r| == |lists|
  {
    lists[o := [a] + lists[o]]
  }

  function Popped(lists: seq<seq<nat>>, o: nat, i: nat): (r: seq<seq<nat>>)
    requires o < |lists| && i < |lists[o]|
    ensures |r| == |lists|
  {
    lists[o := lists[o][..i] + lists[o][i + 1..]]
  }

  lemma PushedBlocks(lists: seq<seq<nat>>, o: nat, a: nat)
    requires o < |lists|
    ensures FreeSet(Pushed(lists, o, a)) == FreeSet(lists) + {Block(a, o)}
    ensures Listed(lists) && Block(a, o) !in FreeSet(lists) ==> Listed(Pushed(lists, o, a))
    ensures FreePages(Pushed(lists, o, a)) == FreePages(lists) + Pow2(o)
  {
    hide FreePages, FreeSet, Listed, Unique;
    FreePagesUpdate(lists, o, [a] + lists[o], 1);
    FreeUpdate(lists, o, [a] + lists[o]);
    UniqueList(lists, o);
    UniqueCons(a, lists[o]);
  }

  lemma UniqueCons(a: nat, l: seq<nat>)
    ensures Unique(l) && a !in l ==> Unique([a] + l)
  {}

  lemma UniqueList(lists: seq<seq<nat>>, o: nat)
    requires o < |lists|
    ensures Listed(lists) ==> Unique(lists[o])
  {}

  lemma PoppedBlocks(lists: seq<seq<nat>>, o: nat, i: nat)
    requires Listed(lists) && o < |lists| && i < |lists[o]|
    ensures FreeSet(Popped(lists, o, i)) == FreeSet(lists) - {Block(lists[o][i], o)}
    ensures Block(lists[o][i], o) in FreeSet(lists) && Listed(Popped(lists, o, i))
    ensures FreePages(Popped(lists, o, i)) == FreePages(lists) - Pow2(o)
  {
    hide FreePages, FreeSet, Listed, Unique;
    var l := lists[o][..i] + lists[o][i + 1..];
    UniqueList(lists, o);
    RemovedOnce(lists[o], i);
    FreePagesUpdate(lists, o, l, -1);
    FreeUpdate(lists, o, l);
  }

  lemma RemovedOnce(l: seq<nat>, i: nat)
    requires Unique(l) && i < |l|
    ensures var r := l[..i] + l[i + 1..];
            Unique(r) && forall x :: x in r <==> x in l && x != l[i]
  {
    var r := l[..i] + l[i + 1..];
    forall x | x in l && x != l[i] ensures x in r {
      var k :| 0 <= k < |l| && l[k] == x;
      if k < i { assert r[k] == x; } else { assert r[k - 1] == x; }
    }
  }
}
