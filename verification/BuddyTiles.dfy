/** How `add_memory_region` of kernel_core/src/memory/buddy.rs cuts a region into blocks. */
module BuddyTiles {
  import opened Arithmetic
  import opened Bits
  import opened BuddyBlocks

  /** The blocks for `n` pages from `at` on, the largest that fit first. */
  function Tile(c: Config, at: nat, n: nat, order: nat): seq<Block>
    decreases n, order
  {
    if n >= Pow2(order) then [Block(at, order)] + Tile(c, at + Size(c, order), n - Pow2(order), order)
    else if order == 0 then []
    else Tile(c, at, n, order - 1)
  }

  /** The order of the first and largest block. */
  function Largest(n: nat, order: nat): (k: nat)
    requires n > 0
    ensures k <= order && Pow2(k) <= n && (k < order ==> n < Pow2(k + 1))
  {
    if order == 0 || n >= Pow2(order) then order else Largest(n, order - 1)
  }

  function Bytes(c: Config, n: nat): nat { n * Pow2(c.shift) }

  lemma BytesOf(c: Config, n: nat, order: nat)
    requires n >= Pow2(order)
    ensures Bytes(c, n) == Size(c, order) + Bytes(c, n - Pow2(order))
  {
    hide Pow2;
    Pow2Add(c.shift, order);
    MulSub(Pow2(c.shift), n, Pow2(order));
  }

  function Sum(ts: seq<Block>): nat { if ts == [] then 0 else Pow2(ts[0].order) + Sum(ts[1..]) }

  /** The blocks make up exactly `n` pages. */
  lemma {:induction false} TileSum(c: Config, at: nat, n: nat, order: nat)
    ensures Sum(Tile(c, at, n, order)) == n
    decreases n, order
  {
    if n >= Pow2(order) {
      TileSum(c, at + Size(c, order), n - Pow2(order), order);
      var rest := Tile(c, at + Size(c, order), n - Pow2(order), order);
      assert ([Block(at, order)] + rest)[1..] == rest;
    } else if order > 0 {
      TileSum(c, at, n, order - 1);
    }
  }

  /** Each block starts where the one before ends, the first at `at`, the last ends after `n` pages. */
  ghost predicate Chained(c: Config, ts: seq<Block>, at: nat, end: nat) {
    if ts == [] then at == end else ts[0].at == at && Chained(c, ts[1..], at + Size(c, ts[0].order), end)
  }

  lemma {:induction false} TileChained(c: Config, at: nat, n: nat, order: nat)
    ensures Chained(c, Tile(c, at, n, order), at, at + Bytes(c, n))
    decreases n, order
  {
    hide Size, Bytes;
    if n >= Pow2(order) {
      TileChained(c, at + Size(c, order), n - Pow2(order), order);
      BytesOf(c, n, order);
      var rest := Tile(c, at + Size(c, order), n - Pow2(order), order);
      assert ([Block(at, order)] + rest)[1..] == rest;
    } else if order > 0 {
      TileChained(c, at, n, order - 1);
    } else {
      BytesNone(c, n);
    }
  }

  lemma BytesNone(c: Config, n: nat)
    requires n == 0
    ensures Bytes(c, n) == 0
  {}

  /** Orders fall, and only the largest order of all can occur more than once. */
  ghost predicate Falling(ts: seq<Block>, top: nat) {
    && (forall i :: 0 <= i < |ts| ==> ts[i].order <= top)
    && (forall i, j :: 0 <= i < j < |ts| ==>
          ts[j].order <= ts[i].order && (ts[j].order == ts[i].order ==> ts[i].order == top))
  }

  lemma {:induction false} TileFalling(c: Config, at: nat, n: nat, order: nat)
    ensures Falling(Tile(c, at, n, order), order)
    decreases n, order
  {
    if n >= Pow2(order) {
      TileFalling(c, at + Size(c, order), n - Pow2(order), order);
    } else if order > 0 {
      assert Tile(c, at, n, order) == Tile(c, at, n, order - 1);
      TileOnce(c, at, n, order - 1);
    }
  }

  /** Below twice its size, an order is used at most once. */
  lemma {:induction false} TileOnce(c: Config, at: nat, n: nat, order: nat)
    requires n < 2 * Pow2(order)
    ensures var ts := Tile(c, at, n, order);
            forall i, j :: 0 <= i < j < |ts| ==> ts[j].order < ts[i].order
    ensures forall i :: 0 <= i < |Tile(c, at, n, order)| ==> Tile(c, at, n, order)[i].order <= order
    decreases n, order
  {
    if n >= Pow2(order) {
      var rest := Tile(c, at + Size(c, order), n - Pow2(order), order);
      if order > 0 {
        assert rest == Tile(c, at + Size(c, order), n - Pow2(order), order - 1);
        TileOnce(c, at + Size(c, order), n - Pow2(order), order - 1);
      }
    } else if order > 0 {
      assert Tile(c, at, n, order) == Tile(c, at, n, order - 1);
      TileOnce(c, at, n, order - 1);
    }
  }

  // ---------------------------------------------------------------- natural alignment

  ghost predicate AllAligned(c: Config, ts: seq<Block>) {
    forall i :: 0 <= i < |ts| ==> ts[i].at >= c.base && (ts[i].at - c.base) % Size(c, ts[i].order) == 0
  }

  /** All blocks are aligned if and only if the largest one is. */
  lemma {:induction false} TileAligned(c: Config, at: nat, n: nat, order: nat)
    requires c.base <= at && n > 0
    ensures AllAligned(c, Tile(c, at, n, order)) <==> (at - c.base) % Size(c, Largest(n, order)) == 0
    decreases n, order
  {
    if n >= Pow2(order) {
      hide Size;
      var rest := Tile(c, at + Size(c, order), n - Pow2(order), order);
      var ts := Tile(c, at, n, order);
      assert ts == [Block(at, order)] + rest;
      if (at - c.base) % Size(c, order) == 0 && n > Pow2(order) {
        var k := Largest(n - Pow2(order), order);
        NextAligned(c, at - c.base, order, k);
        TileAligned(c, at + Size(c, order), n - Pow2(order), order);
        assert AllAligned(c, rest);
      } else if n == Pow2(order) {
        TileNone(c, at + Size(c, order), 0, order);
      }
      assert ts[0] == Block(at, order);
      assert forall i :: 0 < i < |ts| ==> ts[i] == rest[i - 1];
    } else {
      TileAligned(c, at, n, order - 1);
    }
  }

  lemma {:induction false} TileNone(c: Config, at: nat, n: nat, order: nat)
    requires n == 0
    ensures Tile(c, at, n, order) == []
  {
    if order > 0 { TileNone(c, at, n, order - 1); }
  }

  /** After a block of order `j`, blocks of smaller order are aligned too. */
  lemma NextAligned(c: Config, o: nat, j: nat, k: nat)
    requires k <= j && o % Size(c, j) == 0
    ensures (o + Size(c, j)) % Size(c, k) == 0
  {
    Pow2Add(c.shift + k, j - k);
    assert c.shift + k + (j - k) == c.shift + j;
    hide Pow2;
    MultiplesAdd(o, Size(c, k), Pow2(j - k), Size(c, j));
  }

  lemma MultiplesAdd(o: nat, s: nat, m: nat, d: nat)
    requires s > 0 && d > 0 && d == s * m && o % d == 0
    ensures (o + d) % s == 0
  {
    var q := o / d;
    assert o == d * q;
    assert s * (m * q + m) == s * m * q + s * m;
    DivModUnique(o + d, s, m * q + m, 0);
  }

  // ---------------------------------------------------------------- chains

  predicate Within(a: nat, at: nat, end: nat) { at <= a < end }

  ghost predicate HasTile(c: Config, ts: seq<Block>, a: nat) { exists b :: b in ts && In(c, b, a) }

  /** A chain covers its bytes, each block after the one before. */
  lemma {:induction false} ChainedBytes(c: Config, ts: seq<Block>, at: nat, end: nat)
    requires Chained(c, ts, at, end)
    ensures at <= end
    ensures forall i :: 0 <= i < |ts| ==> at <= ts[i].at && ts[i].at + Size(c, ts[i].order) <= end
    ensures forall i, j :: 0 <= i < j < |ts| ==> ts[i].at + Size(c, ts[i].order) <= ts[j].at
    ensures forall a :: Within(a, at, end) ==> HasTile(c, ts, a)
  {
    hide Size;
    if ts != [] {
      var next := at + Size(c, ts[0].order);
      ChainedBytes(c, ts[1..], next, end);
      assert forall i :: 0 < i < |ts| ==> ts[i] == ts[1..][i - 1];
      forall a: nat | Within(a, at, end) ensures HasTile(c, ts, a) {
        if a < next {
          assert ts[0] in ts && In(c, ts[0], a);
        } else {
          assert Within(a, next, end);
          var b :| b in ts[1..] && In(c, b, a);
          assert b in ts;
        }
      }
    }
  }

  ghost function Blocks(ts: seq<Block>): set<Block> { set b | b in ts }

  /** `[at, end)`. */
  ghost function Area(at: nat, end: nat): iset<nat> { iset a | Within(a, at, end) }

  /** Adding a chain of aligned blocks outside the pool keeps everything in order. */
  lemma AddSound(c: Config, blocks: set<Block>, pool: iset<nat>, ts: seq<Block>, at: nat, end: nat)
    requires Sound(c, blocks, pool) && Chained(c, ts, at, end) && end <= c.end
    requires AllAligned(c, ts) && forall i :: 0 <= i < |ts| ==> ts[i].order < c.maxOrder
    requires pool !! Area(at, end)
    ensures Sound(c, blocks + Blocks(ts), pool + Area(at, end))
    ensures blocks !! Blocks(ts)
  {
    hide Size, Chained;
    ChainedBytes(c, ts, at, end);
    var next := blocks + Blocks(ts);
    forall x, y | x in blocks && y in Blocks(ts) ensures Disjoint(c, x, y) && x != y {
      OutsidePool(c, blocks, pool, x, y, at, end);
    }
    forall x, y | x in next && y in next && x != y ensures Disjoint(c, x, y) {
      if x in ts && y in ts { ChainApart(c, ts, x, y); }
    }
    AddFills(c, blocks, pool, ts, at, end);
  }

  lemma OutsidePool(c: Config, blocks: set<Block>, pool: iset<nat>, x: Block, y: Block, at: nat, end: nat)
    requires Fills(c, blocks, pool) && x in blocks && pool !! Area(at, end)
    requires at <= y.at && y.at + Size(c, y.order) <= end
    ensures Disjoint(c, x, y) && x != y
  {
    hide Size;
    var a := if x.at <= y.at then y.at else x.at;
    assert (In(c, x, a) && In(c, y, a)) || Disjoint(c, x, y);
    assert In(c, x, a) ==> a in pool;
    assert In(c, y, a) ==> a in Area(at, end);
  }

  lemma ChainApart(c: Config, ts: seq<Block>, x: Block, y: Block)
    requires forall i, j :: 0 <= i < j < |ts| ==> ts[i].at + Size(c, ts[i].order) <= ts[j].at
    requires x in ts && y in ts && x != y
    ensures Disjoint(c, x, y)
  {
    var i :| 0 <= i < |ts| && ts[i] == x;
    var j :| 0 <= j < |ts| && ts[j] == y;
  }

  lemma AddFills(c: Config, blocks: set<Block>, pool: iset<nat>, ts: seq<Block>, at: nat, end: nat)
    requires Fills(c, blocks, pool)
    requires forall i :: 0 <= i < |ts| ==> at <= ts[i].at && ts[i].at + Size(c, ts[i].order) <= end
    requires forall a :: Within(a, at, end) ==> HasTile(c, ts, a)
    ensures Fills(c, blocks + Blocks(ts), pool + Area(at, end))
  {
    hide Size;
    var next, more := blocks + Blocks(ts), pool + Area(at, end);
    forall a | a in more ensures exists b :: b in next && In(c, b, a) {
      if a in pool {
        var b :| b in blocks && In(c, b, a);
        assert b in next;
      } else {
        assert Within(a, at, end);
        var b :| b in ts && In(c, b, a);
        assert b in next;
      }
    }
  }

  // ---------------------------------------------------------------- pushing the blocks

  function PushedAll(lists: seq<seq<nat>>, ts: seq<Block>): (r: seq<seq<nat>>)
    requires forall i :: 0 <= i < |ts| ==> ts[i].order < |lists|
    ensures |r| == |lists|
    decreases |ts|
  {
    if ts == [] then lists else
      var n := |ts| - 1;
      Pushed(PushedAll(lists, ts[..n]), ts[n].order, ts[n].at)
  }

  lemma PushedNone(lists: seq<seq<nat>>)
    ensures PushedAll(lists, []) == lists
  {}

  lemma PushedAllSnoc(lists: seq<seq<nat>>, ts: seq<Block>, b: Block)
    requires b.order < |lists| && forall i :: 0 <= i < |ts| ==> ts[i].order < |lists|
    ensures PushedAll(lists, ts + [b]) == Pushed(PushedAll(lists, ts), b.order, b.at)
  {
    assert (ts + [b])[..|ts|] == ts;
  }

  lemma {:induction false} PushedAllBlocks(lists: seq<seq<nat>>, ts: seq<Block>)
    requires forall i :: 0 <= i < |ts| ==> ts[i].order < |lists|
    ensures FreeSet(PushedAll(lists, ts)) == FreeSet(lists) + Blocks(ts)
    ensures Listed(lists) && FreeSet(lists) !! Blocks(ts) && (forall i, j :: 0 <= i < j < |ts| ==> ts[i] != ts[j]) ==>
              Listed(PushedAll(lists, ts))
    ensures FreePages(PushedAll(lists, ts)) == FreePages(lists) + Sum(ts)
    decreases |ts|
  {
    hide FreeSet, FreePages, Listed;
    if ts != [] {
      var n := |ts| - 1;
      PushedAllBlocks(lists, ts[..n]);
      PushedBlocks(PushedAll(lists, ts[..n]), ts[n].order, ts[n].at);
      assert ts == ts[..n] + [ts[n]];
      assert Blocks(ts) == Blocks(ts[..n]) + {ts[n]};
      SumSnoc(ts[..n], ts[n]);
    }
  }

  lemma {:induction false} SumSnoc(ts: seq<Block>, b: Block)
    ensures Sum(ts + [b]) == Sum(ts) + Pow2(b.order)
  {
    if ts == [] {
      assert ts + [b] == [b];
    } else {
      assert (ts + [b])[1..] == ts[1..] + [b];
      SumSnoc(ts[1..], b);
    }
  }

  /** Lists without repetition got only blocks they did not have. */
  lemma {:induction false} PushedAllNew(lists: seq<seq<nat>>, ts: seq<Block>)
    requires forall i :: 0 <= i < |ts| ==> ts[i].order < |lists|
    requires Listed(PushedAll(lists, ts))
    ensures Listed(lists) && FreeSet(lists) !! Blocks(ts)
    decreases |ts|
  {
    hide FreeSet, Listed;
    if ts != [] {
      var n := |ts| - 1;
      var before := PushedAll(lists, ts[..n]);
      PushedNew(before, ts[n].order, ts[n].at);
      PushedAllNew(lists, ts[..n]);
      PushedAllBlocks(lists, ts[..n]);
      assert ts == ts[..n] + [ts[n]];
      assert Blocks(ts) == Blocks(ts[..n]) + {ts[n]};
    }
  }

  lemma PushedNew(lists: seq<seq<nat>>, o: nat, a: nat)
    requires o < |lists| && Listed(Pushed(lists, o, a))
    ensures Listed(lists) && Block(a, o) !in FreeSet(lists)
  {
    var next := Pushed(lists, o, a);
    assert Unique(next[o]) && next[o] == [a] + lists[o];
    assert forall x :: x in lists[o] ==> x != a by {
      forall i | 0 <= i < |lists[o]| ensures lists[o][i] != a { assert next[o][0] != next[o][i + 1]; }
    }
    assert Unique(lists[o]) by {
      forall i, j | 0 <= i < j < |lists[o]| ensures lists[o][i] != lists[o][j] {
        assert next[o][i + 1] != next[o][j + 1];
      }
    }
    assert forall p :: 0 <= p < |lists| && p != o ==> Unique(lists[p]) by {
      assert forall p :: 0 <= p < |lists| && p != o ==> next[p] == lists[p];
    }
  }

  /** If all is in order with the chain, it was aligned, inside, and outside the pool. */
  lemma AddedSound(c: Config, blocks: set<Block>, pool: iset<nat>, ts: seq<Block>, at: nat, end: nat)
    requires Fills(c, blocks, pool) && Chained(c, ts, at, end) && at < end && blocks !! Blocks(ts)
    requires Sound(c, blocks + Blocks(ts), pool + Area(at, end))
    ensures AllAligned(c, ts) && end <= c.end && pool !! Area(at, end)
  {
    hide Size, Chained;
    ChainedBytes(c, ts, at, end);
    forall i | 0 <= i < |ts| ensures Fine(c, ts[i]) { assert ts[i] in Blocks(ts); }
    assert Within(end - 1, at, end);
    var last :| last in ts && In(c, last, end - 1);
    assert last in Blocks(ts) && Fine(c, last);
    forall a | a in pool ensures !Within(a, at, end) {
      var x :| x in blocks && In(c, x, a);
      forall y | y in ts ensures !In(c, y, a) {
        assert y in Blocks(ts) && Disjoint(c, x, y);
      }
    }
  }
}
