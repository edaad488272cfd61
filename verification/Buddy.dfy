/** The buddy page allocator of kernel_core/src/memory/buddy.rs. Its linked free lists are sequences, head first. */
module Buddy {
  import opened Common
  import opened Arithmetic
  import opened Bits
  import opened BuddyBlocks
  import opened BuddyTiles

  datatype Error = InvalidSize | OutOfMemory | UnknownPtr

  datatype Result<+T> = Ok(value: T) | Err(error: Error) | Panic

  /** The order of `checked_next_power_of_two`: the least power of two that holds `n` pages. */
  function OrderFor(n: nat): (k: nat)
    requires n > 0
    ensures n <= Pow2(k) && (k > 0 ==> Pow2(k - 1) < n)
  {
    if n == 1 then 0 else OrderFor((n + 1) / 2) + 1
  }

  /** Sizes that overflow the next power of two exceed every order. */
  lemma TooLarge(n: nat)
    requires n > Pow2(63)
    ensures OrderFor(n) >= 64
  {
    if OrderFor(n) <= 63 { Pow2Monotone(OrderFor(n), 63); }
  }

  predicate OnPage(a: nat, page: nat)
    requires page > 0
  {
    a % page == 0
  }

  /** Blocks start at page boundaries. */
  lemma BlockAligned(c: Config, b: Block)
    requires c.Ok() && Fine(c, b)
    ensures OnPage(b.at, Pow2(c.shift))
  {
    Pow2Add(c.shift, b.order);
    hide Pow2;
    var p, s, o := Pow2(c.shift), Pow2(c.shift + b.order), b.at - c.base;
    MultipleSum(c.base, o, p, Pow2(b.order), s);
  }

  lemma MultipleSum(base: nat, o: nat, p: nat, k: nat, s: nat)
    requires p > 0 && s == p * k && s > 0 && base % p == 0 && o % s == 0
    ensures (base + o) % p == 0
  {
    assert base == p * (base / p) && o == s * (o / s);
    assert p * (base / p + k * (o / s)) == p * (base / p) + p * k * (o / s);
    DivModUnique(base + o, p, base / p + k * (o / s), 0);
  }

  function IndexOf(l: seq<nat>, x: nat): (i: nat)
    requires x in l
    ensures i < |l| && l[i] == x && x !in l[..i]
  {
    if l[0] == x then 0 else
      assert l == [l[0]] + l[1..];
      IndexOf(l[1..], x) + 1
  }

  lemma IndexUnique(l: seq<nat>, i: nat)
    requires i < |l| && l[i] !in l[..i]
    ensures IndexOf(l, l[i]) == i
  {
    assert l[IndexOf(l, l[i])] == l[i];
  }

  lemma FineAligned(c: Config, b: Block)
    requires Fine(c, b)
    ensures c.base <= b.at && (b.at - c.base) % Size(c, b.order) == 0
  {}

  lemma RegionPages(length: nat, page: nat)
    requires 0 < page <= length
    ensures PagesIn(length, page) > 0
  {
    assert length == page * (length / page) + length % page;
  }

  lemma SomeBytes(c: Config, n: nat)
    requires n > 0
    ensures Bytes(c, n) > 0
  {
    MulAtLeast(Pow2(c.shift), n);
  }

  lemma TileTop(c: Config, at: nat, n: nat, order: nat)
    ensures forall i :: 0 <= i < |Tile(c, at, n, order)| ==> Tile(c, at, n, order)[i].order <= order
  {
    hide Tile;
    TileFalling(c, at, n, order);
  }

  lemma ChainedDistinct(c: Config, ts: seq<Block>, at: nat, end: nat)
    requires Chained(c, ts, at, end)
    ensures forall i, j :: 0 <= i < j < |ts| ==> ts[i] != ts[j]
  {
    hide Chained;
    ChainedBytes(c, ts, at, end);
  }

  function PagesIn(bytes: nat, page: nat): nat
    requires page > 0
  {
    bytes / page
  }

  /** One round of the loop of `add_memory_region`. */
  lemma TileStep(c: Config, at: nat, remaining: nat, order: nat, page: nat)
    requires page == Pow2(c.shift) && OnPage(at, page)
    ensures if remaining >= Size(c, order)
            then && Tile(c, at, PagesIn(remaining, page), order)
                    == [Block(at, order)]
                       + Tile(c, at + Size(c, order), PagesIn(remaining - Size(c, order), page), order)
                 && OnPage(at + Size(c, order), page)
            else Tile(c, at, PagesIn(remaining, page), order)
                 == if order > 0 then Tile(c, at, PagesIn(remaining, page), order - 1) else []
  {
    hide Size, Pow2, Tile, PagesIn, OnPage;
    Pow2Add(c.shift, order);
    SizeIs(c, order);
    PagesFit(at, remaining, page, Pow2(order), Size(c, order));
    TileUnfold(c, at, PagesIn(remaining, page), order);
  }

  lemma TileUnfold(c: Config, at: nat, n: nat, order: nat)
    ensures Tile(c, at, n, order)
            == if n >= Pow2(order) then [Block(at, order)] + Tile(c, at + Size(c, order), n - Pow2(order), order)
               else if order > 0 then Tile(c, at, n, order - 1) else []
  {}

  lemma SizeIs(c: Config, order: nat)
    ensures Size(c, order) == Pow2(c.shift + order)
  {}

  lemma PagesFit(at: nat, r: nat, p: nat, k: nat, s: nat)
    requires p > 0 && s == p * k && OnPage(at, p)
    ensures r >= s <==> PagesIn(r, p) >= k
    ensures r >= s ==> PagesIn(r - s, p) == PagesIn(r, p) - k
    ensures OnPage(at + s, p)
  {
    hide PagesIn, OnPage;
    QuotientFits(r, p, k, s);
    NextPage(at, p, k, s);
  }

  lemma NextPage(at: nat, p: nat, k: nat, s: nat)
    requires p > 0 && s == p * k && OnPage(at, p)
    ensures OnPage(at + s, p)
  {
    assert at == p * (at / p) && p * (at / p + k) == p * (at / p) + s;
    DivModUnique(at + s, p, at / p + k, 0);
  }

  lemma QuotientFits(r: nat, p: nat, k: nat, s: nat)
    requires p > 0 && s == p * k
    ensures r >= s <==> PagesIn(r, p) >= k
    ensures r >= s ==> PagesIn(r - s, p) == PagesIn(r, p) - k
  {
    var q, o := r / p, r % p;
    assert r == p * q + o;
    if q >= k {
      MulSub(p, q, k);
      DivModUnique(r - s, p, q - k, o);
    } else {
      MulSub(p, k, q);
      MulAtLeast(p, k - q);
    }
  }

  /** A block that holds a byte of the pool, or a byte outside, next to blocks that fill the pool. */
  lemma Doubled(c: Config, blocks: set<Block>, pool: iset<nat>, b: Block)
    requires Sound(c, blocks, pool) && b !in blocks
    ensures !Sound(c, blocks + {b}, pool)
  {
    hide Size;
    var next := blocks + {b};
    assert b in next && In(c, b, b.at);
    if b.at in pool {
      var x :| x in blocks && In(c, x, b.at);
      assert x in next && !Disjoint(c, x, b);
    }
  }

  /** The same for a block put in the place of its upper half, whose lower half is in another block or outside. */
  lemma DoubledMerge(c: Config, blocks: set<Block>, pool: iset<nat>, at: nat, order: nat)
    requires Sound(c, blocks, pool) && c.base <= at && Block(BuddyOf(c, at, order), order) in blocks
    ensures !Sound(c, blocks - {Block(BuddyOf(c, at, order), order)} + {Block(at, order + 1)}, pool)
  {
    hide Size, BuddyOf;
    var high, whole := Block(BuddyOf(c, at, order), order), Block(at, order + 1);
    var next := blocks - {high} + {whole};
    assert whole in next && In(c, whole, at);
    if Fine(c, whole) && at in pool {
      HalfAligned(c, at, order);
      BuddyIsNeighbour(c, at, order);
      SizeDoubles(c, order);
      var x :| x in blocks && In(c, x, at);
      assert !Disjoint(c, whole, high);
      assert x != whole && x != high && !Disjoint(c, whole, x) && x in next;
    }
  }

  lemma HalfAligned(c: Config, at: nat, order: nat)
    requires c.base <= at && Lower(c, at, order)
    ensures (at - c.base) % Size(c, order) == 0
  {
    SizeDoubles(c, order);
    hide Size;
    Digits(at - c.base, 2, Size(c, order), Size(c, order + 1));
  }

  /** What is lost, and what is used twice, when the lower half of a pair is forgotten. */
  lemma Lost(c: Config, blocks: set<Block>, pool: iset<nat>, low: Block, b: Block, whole: Block, next: set<Block>)
    requires Sound(c, blocks, pool) && low in blocks && b in blocks && low.order == b.order
    requires low.at + Size(c, low.order) == b.at && whole == Block(b.at, b.order + 1)
             && next == blocks - {low, b} + {whole}
    ensures forall a :: Within(a, low.at, b.at) ==> a in pool && forall x :: x in next ==> !In(c, x, a)
    ensures forall a :: Within(a, b.at + Size(c, b.order), b.at + Size(c, b.order + 1)) ==>
              In(c, whole, a) && (a in pool ==> exists x :: x in next && x != whole && In(c, x, a))
  {
    SizeDoubles(c, b.order);
    hide Size;
    forall a | Within(a, low.at, b.at) ensures a in pool && forall x :: x in next ==> !In(c, x, a) {
      assert In(c, low, a);
      forall x | x in next ensures !In(c, x, a) { if x != whole { assert Disjoint(c, x, low); } }
    }
    forall a | Within(a, b.at + Size(c, b.order), b.at + Size(c, b.order + 1))
      ensures In(c, whole, a) && (a in pool ==> exists x :: x in next && x != whole && In(c, x, a))
    {
      if a in pool {
        var x :| x in blocks && In(c, x, a);
        assert whole !in blocks by { assert !Disjoint(c, whole, b); }
        assert x in next;
      }
    }
  }

  class Allocator {
    const c: Config
    var lists: seq<seq<nat>>
    /** The blocks handed out, and the bytes of all added regions. */
    ghost var live: set<Block>
    ghost var pool: iset<nat>

    ghost predicate Shaped()
      reads this
    {
      c.Ok() && |lists| == c.maxOrder
    }

    ghost predicate Valid()
      reads this
    {
      && Shaped() && Listed(lists) && FreeSet(lists) !! live
      && Sound(c, FreeSet(lists) + live, pool)
    }

    /** `BuddyPageAllocator::new`. */
    constructor (c: Config)
      requires c.Ok()
      ensures Valid() && this.c == c && live == {} && pool == iset{}
      ensures lists == seq(c.maxOrder, _ => [])
    {
      this.c := c;
      lists := seq(c.maxOrder, _ => []);
      live, pool := {}, iset{};
    }

    /** `push_free`: false for the assertion that the block is page aligned. */
    method PushFree(order: nat, block: nat) returns (ok: bool)
      requires Shaped() && order < c.maxOrder
      modifies this`lists
      ensures Shaped() && ok == OnPage(block, Pow2(c.shift))
      ensures lists == if ok then Pushed(old(lists), order, block) else old(lists)
    {
      ok := OnPage(block, Pow2(c.shift));
      if ok { lists := lists[order := [block] + lists[order]]; }
    }

    /** `pop_free`: the block popped is the caller's. */
    method PopFree(order: nat) returns (r: Option<nat>)
      requires Valid() && order < c.maxOrder
      modifies this`lists, this`live
      ensures Valid()
      ensures old(lists)[order] == [] ==> r == None && lists == old(lists) && live == old(live)
      ensures old(lists)[order] != [] ==>
                && r == Some(old(lists)[order][0]) && lists == Popped(old(lists), order, 0)
                && Block(r.value, order) !in old(live) && live == old(live) + {Block(r.value, order)}
                && FreePages(lists) == old(FreePages(lists)) - Pow2(order)
    {
      hide Sound, FreePages, FreeSet, Listed;
      if lists[order] == [] { return None; }
      r := Some(lists[order][0]);
      PoppedBlocks(lists, order, 0);
      assert lists[order][1..] == lists[order][..0] + lists[order][1..];
      ghost var b := Block(r.value, order);
      assert FreeSet(lists) + live == (FreeSet(lists) - {b}) + (live + {b});
      lists := lists[order := lists[order][1..]];
      live := live + {b};
    }

    /** `split_block_to_size`. */
    method SplitBlockToSize(block: nat, current: nat, desired: nat)
      requires Valid() && Block(block, current) in live && desired <= current < c.maxOrder
      modifies this`lists, this`live
      ensures Valid() && Block(block, desired) in live
      ensures live == old(live) - {Block(block, current)} + {Block(block, desired)}
      ensures forall o :: 0 <= o < c.maxOrder ==>
                lists[o] == if desired <= o < current then [block + Size(c, o)] + old(lists)[o] else old(lists)[o]
      ensures FreePages(lists) + Pow2(desired) == old(FreePages(lists)) + Pow2(current)
    {
      hide Sound, FreePages, FreeSet, Listed, Size, Pow2;
      forall o | 0 <= o < current ensures Block(block, o) !in live { NotLive(block, current, o); }
      var cur := current;
      while cur > desired
        invariant desired <= cur <= current && Valid() && Block(block, cur) in live
        invariant live == old(live) - {Block(block, current)} + {Block(block, cur)}
        invariant forall o :: 0 <= o < c.maxOrder ==>
                    lists[o] == if cur <= o < current then [block + Size(c, o)] + old(lists)[o] else old(lists)[o]
        invariant FreePages(lists) + Pow2(cur) == old(FreePages(lists)) + Pow2(current)
      {
        SplitOnce(block, cur);
        cur := cur - 1;
      }
    }

    /** One round: the upper half becomes free. */
    method SplitOnce(block: nat, current: nat)
      requires Valid() && Block(block, current) in live && 0 < current < c.maxOrder
      modifies this`lists, this`live
      ensures Valid()
      ensures live == old(live) - {Block(block, current)} + {Block(block, current - 1)}
      ensures lists == Pushed(old(lists), current - 1, block + Size(c, current - 1))
      ensures FreePages(lists) + Pow2(current - 1) == old(FreePages(lists)) + Pow2(current)
    {
      hide FreePages, FreeSet, Listed, Size, Apart, Fills;
      var order := current - 1;
      var upper := block + Size(c, order);
      ghost var b, low, high := Block(block, current), Block(block, order), Block(upper, order);
      ghost var free := FreeSet(lists);
      SplitSound(c, free + live, pool, b, low, high);
      PushedBlocks(lists, order, upper);
      BlockAligned(c, high);
      var ok := PushFree(order, upper);
      live := live - {b} + {low};
      assert free + old(live) - {b} + {low, high} == (free + {high}) + live;
    }

    /** The first block of list `j`, the first list that has any, is split down to order `k`. */
    ghost predicate SplitFrom(l: seq<seq<nat>>, l': seq<seq<nat>>, at: nat, k: nat, j: nat)
      requires k <= j < c.maxOrder
    {
      && |l| == |l'| == c.maxOrder && (forall o :: k <= o < j ==> l[o] == []) && l[j] != [] && at == l[j][0]
      && forall o :: 0 <= o < c.maxOrder ==>
           l'[o] == if k <= o < j then [at + Size(c, o)] + l[o] else if o == j then l[j][1..] else l[o]
    }

    /** `allocate`. */
    method Allocate(numPages: nat) returns (r: Result<nat>)
      requires Valid()
      modifies this`lists, this`live
      ensures Valid() && !r.Panic?
      ensures r == Err(InvalidSize) <==> numPages == 0
      ensures numPages > 0 ==>
                (r == Err(OutOfMemory) <==>
                 forall o :: OrderFor(numPages) <= o < c.maxOrder ==> old(lists)[o] == [])
      ensures r.Err? ==> r.error != UnknownPtr && lists == old(lists) && live == old(live)
      ensures r.Ok? ==>
                var k := OrderFor(numPages);
                && numPages > 0 && k < c.maxOrder && live == old(live) + {Block(r.value, k)}
                && Block(r.value, k) !in old(live)
                && FreePages(lists) + Pow2(k) == old(FreePages(lists))
                && exists j :: k <= j < c.maxOrder && SplitFrom(old(lists), lists, r.value, k, j)
    {
      hide Sound, FreePages, FreeSet, Listed, Size, Pow2, OrderFor;
      if numPages == 0 { return Err(InvalidSize); }
      if numPages > Pow2(63) {
        TooLarge(numPages);
        return Err(OutOfMemory);
      }
      var order := OrderFor(numPages);
      var actual := order;
      var free: Option<nat> := None;
      while free.None?
        invariant order <= actual && Valid()
        invariant free.None? ==>
                    && lists == old(lists) && live == old(live)
                    && forall o :: order <= o < actual && o < c.maxOrder ==> old(lists)[o] == []
        invariant free.Some? ==>
                    && actual < c.maxOrder && old(lists)[actual] != [] && free.value == old(lists)[actual][0]
                    && lists == Popped(old(lists), actual, 0)
                    && (forall o :: order <= o < actual ==> old(lists)[o] == [])
                    && Block(free.value, actual) !in old(live) && live == old(live) + {Block(free.value, actual)}
                    && FreePages(lists) + Pow2(actual) == old(FreePages(lists))
        decreases c.maxOrder - actual, free.None?
      {
        if actual >= c.maxOrder { return Err(OutOfMemory); }
        free := PopFree(actual);
        if free.None? { actual := actual + 1; }
      }
      NotLive(free.value, actual, order);
      SplitBlockToSize(free.value, actual, order);
      assert SplitFrom(old(lists), lists, free.value, order, actual);
      r := Ok(free.value);
    }

    /** A block and its first part are not both live. */
    lemma NotLive(at: nat, actual: nat, order: nat)
      requires Valid() && Block(at, actual) in live && order <= actual
      ensures order != actual ==> Block(at, order) !in live
    {
      hide FreeSet, Listed, Size, Fills;
      assert !Disjoint(c, Block(at, order), Block(at, actual));
    }

    /** `try_remove_buddy`: take the block out of its list if it is there. */
    method TryRemoveBuddy(order: nat, buddy: nat) returns (found: bool)
      requires Shaped() && order < c.maxOrder
      modifies this`lists
      ensures Shaped() && found == (buddy in old(lists)[order])
      ensures lists == if found then Popped(old(lists), order, IndexOf(old(lists)[order], buddy)) else old(lists)
    {
      var list, i := lists[order], 0;
      while i < |list|
        invariant i <= |list| && lists == old(lists) && buddy !in list[..i]
      {
        if list[i] == buddy {
          IndexUnique(list, i);
          lists := lists[order := list[..i] + list[i + 1..]];
          return true;
        }
        i := i + 1;
      }
      found := false;
    }

    /** `block_in_free_list`. */
    method BlockInFreeList(order: nat, block: nat) returns (found: bool)
      requires Shaped() && order < c.maxOrder
      ensures found == (block in lists[order])
    {
      var list, i := lists[order], 0;
      while i < |list|
        invariant i <= |list| && block !in list[..i]
      {
        if list[i] == block { return true; }
        i := i + 1;
      }
      found := false;
    }

    /** The arguments that `free` turns down at once. */
    predicate Unknown(pages: nat, numPages: nat) {
      pages == 0 || numPages == 0 || !(c.base <= pages < c.end) || OrderFor(numPages) >= c.maxOrder
    }

    /** The lists after freeing a live block as coded: a merged block starts at the block that is freed. */
    function AfterFree(l: seq<seq<nat>>, at: nat, order: nat): seq<seq<nat>>
      requires |l| == c.maxOrder && order + 1 < c.maxOrder && c.base <= at
    {
      var buddy := BuddyOf(c, at, order);
      if buddy in l[order] then Pushed(Popped(l, order, IndexOf(l[order], buddy)), order + 1, at)
      else Pushed(l, order, at)
    }

    /** The buddy is free, and below the block that is freed. */
    predicate BuddyBelow(l: seq<seq<nat>>, at: nat, order: nat)
      requires order < |l| && c.base <= at
    {
      BuddyOf(c, at, order) in l[order] && BuddyOf(c, at, order) < at
    }

    /** No check of `free` turns down a live block, and the pages are counted. */
    lemma FreeLive(at: nat, order: nat)
      requires Valid() && Block(at, order) in live && order < c.maxOrder
      ensures c.base <= at && OnPage(at, Pow2(c.shift)) && at !in lists[order]
      ensures order + 1 < c.maxOrder ==>
                && at !in lists[order + 1] && BuddyOf(c, at, order) !in lists[order + 1]
                && FreePages(AfterFree(lists, at, order)) == FreePages(lists) + Pow2(order)
    {
      hide FreePages, FreeSet, Size, Pow2, BuddyOf, Apart, Fills;
      var b, buddy := Block(at, order), BuddyOf(c, at, order);
      BlockAligned(c, b);
      NotFreeTwice(c, FreeSet(lists) + live, pool, at, order);
      InFreeSet(lists);
      assert !IsFree(lists, b) && !IsFree(lists, Block(at, order + 1)) && !IsFree(lists, Block(buddy, order + 1));
      if order + 1 < c.maxOrder {
        SizeDoublesPages(order);
        PushedBlocks(lists, order, at);
        if buddy in lists[order] {
          var i := IndexOf(lists[order], buddy);
          PoppedBlocks(lists, order, i);
          PushedBlocks(Popped(lists, order, i), order + 1, at);
        }
      }
    }

    lemma SizeDoublesPages(order: nat)
      ensures Pow2(order + 1) == 2 * Pow2(order)
    {}

    /** Freeing a live block keeps everything in order, unless a free buddy lies below it. */
    lemma FreeSound(at: nat, order: nat)
      requires Valid() && Block(at, order) in live && order + 1 < c.maxOrder
      ensures c.base <= at
      ensures var l, rest := AfterFree(lists, at, order), live - {Block(at, order)};
              Listed(l) && FreeSet(l) !! rest && Sound(c, FreeSet(l) + rest, pool)
              <==> !BuddyBelow(lists, at, order)
    {
      hide FreePages, FreeSet, Size, Pow2, BuddyOf, Apart, Fills, Listed;
      var b, buddy := Block(at, order), BuddyOf(c, at, order);
      FreeLive(at, order);
      BuddyIsNeighbour(c, at, order);
      if buddy !in lists[order] {
        InFreeSet(lists);
        assert !IsFree(lists, b);
        PushedBlocks(lists, order, at);
        assert FreeSet(Pushed(lists, order, at)) + (live - {b}) == FreeSet(lists) + live;
      } else if Lower(c, at, order) {
        FreeMerges(at, order);
      } else {
        FreeMisplaces(at, order);
      }
    }

    /** The free buddy lies above: the merged block replaces both. */
    lemma FreeMerges(at: nat, order: nat)
      requires Valid() && Block(at, order) in live && order + 1 < c.maxOrder && c.base <= at
      requires BuddyOf(c, at, order) in lists[order] && Lower(c, at, order)
      ensures var l, rest := AfterFree(lists, at, order), live - {Block(at, order)};
              Listed(l) && FreeSet(l) !! rest && Sound(c, FreeSet(l) + rest, pool)
    {
      hide FreePages, Size, Pow2, BuddyOf, Fine, Apart, Fills, Listed, FreeSet;
      var low, buddy, free := Block(at, order), BuddyOf(c, at, order), FreeSet(lists);
      var high, whole, i := Block(buddy, order), Block(at, order + 1), IndexOf(lists[order], buddy);
      assert (at - c.base) % Size(c, order) == 0 by { FineAligned(c, low); }
      BuddyIsNeighbour(c, at, order);
      PoppedBlocks(lists, order, i);
      PushedBlocks(Popped(lists, order, i), order + 1, at);
      NotFreeTwice(c, free + live, pool, at, order);
      MergeSound(c, free + live, pool, whole, low, high);
      assert (free - {high} + {whole}) + (live - {low}) == free + live - {low, high} + {whole};
    }

    /**
     It lies below: the merged block is not aligned. The bytes of the lower buddy are in no block any more, and
     the pushed block runs past the pair into bytes of another block or outside the pool.
     */
    lemma FreeMisplaces(at: nat, order: nat)
      requires Valid() && order + 1 < c.maxOrder && c.base <= at && Block(at, order) in live
      requires BuddyOf(c, at, order) in lists[order] && !Lower(c, at, order)
      ensures var next := FreeSet(AfterFree(lists, at, order)) + (live - {Block(at, order)});
              var buddy := BuddyOf(c, at, order);
              && !Sound(c, next, pool) && buddy + Size(c, order) == at
              && (forall a :: Within(a, buddy, at) ==> a in pool && forall x :: x in next ==> !In(c, x, a))
              && (forall a :: Within(a, at + Size(c, order), at + Size(c, order + 1)) ==>
                    In(c, Block(at, order + 1), a)
                    && (a in pool ==> exists x :: x in next && x != Block(at, order + 1) && In(c, x, a)))
    {
      hide FreePages, Size, Pow2, BuddyOf, Apart, Fills, Listed, FreeSet, In;
      var buddy := BuddyOf(c, at, order);
      var i, whole, free := IndexOf(lists[order], buddy), Block(at, order + 1), FreeSet(lists);
      var b, low := Block(at, order), Block(buddy, order);
      PoppedBlocks(lists, order, i);
      PushedBlocks(Popped(lists, order, i), order + 1, at);
      assert !Fine(c, whole);
      FineAligned(c, b);
      BuddyIsNeighbour(c, at, order);
      assert low in free && low !in live;
      var next := free - {low} + {whole} + (live - {b});
      assert next == free + live - {low, b} + {whole};
      Lost(c, free + live, pool, low, b, whole, next);
    }

    /** `free` of a block that is not live, where no check stops it, is noticed later. */
    lemma FreeForeign(at: nat, order: nat)
      requires Valid() && order + 1 < c.maxOrder && c.base <= at && Block(at, order) !in live
      requires BuddyOf(c, at, order) in lists[order] || at !in lists[order]
      ensures !Sound(c, FreeSet(AfterFree(lists, at, order)) + live, pool)
    {
      hide FreePages, Size, Pow2, BuddyOf, Listed, FreeSet, Sound;
      var b, buddy, free, whole := Block(at, order), BuddyOf(c, at, order), FreeSet(lists), Block(at, order + 1);
      if buddy !in lists[order] {
        InFreeSet(lists);
        assert !IsFree(lists, b);
        PushedBlocks(lists, order, at);
        assert FreeSet(AfterFree(lists, at, order)) + live == free + live + {b};
        Doubled(c, free + live, pool, b);
      } else {
        var i, high := IndexOf(lists[order], buddy), Block(buddy, order);
        PoppedBlocks(lists, order, i);
        PushedBlocks(Popped(lists, order, i), order + 1, at);
        assert FreeSet(AfterFree(lists, at, order)) + live == free + live - {high} + {whole} by {
          assert high !in live;
        }
        DoubledMerge(c, free + live, pool, at, order);
      }
    }

    /** The answer of `free` to arguments that it does not turn down at once. */
    function FreeResult(l: seq<seq<nat>>, at: nat, order: nat): Result<()>
      requires |l| == c.maxOrder && order < c.maxOrder && c.base <= at
    {
      var buddy, last, aligned := BuddyOf(c, at, order), order + 1 == c.maxOrder, OnPage(at, Pow2(c.shift));
      if buddy in l[order] then (if last || !aligned then Panic else Ok(()))
      else if at in l[order] then Err(UnknownPtr)
      else if last then Panic
      else if at in l[order + 1] || buddy in l[order + 1] then Err(UnknownPtr)
      else if !aligned then Panic
      else Ok(())
    }

    /** `free`, for any arguments. It leaves everything in order exactly for a live block without a free buddy below. */
    method Free(pages: nat, numPages: nat) returns (r: Result<()>)
      requires Valid()
      modifies this`lists, this`live
      ensures Shaped()
      ensures Unknown(pages, numPages) ==>
                && r == Err(if pages == 0 || (numPages > 0 && !(c.base <= pages < c.end)) then UnknownPtr
                            else InvalidSize)
                && lists == old(lists) && live == old(live)
      ensures !Unknown(pages, numPages) ==>
                var k := OrderFor(numPages);
                && r == FreeResult(old(lists), pages, k) && (r.Err? ==> lists == old(lists) && live == old(live))
                && (r == Ok(()) ==>
                      && k + 1 < c.maxOrder && live == old(live) - {Block(pages, k)}
                      && lists == AfterFree(old(lists), pages, k)
                      && (Valid() <==> Block(pages, k) in old(live) && !BuddyBelow(old(lists), pages, k)))
                && (Block(pages, k) in old(live) ==>
                      && r == (if k + 1 == c.maxOrder then Panic else Ok(()))
                      && (r == Ok(()) ==> FreePages(lists) == old(FreePages(lists)) + Pow2(k)))
    {
      hide Sound, FreePages, FreeSet, Listed, Size, Pow2, OrderFor, BuddyOf;
      if pages == 0 { return Err(UnknownPtr); }
      if numPages == 0 { return Err(InvalidSize); }
      if !(c.base <= pages < c.end) { return Err(UnknownPtr); }
      if numPages > Pow2(63) {
        TooLarge(numPages);
        return Err(InvalidSize);
      }
      var order := OrderFor(numPages);
      if order >= c.maxOrder { return Err(InvalidSize); }
      var buddy := BuddyOf(c, pages, order);
      ghost var b := Block(pages, order);
      if b in live {
        FreeLive(pages, order);
        if order + 1 < c.maxOrder { FreeSound(pages, order); }
      } else if order + 1 < c.maxOrder && (buddy in lists[order] || pages !in lists[order]) {
        FreeForeign(pages, order);
        assert live - {b} == live;
      }
      var removed := TryRemoveBuddy(order, buddy);
      var ok;
      if removed {
        if order + 1 >= c.maxOrder { return Panic; }
        ok := PushFree(order + 1, pages);
      } else {
        var listed := BlockInFreeList(order, pages);
        if listed { return Err(UnknownPtr); }
        if order + 1 >= c.maxOrder { return Panic; }
        listed := BlockInFreeList(order + 1, pages);
        if listed { return Err(UnknownPtr); }
        listed := BlockInFreeList(order + 1, buddy);
        if listed { return Err(UnknownPtr); }
        ok := PushFree(order, pages);
      }
      if !ok { return Panic; }
      live := live - {b};
      r := Ok(());
    }

    /** The bytes up to the next page boundary: `align_offset`. */
    function Padding(start: nat): (n: nat)
      ensures n < Pow2(c.shift)
    {
      if start % Pow2(c.shift) == 0 then 0 else Pow2(c.shift) - start % Pow2(c.shift)
    }

    lemma RegionStarts(start: nat)
      ensures OnPage(start + Padding(start), Pow2(c.shift))
    {
      hide Pow2;
      var p := Pow2(c.shift);
      var q := start / p;
      assert start == p * q + start % p && p * (q + 1) == p * q + p;
      if start % p != 0 { DivModUnique(start + Padding(start), p, q + 1, 0); }
    }

    /** What the loop of `add_memory_region` has made of the allocator. */
    lemma RegionAdded(l: seq<seq<nat>>, p: iset<nat>, at: nat, n: nat)
      requires Shaped() && |l| == c.maxOrder && n > 0 && c.base <= at
      requires Listed(l) && FreeSet(l) !! live && Sound(c, FreeSet(l) + live, p)
      requires var ts := Tile(c, at, n, c.maxOrder - 1);
               && (forall i :: 0 <= i < |ts| ==> ts[i].order < c.maxOrder) && lists == PushedAll(l, ts)
      requires pool == p + Area(at, at + Bytes(c, n))
      ensures FreeSet(lists) == FreeSet(l) + Blocks(Tile(c, at, n, c.maxOrder - 1))
      ensures FreePages(lists) == FreePages(l) + n
      ensures Valid() <==>
                && (at - c.base) % Size(c, Largest(n, c.maxOrder - 1)) == 0
                && at + Bytes(c, n) <= c.end && p !! Area(at, at + Bytes(c, n))
    {
      hide FreePages, FreeSet, Listed, Size, Tile, Area, Blocks, Bytes, Pow2, Largest, Fine, Apart, AllAligned,
           PushedAll;
      var ts, end := Tile(c, at, n, c.maxOrder - 1), at + Bytes(c, n);
      TileSum(c, at, n, c.maxOrder - 1);
      TileChained(c, at, n, c.maxOrder - 1);
      TileAligned(c, at, n, c.maxOrder - 1);
      ChainedDistinct(c, ts, at, end);
      PushedAllBlocks(l, ts);
      var blocks := FreeSet(l) + live;
      assert FreeSet(lists) + live == blocks + Blocks(ts);
      if (at - c.base) % Size(c, Largest(n, c.maxOrder - 1)) == 0 && end <= c.end && p !! Area(at, end) {
        AddSound(c, blocks, p, ts, at, end);
      } else if Valid() {
        PushedAllNew(l, ts);
        SomeBytes(c, n);
        AddedSound(c, blocks, p, ts, at, end);
      }
    }

    /** `add_memory_region`. */
    method AddMemoryRegion(start: nat, length: nat) returns (r: Result<bool>)
      requires Valid()
      modifies this`lists, this`pool
      ensures Shaped()
      ensures r == Panic <==> !(length > 0 && start > 0 && c.base <= start < c.end && start + length <= c.end)
      ensures !r.Panic? ==>
                r == Ok(length >= Pow2(c.shift) && length - Padding(start) >= Pow2(c.shift))
      ensures r != Ok(true) ==> lists == old(lists) && pool == old(pool)
      ensures r == Ok(true) ==>
                var at, n := start + Padding(start), PagesIn(length, Pow2(c.shift));
                var ts := Tile(c, at, n, c.maxOrder - 1);
                && n > 0 && pool == old(pool) + Area(at, at + Bytes(c, n))
                && FreeSet(lists) == old(FreeSet(lists)) + Blocks(ts)
                && FreePages(lists) == old(FreePages(lists)) + n
                && (Valid() <==>
                      && (at - c.base) % Size(c, Largest(n, c.maxOrder - 1)) == 0
                      && at + Bytes(c, n) <= c.end && old(pool) !! Area(at, at + Bytes(c, n)))
    {
      hide Sound, FreePages, FreeSet, Listed, Size, Tile, Area, Blocks, Bytes, Pow2, PushedAll;
      if !(length > 0 && start > 0 && c.base <= start < c.end && start + length <= c.end) { return Panic; }
      var page := Pow2(c.shift);
      var padding := Padding(start);
      if length < page || length - padding < page { return Ok(false); }
      RegionStarts(start);
      RegionPages(length, page);
      PushTiles(start + padding, length);
      ghost var at, n := start + padding, PagesIn(length, page);
      pool := pool + Area(at, at + Bytes(c, n));
      RegionAdded(old(lists), old(pool), at, n);
      r := Ok(true);
    }

    /** The loop of `add_memory_region`, from the aligned start on. */
    method PushTiles(at: nat, length: nat)
      requires Shaped() && OnPage(at, Pow2(c.shift))
      modifies this`lists
      ensures Shaped()
      ensures var ts := Tile(c, at, PagesIn(length, Pow2(c.shift)), c.maxOrder - 1);
              (forall i :: 0 <= i < |ts| ==> ts[i].order < c.maxOrder) && lists == PushedAll(old(lists), ts)
    {
      hide Size, Tile, Pow2, PagesIn, OnPage, PushedAll, Pushed;
      var page := Pow2(c.shift);
      ghost var ts := Tile(c, at, PagesIn(length, page), c.maxOrder - 1);
      PushedNone(lists);
      TileTop(c, at, PagesIn(length, page), c.maxOrder - 1);
      var blockStart: nat, remaining: nat, order: nat := at, length, c.maxOrder - 1;
      ghost var done: seq<Block> := [];
      var more := true;
      while remaining > 0 && more
        invariant Shaped() && order < c.maxOrder && OnPage(blockStart, page)
        invariant done + (if more then Tile(c, blockStart, PagesIn(remaining, page), order) else []) == ts
        invariant forall i :: 0 <= i < |done| ==> done[i].order < c.maxOrder
        invariant lists == PushedAll(old(lists), done)
        decreases remaining, order, more
      {
        var len := Size(c, order);
        TileStep(c, blockStart, remaining, order, page);
        if remaining >= len {
          var ok := PushFree(order, blockStart);
          PushedAllSnoc(old(lists), done, Block(blockStart, order));
          done := done + [Block(blockStart, order)];
          remaining := remaining - len;
          blockStart := blockStart + len;
        } else if order > 0 {
          order := order - 1;
        } else {
          more := false;
        }
      }
      if more {
        NoPages(remaining, page);
        TileNone(c, blockStart, PagesIn(remaining, page), order);
      }
      assert done == ts;
    }
  }

  lemma NoPages(r: nat, page: nat)
    requires r == 0 && page > 0
    ensures PagesIn(r, page) == 0
  {}

  ghost predicate AllInside(c: Config, ts: seq<Block>, lo: nat, hi: nat) {
    forall b :: b in Blocks(ts) ==> lo <= b.at && b.at + Size(c, b.order) <= hi
  }

  /** A chain with bytes in it ends with its last block. */
  lemma ChainInside(c: Config, ts: seq<Block>, at: nat, end: nat, lo: nat, hi: nat)
    requires Chained(c, ts, at, end) && at < end && lo <= at
    ensures AllInside(c, ts, lo, hi) <==> end <= hi
  {
    hide Size, Chained;
    ChainedBytes(c, ts, at, end);
    assert Within(end - 1, at, end);
    var b :| b in ts && In(c, b, end - 1);
    assert b in Blocks(ts);
  }

  /**
   The blocks that `add_memory_region` makes of a region stay inside it if and only if there are none, or the padding
   is no more than the odd bytes at the end of the region.
   */
  lemma RegionInside(a: Allocator, start: nat, length: nat, order: nat)
    ensures var page := Pow2(a.c.shift);
            AllInside(a.c, Tile(a.c, start + a.Padding(start), PagesIn(length, page), order), start, start + length)
            <==> length < page || a.Padding(start) <= length % page
  {
    hide Pow2, Tile, Size, AllInside, Allocator.Padding;
    var page, at, n := Pow2(a.c.shift), start + a.Padding(start), PagesIn(length, Pow2(a.c.shift));
    assert length == page * n + length % page;
    if n == 0 {
      TileNone(a.c, at, n, order);
      NothingInside(a.c, start, start + length);
    } else {
      SomeBytes(a.c, n);
      TileChained(a.c, at, n, order);
      ChainInside(a.c, Tile(a.c, at, n, order), at, at + Bytes(a.c, n), start, start + length);
    }
  }

  lemma NothingInside(c: Config, lo: nat, hi: nat)
    ensures AllInside(c, [], lo, hi)
  {}
}
