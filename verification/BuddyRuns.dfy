/** Whole runs of the buddy allocator: `free` as coded and as intended, and inputs that break it. */
module BuddyRuns {
  import opened Arithmetic
  import opened Bits
  import opened BuddyBlocks
  import opened BuddyTiles
  import opened Buddy

  // ---------------------------------------------------------------- `free` as intended

  /** The lists after freeing a live block as intended: a merged block starts at the lower of the two. */
  function AfterIntended(c: Config, l: seq<seq<nat>>, at: nat, order: nat): seq<seq<nat>>
    requires |l| == c.maxOrder && order + 1 < c.maxOrder && c.base <= at
  {
    var buddy := BuddyOf(c, at, order);
    if buddy in l[order] then
      Pushed(Popped(l, order, IndexOf(l[order], buddy)), order + 1, if buddy < at then buddy else at)
    else Pushed(l, order, at)
  }

  /** Freeing a live block as intended keeps everything in order. */
  lemma IntendedSound(a: Allocator, at: nat, order: nat)
    requires a.Valid() && Block(at, order) in a.live && order + 1 < a.c.maxOrder
    ensures a.c.base <= at
    ensures var l, rest := AfterIntended(a.c, a.lists, at, order), a.live - {Block(at, order)};
            && Listed(l) && FreeSet(l) !! rest && Sound(a.c, FreeSet(l) + rest, a.pool)
            && FreePages(l) == FreePages(a.lists) + Pow2(order)
  {
    hide FreePages, FreeSet, Size, Pow2, BuddyOf, Sound, Listed;
    a.FreeLive(at, order);
    var buddy := BuddyOf(a.c, at, order);
    if !a.BuddyBelow(a.lists, at, order) {
      a.FreeSound(at, order);
    } else {
      MergeBelow(a, at, order);
    }
  }

  lemma MergeBelow(a: Allocator, at: nat, order: nat)
    requires a.Valid() && Block(at, order) in a.live && order + 1 < a.c.maxOrder && a.c.base <= at
    requires a.BuddyBelow(a.lists, at, order)
    ensures var l, rest := AfterIntended(a.c, a.lists, at, order), a.live - {Block(at, order)};
            && Listed(l) && FreeSet(l) !! rest && Sound(a.c, FreeSet(l) + rest, a.pool)
            && FreePages(l) == FreePages(a.lists) + Pow2(order)
  {
    hide FreePages, Size, Pow2, BuddyOf, Fine, Apart, Fills, Listed, FreeSet;
    var c, high, free, buddy := a.c, Block(at, order), FreeSet(a.lists), BuddyOf(a.c, at, order);
    var low, whole, i := Block(buddy, order), Block(buddy, order + 1), IndexOf(a.lists[order], buddy);
    assert (at - c.base) % Size(c, order) == 0 by { FineAligned(c, high); }
    BuddyIsNeighbour(c, at, order);
    a.SizeDoublesPages(order);
    PoppedBlocks(a.lists, order, i);
    PushedBlocks(Popped(a.lists, order, i), order + 1, buddy);
    NotFreeTwice(c, free + a.live, a.pool, at, order);
    MergeSound(c, free + a.live, a.pool, whole, low, high);
    assert (free - {low} + {whole}) + (a.live - {high}) == free + a.live - {low, high} + {whole};
  }

  /** `free` with the merged block pushed at the lower of the two addresses. */
  method FreeIntended(a: Allocator, pages: nat, numPages: nat) returns (r: Result<()>)
    requires a.Valid()
    modifies a`lists, a`live
    ensures a.Shaped()
    ensures a.Unknown(pages, numPages) ==> r.Err? && a.lists == old(a.lists) && a.live == old(a.live)
    ensures !a.Unknown(pages, numPages) && Block(pages, OrderFor(numPages)) in old(a.live) ==>
              var k := OrderFor(numPages);
              if k + 1 == a.c.maxOrder then r == Panic
              else && r == Ok(()) && a.Valid() && a.live == old(a.live) - {Block(pages, k)}
                   && a.lists == AfterIntended(a.c, old(a.lists), pages, k)
                   && FreePages(a.lists) == old(FreePages(a.lists)) + Pow2(k)
  {
    hide Sound, FreePages, FreeSet, Listed, Size, Pow2, OrderFor, BuddyOf;
    if a.Unknown(pages, numPages) { return Err(UnknownPtr); }
    var order := OrderFor(numPages);
    var buddy := BuddyOf(a.c, pages, order);
    ghost var b := Block(pages, order);
    if b in a.live {
      a.FreeLive(pages, order);
      if order + 1 < a.c.maxOrder { IntendedSound(a, pages, order); }
      if buddy in a.lists[order] { FreeAligned(a, order, buddy); }
    }
    var removed := a.TryRemoveBuddy(order, buddy);
    var ok;
    if removed {
      if order + 1 >= a.c.maxOrder { return Panic; }
      ok := a.PushFree(order + 1, if buddy < pages then buddy else pages);
    } else {
      var listed := a.BlockInFreeList(order, pages);
      if listed { return Err(UnknownPtr); }
      if order + 1 >= a.c.maxOrder { return Panic; }
      listed := a.BlockInFreeList(order + 1, pages);
      if listed { return Err(UnknownPtr); }
      listed := a.BlockInFreeList(order + 1, buddy);
      if listed { return Err(UnknownPtr); }
      ok := a.PushFree(order, pages);
    }
    if !ok { return Panic; }
    a.live := a.live - {b};
    r := Ok(());
  }

  lemma FreeAligned(a: Allocator, order: nat, at: nat)
    requires a.Valid() && order < a.c.maxOrder && at in a.lists[order]
    ensures OnPage(at, Pow2(a.c.shift))
  {
    hide Apart, Fills, Listed, Size, Pow2, OnPage, FreeSet;
    InFreeSet(a.lists);
    assert IsFree(a.lists, Block(at, order));
    BlockAligned(a.c, Block(at, order));
  }

  // ---------------------------------------------------------------- runs

  /** A client's request: new pages, or a block of it back. */
  datatype Request = Get(numPages: nat) | Return(at: nat, numPages: nat)

  /** What became of it; the client keeps a block that it may not return. */
  datatype Answer = Got(pages: Result<nat>) | Returned(done: Result<()>) | Kept

  /** The client holds the block, there is a larger order, and as coded no free buddy lies below it. */
  predicate MayReturn(a: Allocator, intended: bool, held: set<Block>, l: seq<seq<nat>>, at: nat, numPages: nat)
    requires |l| == a.c.maxOrder
  {
    && numPages > 0 && a.c.base <= at && OrderFor(numPages) + 1 < a.c.maxOrder && Block(at, OrderFor(numPages)) in held
    && (intended || !a.BuddyBelow(l, at, OrderFor(numPages)))
  }

  /** How a request with the lists `l` is answered, and the lists after it. */
  ghost predicate Served(a: Allocator, intended: bool, q: Request, held: set<Block>, l: seq<seq<nat>>,
                         r: Answer, l': seq<seq<nat>>)
    requires |l| == a.c.maxOrder
  {
    match q
    case Get(n) =>
      && r.Got? && !r.pages.Panic? && (r.pages == Err(InvalidSize) <==> n == 0)
      && (n > 0 ==> (r.pages == Err(OutOfMemory) <==> forall o :: OrderFor(n) <= o < a.c.maxOrder ==> l[o] == []))
      && (r.pages.Err? ==> r.pages.error != UnknownPtr && l' == l)
      && (r.pages.Ok? ==>
            exists j :: OrderFor(n) <= j < a.c.maxOrder && a.SplitFrom(l, l', r.pages.value, OrderFor(n), j))
    case Return(at, n) =>
      if !MayReturn(a, intended, held, l, at, n) then r == Kept && l' == l
      else && r == Returned(Ok(()))
           && l' == if intended then AfterIntended(a.c, l, at, OrderFor(n)) else a.AfterFree(l, at, OrderFor(n))
  }

  /** The blocks the client has after these answers. */
  function HeldAfter(requests: seq<Request>, answers: seq<Answer>): set<Block>
    requires |requests| == |answers|
  {
    var n := |requests|;
    if n == 0 then {} else Next(HeldAfter(requests[..n - 1], answers[..n - 1]), requests[n - 1], answers[n - 1])
  }

  function Next(held: set<Block>, q: Request, r: Answer): set<Block> {
    match q
    case Get(n) => if r.Got? && r.pages.Ok? && n > 0 then held + {Block(r.pages.value, OrderFor(n))} else held
    case Return(at, n) => if r.Returned? && r.done.Ok? && n > 0 then held - {Block(at, OrderFor(n))} else held
  }

  /** The pages of a set of blocks. */
  ghost function PagesOf(blocks: set<Block>): nat {
    if blocks == {} then 0 else var b :| b in blocks; Pow2(b.order) + PagesOf(blocks - {b})
  }

  lemma {:induction false} PagesWithout(blocks: set<Block>, b: Block)
    requires b in blocks
    ensures PagesOf(blocks) == Pow2(b.order) + PagesOf(blocks - {b})
    decreases |blocks|
  {
    hide Pow2;
    var x :| x in blocks && PagesOf(blocks) == Pow2(x.order) + PagesOf(blocks - {x});
    if x != b {
      PagesWithout(blocks - {x}, b);
      PagesWithout(blocks - {b}, x);
      assert blocks - {x} - {b} == blocks - {b} - {x};
    }
  }

  lemma PagesWith(blocks: set<Block>, b: Block)
    requires b !in blocks
    ensures PagesOf(blocks + {b}) == PagesOf(blocks) + Pow2(b.order)
  {
    hide PagesOf;
    PagesWithout(blocks + {b}, b);
    assert blocks + {b} - {b} == blocks;
  }

  /** No check stops the return of a live block. */
  lemma LiveKnown(a: Allocator, at: nat, numPages: nat)
    requires a.Valid() && numPages > 0 && Block(at, OrderFor(numPages)) in a.live && OrderFor(numPages) < a.c.maxOrder
    ensures !a.Unknown(at, numPages)
  {
    hide Apart, Fills, Listed, FreeSet, Pow2;
    assert Fine(a.c, Block(at, OrderFor(numPages)));
  }

  /** One request of the client. */
  method Serve(a: Allocator, intended: bool, held: set<Block>, q: Request) returns (r: Answer)
    requires a.Valid() && a.live == held
    modifies a`lists, a`live
    ensures a.Valid() && a.live == Next(held, q, r)
    ensures Served(a, intended, q, held, old(a.lists), r, a.lists)
    ensures FreePages(a.lists) + PagesOf(a.live) == old(FreePages(a.lists)) + PagesOf(held)
  {
    hide Sound, FreeSet, Listed, Pow2, OrderFor, FreePages, PagesOf, Allocator.Unknown, Allocator.BuddyBelow,
         Allocator.AfterFree, Allocator.FreeResult, AfterIntended, Allocator.SplitFrom;
    match q {
      case Get(n) =>
        var got := a.Allocate(n);
        r := Got(got);
        if got.Ok? { PagesWith(held, Block(got.value, OrderFor(n))); }
      case Return(at, n) =>
        if !MayReturn(a, intended, held, a.lists, at, n) { return Kept; }
        LiveKnown(a, at, n);
        PagesWithout(held, Block(at, OrderFor(n)));
        var done;
        if intended { done := FreeIntended(a, at, n); } else { done := a.Free(at, n); }
        r := Returned(done);
    }
  }

  /** Every answer is the one the lists demand. */
  ghost predicate Reported(a: Allocator, intended: bool, requests: seq<Request>, answers: seq<Answer>,
                           states: seq<seq<seq<nat>>>)
    requires |answers| <= |requests| && |states| == |answers| + 1
  {
    forall i :: 0 <= i < |answers| ==>
      && |states[i]| == a.c.maxOrder
      && Served(a, intended, requests[i], HeldAfter(requests[..i], answers[..i]), states[i], answers[i], states[i + 1])
  }

  lemma ReportedSnoc(a: Allocator, intended: bool, requests: seq<Request>, answers: seq<Answer>,
                     states: seq<seq<seq<nat>>>, r: Answer, l: seq<seq<nat>>)
    requires |answers| < |requests| && |states| == |answers| + 1 && |states[|answers|]| == a.c.maxOrder
    requires Reported(a, intended, requests, answers, states)
    requires var n := |answers|; Served(a, intended, requests[n], HeldAfter(requests[..n], answers), states[n], r, l)
    ensures Reported(a, intended, requests, answers + [r], states + [l])
    ensures var n := |answers|;
            HeldAfter(requests[..n + 1], answers + [r]) == Next(HeldAfter(requests[..n], answers), requests[n], r)
  {
    hide Served, Next;
    var n, all, after := |answers|, answers + [r], states + [l];
    forall i | 0 <= i < |all|
      ensures |after[i]| == a.c.maxOrder
              && Served(a, intended, requests[i], HeldAfter(requests[..i], all[..i]), after[i], all[i], after[i + 1])
    {
      assert all[..i] == answers[..i];
      if i == n { assert answers[..n] == answers; }
    }
    assert requests[..n + 1][..n] == requests[..n] && all[..n] == answers;
  }

  /**
   Over every sequence of requests, free and held blocks stay aligned, disjoint and together the pool, and no page is
   lost. As intended, every return of a held block below the largest order succeeds; as coded, those without a free
   buddy below.
   */
  method Run(a: Allocator, intended: bool, requests: seq<Request>)
    returns (answers: seq<Answer>, held: set<Block>, ghost states: seq<seq<seq<nat>>>)
    requires a.Valid() && a.live == {}
    modifies a`lists, a`live
    ensures |answers| == |requests| && |states| == |requests| + 1
    ensures states[0] == old(a.lists) && states[|requests|] == a.lists
    ensures Reported(a, intended, requests, answers, states)
    ensures a.Valid() && a.live == held == HeldAfter(requests, answers)
    ensures FreePages(a.lists) + PagesOf(held) == old(FreePages(a.lists))
  {
    hide Allocator.Valid, FreePages, PagesOf, Reported, Served, Next, HeldAfter;
    answers, held, states := [], {}, [a.lists];
    RunStarts(a, intended, requests, states);
    for i := 0 to |requests|
      invariant |answers| == i && |states| == i + 1 && states[0] == old(a.lists) && states[i] == a.lists
      invariant Reported(a, intended, requests, answers, states)
      invariant a.Valid() && a.live == held == HeldAfter(requests[..i], answers)
      invariant FreePages(a.lists) + PagesOf(held) == old(FreePages(a.lists))
    {
      ListsShaped(a);
      var r := Serve(a, intended, held, requests[i]);
      ReportedSnoc(a, intended, requests, answers, states, r, a.lists);
      held := Next(held, requests[i], r);
      answers, states := answers + [r], states + [a.lists];
    }
    assert requests[..|requests|] == requests;
  }

  lemma RunStarts(a: Allocator, intended: bool, requests: seq<Request>, states: seq<seq<seq<nat>>>)
    requires |states| == 1
    ensures Reported(a, intended, requests, [], states) && HeldAfter(requests[..0], []) == {} && PagesOf({}) == 0
  {}

  lemma ListsShaped(a: Allocator)
    requires a.Valid()
    ensures |a.lists| == a.c.maxOrder
  {}

  // ---------------------------------------------------------------- inputs that break the coded allocator

  /** An allocator that manages one block of order 1. */
  method OnePair(c: Config) returns (a: Allocator)
    requires c.Ok() && c.maxOrder == 2 && c.end == c.base + Size(c, 1)
    ensures fresh(a) && a.Valid() && a.c == c && a.live == {} && a.lists == [[], [c.base]]
  {
    hide Sound, FreePages, FreeSet, Listed, Size, Tile, Area, Blocks, Bytes, Pow2, Largest, PagesIn, OnPage;
    a := new Allocator(c);
    assert a.lists == [[], []];
    PairTile(a);
    var r := a.AddMemoryRegion(c.base, Size(c, 1));
    PairLists(c, a.lists);
  }

  lemma PairTile(a: Allocator)
    requires a.c.Ok() && a.c.maxOrder == 2 && a.c.end == a.c.base + Size(a.c, 1)
    ensures a.Padding(a.c.base) == 0 && Size(a.c, 1) >= Pow2(a.c.shift) && PagesIn(Size(a.c, 1), Pow2(a.c.shift)) == 2
    ensures Tile(a.c, a.c.base, 2, 1) == [Block(a.c.base, 1)] && Bytes(a.c, 2) == Size(a.c, 1)
    ensures 0 % Size(a.c, Largest(2, 1)) == 0
  {
    var c, page := a.c, Pow2(a.c.shift);
    SizeDoubles(c, 0);
    assert Size(c, 0) == page && Pow2(1) == 2;
    DivModUnique(2 * page, page, 2, 0);
    TileUnfold(c, c.base, 2, 1);
    TileNone(c, c.base + Size(c, 1), 0, 1);
  }

  lemma PairLists(c: Config, l: seq<seq<nat>>)
    requires |l| == 2 && Listed(l) && FreeSet(l) == FreeSet([[], []]) + Blocks([Block(c.base, 1)])
    ensures l == [[], [c.base]]
  {
    InFreeSet(l);
    InFreeSet([[], []]);
    hide FreeSet;
    forall x ensures x !in l[0] && (x in l[1] <==> x == c.base) {
      assert (x in l[0] <==> IsFree(l, Block(x, 0))) && (x in l[1] <==> IsFree(l, Block(x, 1)));
    }
    ListStarts(l[0]);
    Only(l[1], c.base);
  }

  lemma ListStarts(l: seq<nat>)
    ensures (l == [] || l[0] in l) && (|l| < 2 || l[1] in l)
  {}

  lemma Only(l: seq<nat>, x: nat)
    requires Unique(l) && forall y :: y in l <==> y == x
    ensures l == [x]
  {
    ListStarts(l);
    assert x in l && l[0] == x;
  }

  /** Both pages of a pair are allocated and given back, the lower first: then a merged block is out of place. */
  method UpperFreedLast(c: Config)
    returns (a: Allocator, low: Result<nat>, high: Result<nat>, r: Result<()>, r': Result<()>)
    requires c.Ok() && c.maxOrder == 2 && c.end == c.base + Size(c, 1)
    ensures low == Ok(c.base) && high == Ok(c.base + Size(c, 0)) && r == Ok(()) && r' == Ok(()) && !a.Valid()
    ensures a.lists == [[], [c.base + Size(c, 0)]]
  {
    hide Sound, FreePages, FreeSet, Listed, Size, Pow2, BuddyOf, OrderFor, Allocator.SplitFrom, Allocator.AfterFree;
    PairBuddies(c);
    assert OrderFor(1) == 0 by { OnePage(1); }
    a := OnePair(c);
    assert a.lists[1] == [c.base];
    low := a.Allocate(1);
    ghost var j :| 0 <= j < 2 && a.SplitFrom([[], [c.base]], a.lists, low.value, 0, j);
    PairSplit(a, [[], [c.base]], a.lists, low.value, j);
    ghost var l := a.lists;
    assert l[0] == [c.base + Size(c, 0)];
    high := a.Allocate(1);
    j :| 0 <= j < 2 && a.SplitFrom(l, a.lists, high.value, 0, j);
    PairSplit(a, l, a.lists, high.value, j);
    LiveKnown(a, c.base, 1);
    r := a.Free(c.base, 1);
    PairFreed(a);
    LiveKnown(a, c.base + Size(c, 0), 1);
    r' := a.Free(c.base + Size(c, 0), 1);
  }

  lemma OnePage(n: nat)
    requires n == 1
    ensures OrderFor(n) == 0
  {}

  lemma PairSplit(a: Allocator, l: seq<seq<nat>>, l': seq<seq<nat>>, at: nat, j: nat)
    requires a.c.maxOrder == 2 && j < 2 && a.SplitFrom(l, l', at, 0, j)
    ensures forall x :: l == [[], [x]] ==> at == x && l' == [[x + Size(a.c, 0)], []]
    ensures forall x :: l == [[x], []] ==> at == x && l' == [[], []]
  {
    hide Size;
    forall x | l == [[], [x]] ensures at == x && l' == [[x + Size(a.c, 0)], []] {
      assert l[1] == [x] && l'[0] == [x + Size(a.c, 0)] && l'[1] == [];
    }
    forall x | l == [[x], []] ensures at == x && l' == [[], []] { assert l[0] == [x] && l'[0] == [] && l'[1] == []; }
  }

  lemma PairFreed(a: Allocator)
    requires a.c.Ok() && a.c.maxOrder == 2
    ensures var c := a.c;
            && a.AfterFree([[], []], c.base, 0) == [[c.base], []]
            && a.AfterFree([[c.base], []], c.base + Size(c, 0), 0) == [[], [c.base + Size(c, 0)]]
            && a.BuddyBelow([[c.base], []], c.base + Size(c, 0), 0) && !a.BuddyBelow([[], []], c.base, 0)
  {
    hide Size, BuddyOf;
    PairBuddies(a.c);
    var x, y, none: seq<seq<nat>> := a.c.base, a.c.base + Size(a.c, 0), [[], []];
    var one: seq<seq<nat>> := [[x], []];
    assert none[0] == [] && [x] + none[0] == [x] && Pushed(none, 0, x) == one;
    assert one[0] == [x] && IndexOf(one[0], x) == 0;
    assert [x][..0] + [x][1..] == [] && Popped(one, 0, 0) == none;
    assert none[1] == [] && [y] + none[1] == [y] && Pushed(none, 1, y) == [[], [y]];
  }

  lemma PairBuddies(c: Config)
    requires c.Ok()
    ensures BuddyOf(c, c.base, 0) == c.base + Size(c, 0) && BuddyOf(c, c.base + Size(c, 0), 0) == c.base
  {
    BuddyIsNeighbour(c, c.base, 0);
  }

  /** A region that starts just after a page boundary gets a block that ends outside it. */
  method RegionOverrun(c: Config) returns (a: Allocator, r: Result<bool>)
    requires c.Ok() && c.shift > 0 && c.end > c.base + 2 * Pow2(c.shift)
    ensures r == Ok(true)
    ensures exists b :: b in FreeSet(a.lists) && b.at + Size(c, b.order) > c.base + 1 + 2 * Pow2(c.shift)
  {
    hide Sound, FreePages, FreeSet, Listed, Size, Tile, Area, Blocks, Bytes, Pow2, Largest, PagesIn, OnPage,
         Allocator.Padding;
    a := new Allocator(c);
    var page := Pow2(c.shift);
    OverrunSizes(a);
    r := a.AddMemoryRegion(c.base + 1, 2 * page);
    OverrunTile(c, c.base + page, page);
  }

  lemma OverrunSizes(a: Allocator)
    requires a.c.Ok() && a.c.shift > 0
    ensures var page := Pow2(a.c.shift); page > 1 && a.Padding(a.c.base + 1) == page - 1 && PagesIn(2 * page, page) == 2
  {
    var page, q := Pow2(a.c.shift), a.c.base / Pow2(a.c.shift);
    hide Pow2;
    Pow2Step(a.c.shift);
    assert a.c.base == page * q;
    DivModUnique(a.c.base + 1, page, q, 1);
    DivModUnique(2 * page, page, 2, 0);
  }

  lemma OverrunTile(c: Config, at: nat, page: nat)
    requires c.Ok() && page == Pow2(c.shift) && page > 1 && at == c.base + page
    ensures exists b :: b in Blocks(Tile(c, at, 2, c.maxOrder - 1)) && b.at + Size(c, b.order) > c.base + 1 + 2 * page
  {
    hide Size, Tile, Pow2;
    var ts, end := Tile(c, at, 2, c.maxOrder - 1), at + Bytes(c, 2);
    TileChained(c, at, 2, c.maxOrder - 1);
    ChainedBytes(c, ts, at, end);
    assert Within(end - 1, at, end);
    var b :| b in ts && In(c, b, end - 1);
  }
}
