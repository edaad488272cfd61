/** The heap allocator of kernel_core/src/memory/heap.rs. */
module Heap {
  import opened Common
  import opened Arithmetic
  import opened Bits
  import opened HeapLayout
  import opened HeapState

  datatype Outcome = Pointer(p: nat) | Null | Panic

  /** `MIN_PAGE_ALLOCATION`. */
  const MIN_PAGES: nat := 4

  function SizeOf(mem: Words, b: nat): nat { if b in mem then mem[b] else 0 }

  /** The first block from position `from` on that is large enough, or the end of the list. */
  ghost function FirstFit(mem: Words, free: seq<nat>, required: nat, from: nat): (i: nat)
    requires from <= |free|
    ensures from <= i <= |free| && (i < |free| ==> SizeOf(mem, free[i]) >= required)
    ensures forall k :: from <= k < i ==> SizeOf(mem, free[k]) < required
    decreases |free| - from
  {
    if from == |free| || SizeOf(mem, free[from]) >= required then from else FirstFit(mem, free, required, from + 1)
  }

  /** How many pages are asked for when no block fits. */
  function PageCount(required: nat, page: nat): (n: nat)
    requires page > 0
    ensures n >= MIN_PAGES && n * page >= required
  {
    PagesCover(required, page);
    var n := (required + page - 1) / page;
    if n < MIN_PAGES then MIN_PAGES else n
  }

  lemma PagesCover(required: nat, page: nat)
    requires page > 0
    ensures (required + page - 1) / page * page >= required
    ensures (required + page - 1) / page < MIN_PAGES ==> MIN_PAGES * page >= required
  {
    var x := required + page - 1;
    var n := x / page;
    assert x == page * n + x % page;
    if n < MIN_PAGES { MulSub(page, MIN_PAGES, n); MulAtLeast(page, MIN_PAGES - n); }
  }

  /** Blocks of whole pages suit every alignment up to a page. */
  lemma PageBlocks(block: nat, page: nat, layout: Layout)
    requires page in {0x1000, 0x4000} && block % page == 0 && layout.Ok() && layout.align <= page
    ensures layout.align > 0 && block % layout.align == 0
  {
    var k :| layout.align == Pow2(k);
    PagePowers();
    var j := if page == 0x1000 then 12 else 14;
    if k > j { Pow2Monotone(j + 1, k); }
    var m := PowDivides(k, j);
    Digits(block, m, layout.align, page);
  }

  lemma PagePowers()
    ensures Pow2(12) == 0x1000 && Pow2(14) == 0x4000 && Pow2(13) == 0x2000 && Pow2(15) == 0x8000
  {
    SmallPowers();
    assert Pow2(8) == 256;
    assert Pow2(12) == 0x1000;
  }

  lemma {:induction false} PowDivides(k: nat, j: nat) returns (m: nat)
    requires k <= j
    ensures m > 0 && Pow2(j) == m * Pow2(k)
    decreases j
  {
    if k == j { m := 1; } else {
      var h := PowDivides(k, j - 1);
      m := 2 * h;
    }
  }

  /** The memory of the heap, with its list, its allocations and its pages. */
  datatype View = View(mem: Words, free: seq<nat>, live: map<nat, Live>, pages: set<Span>) {
    /** The list is intact, all blocks lie apart and in the pages. */
    ghost predicate Ok() { Inv(mem, Next(free, 0), free, live) && Pooled(mem, free, live, pages) }
  }

  /** The layouts for which the assertion on the padding fails on this block. */
  predicate Misfit(block: nat, layout: Layout) {
    layout.align > 16 && block % layout.align == layout.align - 8
  }

  /** The bytes of the block that is cut. */
  ghost function Total(page: nat, s: View, layout: Layout): nat
    requires page > 0
  {
    var i := FirstFit(s.mem, s.free, Required(layout), 0);
    if i < |s.free| then SizeOf(s.mem, s.free[i]) else PageCount(Required(layout), page) * page
  }

  /** The `i`-th block is taken off the list. */
  function Taken(s: View, i: nat): View
    requires i < |s.free|
  {
    View(Redirected(s.mem, s.free, i), Without(s.free, i), s.live, s.pages)
  }

  /** The memory and the list after what is left of a block with `total` bytes was put back. */
  function WithRest(mem: Words, free: seq<nat>, total: nat, l: Live): (Words, seq<nat>) {
    var at := l.block + Round(l.Size());
    if total > l.Size() + HEADER && total >= Round(l.Size())
    then (mem[at := total - Round(l.Size())][at + 8 := Next(free, 0)], [at] + free)
    else (mem, free)
  }

  /** An allocation is cut from a block with `total` bytes. */
  function Cut(s: View, total: nat, l: Live): View {
    var (m, f) := WithRest(s.mem, s.free, total, l);
    View(m[l.Data() - 16 := l.Size()][l.Data() - 8 := l.block], f, s.live[l.Data() := l], s.pages)
  }

  /**
   The answer of `alloc`, and the state after it. It takes the first block that is large enough or new pages, and
   panics exactly if that block does not suit the alignment. No word of another allocation changes.
   */
  ghost predicate Allocated(page: nat, ready: bool, s: View, layout: Layout, given: Option<nat>, r: Outcome, s': View)
    requires page > 0 && layout.align > 0
  {
    var i, total := FirstFit(s.mem, s.free, Required(layout), 0), Total(page, s, layout);
    var taken := if i < |s.free| then Taken(s, i)
                 else if r.Pointer? && given.Some? then s.(pages := s.pages + {Span(given.value, total)}) else s;
    && (r == Panic <==> if i < |s.free| then Misfit(s.free[i], layout) else ready && layout.align > page)
    && (r == Null <==> i == |s.free| && (!ready || (layout.align <= page && given == None)))
    && (r == Null ==> s' == s) && (r == Panic ==> s' == taken)
    && (r.Pointer? ==>
          && (i == |s.free| ==> given.Some?)
          && var block := if i < |s.free| then s.free[i] else given.value;
             var l := Live(block, Padding(block, layout), layout);
             && r.p == l.Data() && r.p !in s.live && r.p % layout.align == 0 && l.Size() <= total
             && s' == Cut(taken, total, l))
    && Kept(s.mem, s'.mem, s.live)
  }

  class Allocator {
    const page: nat
    /** Whether a page allocator has been assigned. */
    var ready: bool
    var mem: Words
    var head: nat
    ghost var free: seq<nat>
    ghost var live: map<nat, Live>
    /** The runs of pages the page allocator has given. */
    ghost var pages: set<Span>

    ghost predicate Valid()
      reads this
    {
      page in {0x1000, 0x4000} && Inv(mem, head, free, live) && Pooled(mem, free, live, pages)
    }

    ghost function Look(): View
      reads this
    {
      View(mem, free, live, pages)
    }

    /** `new` and `new_uninit`. */
    constructor (page: nat, ready: bool)
      requires page in {0x1000, 0x4000}
      ensures Valid() && this.page == page && this.ready == ready && free == [] && live == map[] && pages == {}
    {
      this.page, this.ready := page, ready;
      mem, head, free, live, pages := map[], 0, [], map[], {};
    }

    /** `try_remove_fit`: the first block that is large enough, or null. */
    method TryRemoveFit(required: nat) returns (block: nat)
      requires Valid()
      modifies this`mem, this`head, this`free
      ensures Valid()
      ensures var i := FirstFit(old(mem), old(free), required, 0);
              if i == |old(free)| then block == 0 && mem == old(mem) && head == old(head) && free == old(free)
              else && block == old(free)[i] && block > 0 && block % 8 == 0 && Look() == Taken(old(Look()), i)
                   && SizeOf(mem, block) == SizeOf(old(mem), block) >= required
                   && Room(mem, free, live, Span(block, Round(SizeOf(mem, block))))
                   && InPages(Span(block, Round(SizeOf(mem, block))), pages)
      ensures Kept(old(mem), mem, live)
    {
      hide Inv, Room, Without, FreeOk, Pooled, InPages, Kept, Redirected;
      KeptSelf(mem, live);
      HeadOf(mem, head, free, live);
      var prev: nat, current: nat := 0, head;
      ghost var i: nat := 0;
      ghost var fit := FirstFit(mem, free, required, 0);
      while current != 0
        invariant Valid() && mem == old(mem) && head == old(head) && free == old(free)
        invariant i <= |free| && current == Next(free, i) && (if i == 0 then prev == 0 else prev == free[i - 1])
        invariant i <= fit
        decreases |free| - i
      {
        AtBlock(mem, head, free, live, i);
        var next := mem[current + 8];
        if mem[current] >= required {
          assert fit == i;
          Unlink(i, prev, next);
          return current;
        }
        prev, current := current, next;
        i := i + 1;
      }
      if i < |free| { AtBlock(mem, head, free, live, i); }
      block := 0;
    }

    /** Take the `i`-th block off the list. */
    method Unlink(ghost i: nat, prev: nat, next: nat)
      requires Valid() && i < |free| && next == Next(free, i + 1) && (if i == 0 then prev == 0 else prev == free[i - 1])
      requires i > 0 ==> FreeOk(mem, free[i - 1])
      modifies this`mem, this`head, this`free
      ensures Valid() && Look() == Taken(old(Look()), i) && Kept(old(mem), mem, live)
      ensures var block := old(free)[i];
              && SizeOf(mem, block) == SizeOf(old(mem), block)
              && Room(mem, free, live, Span(block, Round(SizeOf(mem, block))))
              && InPages(Span(block, Round(SizeOf(mem, block))), pages)
    {
      hide Inv, Room, Without, Pooled, InPages, SameSpans, Kept;
      UnlinkInv(mem, head, free, live, i);
      KeptRedirected(mem, head, free, live, i);
      AtBlock(mem, head, free, live, i);
      PooledWithout(mem, Redirected(mem, free, i), free, live, pages, i);
      free := Without(free, i);
      if prev != 0 { mem := mem[prev + 8 := next]; } else { head := next; }
    }

    /** The page allocator gives aligned pages, and none twice. */
    ghost predicate GivenOk(given: Option<nat>, layout: Layout)
      requires page > 0
      reads this
    {
      given.Some? ==>
        given.value > 0 && given.value % page == 0 && forall q :: q in pages ==> Apart(q, PagesFor(given.value, layout))
    }

    /** The pages asked for when no block fits. */
    function PagesFor(at: nat, layout: Layout): Span
      requires page > 0
    {
      Span(at, PageCount(Required(layout), page) * page)
    }

    /** `alloc`; `given` is what the page allocator answers if it is asked. */
    method Alloc(layout: Layout, given: Option<nat>) returns (r: Outcome)
      requires Valid() && layout.Ok() && GivenOk(given, layout)
      modifies this`mem, this`head, this`free, this`live, this`pages
      ensures layout.align > 0 && Allocated(page, ready, old(Look()), layout, given, r, Look())
      ensures Valid()
    {
      hide Inv, Room, Without, Layout.Ok, FirstFit, PageCount, Round, Pooled, InPages, Kept, Redirected, Cut;
      var required := Required(layout);
      Alignments(layout);
      var block := TryRemoveFit(required);
      var total;
      if block != 0 {
        total := SizeOf(mem, block);
      } else {
        if !ready { return Null; }
        var count := PageCount(required, page);
        if layout.align > page { return Panic; }
        if given == None { return Null; }
        total, block := count * page, given.value;
        PageBlocks(block, page, layout);
        PagesAreWords(block, page, count);
        WholePages(count, page);
        NewPages(mem, free, live, pages, Span(block, total));
        pages := pages + {Span(block, total)};
      }
      PaddingFits(block, layout);
      var pad := Padding(block, layout);
      if pad > PaddingMax(layout) { return Panic; }
      PaddingAligns(block, layout);
      ghost var m := mem;
      Carve(block, total, pad, layout);
      KeptTrans(old(mem), m, mem, old(live));
      r := Pointer(block + pad + HEADER);
    }

    /** Put back the rest of the block and write the header. */
    method Carve(block: nat, total: nat, pad: nat, layout: Layout)
      requires Valid() && block > 0 && block % 8 == 0 && Room(mem, free, live, Span(block, Round(total)))
      requires InPages(Span(block, Round(total)), pages)
      requires layout.Ok() && layout.align > 0 && pad % 8 == 0 && pad <= PaddingMax(layout)
      requires HEADER + pad + layout.size <= total && (block + pad + HEADER) % layout.align == 0
      modifies this`mem, this`head, this`free, this`live
      ensures Valid() && block + pad + HEADER !in old(live)
      ensures Look() == Cut(old(Look()), total, Live(block, pad, layout)) && Kept(old(mem), mem, old(live))
    {
      hide Inv, Room, Layout.Ok, PaddingMax, Pooled, InPages, SameSpans, Kept, Round;
      var actual := HEADER + pad + layout.size;
      ghost var l := Live(block, pad, layout);
      RoundPart(total, actual);
      RoomPart(mem, free, live, Span(block, Round(total)), l.Footprint());
      KeptSelf(mem, live);
      if total - actual > HEADER { PutBack(block, total, actual); }
      var header := block + pad;
      ghost var m := mem;
      HeaderInside(l);
      KeptHeader(mem, free, live, l.Footprint(), header, actual, block);
      KeptTrans(old(mem), m, mem[header := actual][header + 8 := block], live);
      LiveInv(mem, head, free, live, l);
      InPagesPart(Span(block, Round(total)), l.Footprint(), pages);
      PooledLive(mem, mem[header := actual][header + 8 := block], free, live, pages, header + HEADER, l);
      mem := mem[header := actual][header + 8 := block];
      live := live[header + HEADER := l];
    }

    /** The rest of a block becomes a free block; its recorded size may be less than a header. */
    method PutBack(block: nat, total: nat, actual: nat)
      requires Valid() && block > 0 && block % 8 == 0 && Room(mem, free, live, Span(block, Round(total)))
      requires InPages(Span(block, Round(total)), pages)
      requires total > actual + HEADER
      modifies this`mem, this`head, this`free
      ensures Valid() && Room(mem, free, live, Span(block, Round(actual)))
      ensures Round(actual) <= total && free == [block + Round(actual)] + old(free)
      ensures var rest := block + Round(actual);
              mem == old(mem)[rest := total - Round(actual)][rest + 8 := Next(old(free), 0)]
      ensures Kept(old(mem), mem, live)
    {
      hide Inv, Room, Round, Pooled, InPages, SameSpans, Kept;
      HeadOf(mem, head, free, live);
      var offset := Round(actual);
      var rest, size := block + offset, total - offset;
      RoundPart(total, actual);
      RestWords(actual, total, block);
      RoomPart(mem, free, live, Span(block, Round(total)), Span(rest, Round(size)));
      RoomPart(mem, free, live, Span(block, Round(total)), Span(block, offset));
      PushInv(mem, head, free, live, rest, size);
      KeptHeader(mem, free, live, Span(rest, Round(size)), rest, size, head);
      InPagesPart(Span(block, Round(total)), Span(rest, Round(size)), pages);
      PooledPush(mem, mem[rest := size][rest + 8 := head], free, live, pages, rest);
      RoomBefore(mem, head, free, live, rest, size, Span(block, offset));
      mem := mem[rest := size];
      PushFreeBlock(rest);
    }

    /** `push_free_block`. */
    method PushFreeBlock(block: nat)
      modifies this`mem, this`head, this`free
      ensures mem == old(mem)[block + 8 := old(head)] && head == block && free == [block] + old(free)
    {
      mem := mem[block + 8 := head];
      head := block;
      free := [block] + free;
    }

    /** The address lies in the recorded bytes of a free block. */
    ghost predicate InFree(a: nat)
      reads this
    {
      exists k :: 0 <= k < |free| && free[k] <= a < free[k] + SizeOf(mem, free[k])
    }

    /** `is_free`. */
    method IsFree(ptr: nat) returns (r: bool)
      requires Valid()
      ensures r <==> InFree(ptr)
    {
      hide Inv, FreeOk;
      HeadOf(mem, head, free, live);
      var cursor: nat := head;
      ghost var i: nat := 0;
      while cursor != 0
        invariant Valid() && i <= |free| && cursor == Next(free, i)
        invariant forall k :: 0 <= k < i ==> !(free[k] <= ptr < free[k] + SizeOf(mem, free[k]))
        decreases |free| - i
      {
        AtBlock(mem, head, free, live, i);
        if cursor <= ptr < cursor + mem[cursor] { return true; }
        cursor := mem[cursor + 8];
        i := i + 1;
      }
      if i < |free| { AtBlock(mem, head, free, live, i); }
      r := false;
    }

    /** The size in the header before `ptr` is one that an allocation of this layout can have. */
    predicate Claims(ptr: nat, layout: Layout)
      requires ptr >= 16 && ptr - 16 in mem
      reads this
    {
      HEADER + layout.size <= mem[ptr - 16] <= PaddingMax(layout) + HEADER + layout.size
    }

    /** `dealloc` of null or of any pointer behind two words of the heap: false if an assertion fails. */
    method Dealloc(ptr: nat, layout: Layout) returns (ok: bool)
      requires Valid() && (ptr != 0 ==> ptr >= 16 && ptr - 16 in mem && ptr - 8 in mem)
      modifies this`mem, this`head, this`free, this`live
      ensures ptr == 0 ==> ok
      ensures ptr != 0 ==> (ok <==> old(Claims(ptr, layout)) && !old(InFree(mem[ptr - 8])))
      ensures ptr == 0 || !ok ==>
                Valid() && mem == old(mem) && head == old(head) && free == old(free) && live == old(live)
      ensures ptr in old(live) && old(live)[ptr].layout == layout ==>
                var l := old(live)[ptr];
                && ok && Valid() && live == old(live) - {ptr} && free == [l.block] + old(free)
                && mem == old(mem)[l.block := l.Size()][l.block + 8 := old(head)] && Kept(old(mem), mem, live)
      ensures ok && ptr != 0 ==>
                var claimed, block := old(mem[ptr - 16]), old(mem[ptr - 8]);
                && mem == old(mem)[block := claimed][block + 8 := old(head)]
                && head == block && free == [block] + old(free) && live == old(live) - {ptr}
    {
      hide Inv, Room, FreeOk, Round, Pooled, InPages, SameSpans, Kept;
      if ptr in live { Header(mem, head, free, live, ptr); }
      if ptr == 0 { return true; }
      if !Claims(ptr, layout) { return false; }
      var claimed, block := mem[ptr - 16], mem[ptr - 8];
      var twice := IsFree(block);
      if twice { return false; }
      ghost var known := ptr in live && live[ptr].layout == layout;
      ghost var l := if known then live[ptr] else Live(0, 0, layout);
      if known {
        DropInv(mem, head, free, live, ptr);
        PooledDrop(mem, free, live, pages, ptr);
      }
      live := live - {ptr};
      if known {
        FootprintWords(l);
        PushInv(mem, head, free, live, block, claimed);
        KeptHeader(mem, free, live, l.Footprint(), block, claimed, head);
        PooledPush(mem, mem[block := claimed][block + 8 := head], free, live, pages, block);
      }
      mem := mem[block := claimed];
      PushFreeBlock(block);
      ok := true;
    }

    /** A client writes a word of its data, including the rest of its last word. */
    method ClientWrite(ptr: nat, a: nat, v: nat)
      requires Valid() && ptr in live && ptr <= a < live[ptr].block + Round(live[ptr].Size())
      modifies this`mem
      ensures Valid() && mem == old(mem)[a := v]
    {
      hide Inv, InPages, Free;
      ClientWriteInv(mem, head, free, live, ptr, a, v);
      mem := mem[a := v];
    }
  }

  /** Rounding respects the order, and whole words taken off the front. */
  lemma RoundPart(total: nat, used: nat)
    requires used <= total
    ensures Round(used) <= Round(total)
    ensures Round(used) <= total ==> Round(used) + Round(total - Round(used)) == Round(total)
  {}

  lemma RestWords(actual: nat, total: nat, block: nat)
    requires total > actual + HEADER && block % 8 == 0
    ensures Round(actual) <= total && Round(total - Round(actual)) >= HEADER && (block + Round(actual)) % 8 == 0
  {}

  lemma PagesAreWords(block: nat, page: nat, count: nat)
    requires page in {0x1000, 0x4000} && block % page == 0
    ensures block % 8 == 0
  {}

  lemma WholePages(count: nat, page: nat)
    requires page in {0x1000, 0x4000}
    ensures Round(count * page) == count * page
  {}

  /** The bytes before the new free block stay unused. */
  lemma RoomBefore(mem: Words, head: nat, free: seq<nat>, live: map<nat, Live>, b: nat, size: nat, s: Span)
    requires Inv(mem, head, free, live) && Room(mem, free, live, Span(b, Round(size))) && Round(size) >= HEADER
    requires Room(mem, free, live, s) && s.at + s.len <= b
    ensures Room(mem[b := size][b + 8 := head], [b] + free, live, s)
  {
    hide LiveOk, FreeOk, Round, Live.Footprint, Linked, FreeApart, LiveApart, BothApart;
    var m, f := mem[b := size][b + 8 := head], [b] + free;
    forall k | 0 <= k < |free| ensures Free(m, free[k]) == Free(mem, free[k]) {
      FreeWord(mem, free[k], Span(b, Round(size)), b, size);
      FreeWord(mem[b := size], free[k], Span(b, Round(size)), b + 8, head);
    }
    assert Free(m, b) == Span(b, Round(size));
    hide Free;
    forall k | 0 <= k < |f| ensures Apart(Free(m, f[k]), s) {
      if k > 0 { assert f[k] == free[k - 1]; }
    }
  }

  /** What `dealloc` reads for a live allocation; no free block contains its block. */
  lemma Header(mem: Words, head: nat, free: seq<nat>, live: map<nat, Live>, ptr: nat)
    requires Inv(mem, head, free, live) && ptr in live
    ensures ptr >= 16 && ptr - 16 in mem && ptr - 8 in mem
    ensures mem[ptr - 16] == live[ptr].Size() && mem[ptr - 8] == live[ptr].block
    ensures live[ptr].pad <= PaddingMax(live[ptr].layout) && live[ptr].block > 0 && live[ptr].block % 8 == 0
    ensures forall k :: 0 <= k < |free| ==> !(free[k] <= live[ptr].block < free[k] + SizeOf(mem, free[k]))
  {
    hide Linked, FreeApart, LiveApart, PaddingMax, Layout.Ok;
    assert LiveOk(mem, ptr, live[ptr]);
    forall k | 0 <= k < |free| ensures !(free[k] <= live[ptr].block < free[k] + SizeOf(mem, free[k])) {
      assert FreeOk(mem, free[k]) && Apart(Free(mem, free[k]), live[ptr].Footprint());
    }
  }

  lemma PooledDrop(mem: Words, free: seq<nat>, live: map<nat, Live>, pages: set<Span>, p: nat)
    requires Pooled(mem, free, live, pages) && p in live
    ensures Pooled(mem, free, live - {p}, pages) && InPages(live[p].Footprint(), pages)
  {
    hide Free, Live.Footprint, InPages;
  }

  lemma HeaderInside(l: Live)
    ensures InSpan(l.Footprint(), l.Data() - 16) && InSpan(l.Footprint(), l.Data() - 8) && l.Data() >= 16
  {}

  lemma FootprintWords(l: Live)
    ensures l.Footprint() == Span(l.block, Round(l.Size())) && Round(l.Size()) >= HEADER
  {}

  lemma HeadOf(mem: Words, head: nat, free: seq<nat>, live: map<nat, Live>)
    requires Inv(mem, head, free, live)
    ensures head == Next(free, 0)
  {}

  /** What the loop over the list reads. */
  lemma AtBlock(mem: Words, head: nat, free: seq<nat>, live: map<nat, Live>, i: nat)
    requires Inv(mem, head, free, live) && i < |free|
    ensures free[i] > 0 && free[i] % 8 == 0 && free[i] in mem && free[i] + 8 in mem && FreeOk(mem, free[i])
    ensures mem[free[i] + 8] == Next(free, i + 1)
    ensures i > 0 ==> FreeOk(mem, free[i - 1])
  {}
}
