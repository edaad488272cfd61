/** Whole runs of the heap, a block that does not suit its alignment, and blocks released twice. */
module HeapRuns {
  import opened Common
  import opened Bits
  import opened HeapLayout
  import opened HeapState
  import opened Heap

  /** A client's request; `given` is what the page allocator answers if it is asked. */
  datatype Request =
    | Allocate(layout: Layout, given: Option<nat>)
    | Release(ptr: nat)
    | Store(ptr: nat, at: nat, value: nat)

  /** What became of it; the client does not release or write what it does not hold. */
  datatype Answer = Got(outcome: Outcome) | Done | Skipped

  /** How a request of a client that holds `held` is answered, and the state after it. */
  ghost predicate Served(page: nat, ready: bool, q: Request, held: map<nat, Layout>, s: View, r: Answer, s': View)
    requires page > 0
  {
    match q
    case Allocate(layout, given) =>
      r.Got? && layout.align > 0 && Allocated(page, ready, s, layout, given, r.outcome, s')
    case Release(ptr) =>
      if ptr !in held then r == Skipped && s' == s
      else r == Done && ptr in s.live && s' == Released(s, ptr) && Kept(s.mem, s'.mem, s'.live)
    case Store(ptr, at, value) =>
      if !(ptr in held && ptr <= at < ptr + held[ptr].size) then r == Skipped && s' == s
      else r == Done && s' == s.(mem := s.mem[at := value])
  }

  /** The block of an allocation heads the list, with its size. */
  function Released(s: View, ptr: nat): View
    requires ptr in s.live
  {
    var l := s.live[ptr];
    View(s.mem[l.block := l.Size()][l.block + 8 := HeapState.Next(s.free, 0)], [l.block] + s.free,
         s.live - {ptr}, s.pages)
  }

  function Next(held: map<nat, Layout>, q: Request, r: Answer): map<nat, Layout> {
    match q
    case Allocate(layout, _) => if r.Got? && r.outcome.Pointer? then held[r.outcome.p := layout] else held
    case Release(ptr) => if r.Done? then held - {ptr} else held
    case Store(_, _, _) => held
  }

  /** What the client holds after these answers. */
  function HeldAfter(requests: seq<Request>, answers: seq<Answer>): map<nat, Layout>
    requires |requests| == |answers|
  {
    var n := |requests|;
    if n == 0 then map[] else Next(HeldAfter(requests[..n - 1], answers[..n - 1]), requests[n - 1], answers[n - 1])
  }

  /** The client holds the live allocations, with their layouts. */
  ghost predicate Holds(s: View, held: map<nat, Layout>) {
    held.Keys == s.live.Keys && forall p :: p in held ==> s.live[p].layout == held[p]
  }

  /** One request. */
  method Serve(heap: Allocator, held: map<nat, Layout>, q: Request) returns (r: Answer)
    requires heap.Valid() && Holds(heap.Look(), held)
    requires q.Allocate? ==> q.layout.Ok() && heap.GivenOk(q.given, q.layout)
    modifies heap
    ensures heap.page >= 16 && heap.ready == old(heap.ready)
    ensures Served(heap.page, heap.ready, q, held, old(heap.Look()), r, heap.Look())
    ensures heap.Valid() && Holds(heap.Look(), Next(held, q, r))
    ensures heap.pages == old(heap.pages)
            || (q.Allocate? && q.given.Some?
                && heap.pages == old(heap.pages) + {heap.PagesFor(q.given.value, q.layout)})
  {
    hide Inv, Pooled, Layout.Ok, PageCount, Required, Apart, FirstFit, Allocated, Allocator.InFree, Total, Kept;
    match q {
      case Allocate(layout, given) =>
        var got := heap.Alloc(layout, given);
        r := Got(got);
        AllocatedHeld(heap.page, heap.ready, old(heap.Look()), layout, given, got, heap.Look());
      case Release(ptr) =>
        if ptr !in held { return Skipped; }
        HeldPointer(heap, ptr);
        HeadOf(heap.mem, heap.head, heap.free, heap.live);
        var ok := heap.Dealloc(ptr, held[ptr]);
        r := Done;
      case Store(ptr, at, value) =>
        if !(ptr in held && ptr <= at < ptr + held[ptr].size) { return Skipped; }
        HeldPointer(heap, ptr);
        heap.ClientWrite(ptr, at, value);
        r := Done;
    }
  }

  lemma AllocatedHeld(page: nat, ready: bool, s: View, layout: Layout, given: Option<nat>, r: Outcome, s': View)
    requires page > 0 && layout.align > 0 && Allocated(page, ready, s, layout, given, r, s')
    ensures !r.Pointer? ==> s'.live == s.live && s'.pages == s.pages
    ensures r.Pointer? ==>
              && r.p !in s.live && r.p in s'.live && s'.live == s.live[r.p := s'.live[r.p]]
              && s'.live[r.p].layout == layout
              && var count := PageCount(Required(layout), page);
                 s'.pages == s.pages || (given.Some? && s'.pages == s.pages + {Span(given.value, count * page)})
    ensures r == Panic && page >= 16 ==> layout.align > 16
    ensures Kept(s.mem, s'.mem, s.live)
  {
    hide FirstFit, Round, Without, Kept, Redirected, PageCount;
  }

  lemma HeldPointer(heap: Allocator, ptr: nat)
    requires heap.Valid() && ptr in heap.live
    ensures ptr >= 16 && ptr - 16 in heap.mem && ptr - 8 in heap.mem
    ensures ptr + heap.live[ptr].layout.size == heap.live[ptr].block + heap.live[ptr].Size()
  {
    hide Linked, FreeApart, LiveApart, BothApart, Pooled;
    assert LiveOk(heap.mem, ptr, heap.live[ptr]);
  }

  /** Every answer is the one the state demands. */
  ghost predicate Reported(page: nat, ready: bool, requests: seq<Request>, answers: seq<Answer>, views: seq<View>)
    requires page > 0 && |answers| <= |requests| && |views| == |answers| + 1
  {
    forall i :: 0 <= i < |answers| ==>
      Served(page, ready, requests[i], HeldAfter(requests[..i], answers[..i]), views[i], answers[i], views[i + 1])
  }

  lemma ReportedSnoc(page: nat, ready: bool, requests: seq<Request>, answers: seq<Answer>, views: seq<View>, r: Answer,
                     s: View)
    requires page > 0 && |answers| < |requests| && |views| == |answers| + 1
    requires Reported(page, ready, requests, answers, views)
    requires var n := |answers|; Served(page, ready, requests[n], HeldAfter(requests[..n], answers), views[n], r, s)
    ensures Reported(page, ready, requests, answers + [r], views + [s])
  {
    hide Served, HeldAfter;
    var n, all, after := |answers|, answers + [r], views + [s];
    forall i | 0 <= i < |all|
      ensures Served(page, ready, requests[i], HeldAfter(requests[..i], all[..i]), after[i], all[i], after[i + 1])
    {
      assert all[..i] == answers[..i];
      if i == n { assert answers[..n] == answers; }
    }
  }

  lemma HeldSnoc(requests: seq<Request>, answers: seq<Answer>, r: Answer)
    requires |answers| < |requests|
    ensures var n := |answers|;
            HeldAfter(requests[..n + 1], answers + [r]) == Next(HeldAfter(requests[..n], answers), requests[n], r)
  {
    hide Next;
    var n := |answers|;
    assert requests[..n + 1][..n] == requests[..n] && (answers + [r])[..n] == answers;
  }

  // ---------------------------------------------------------------- what was stored stays

  /** The request writes word `a`, or releases the allocation it is in. */
  predicate Disturbs(q: Request, r: Answer, ptr: nat, a: nat) {
    r.Done? && ((q.Store? && q.at == a) || (q.Release? && q.ptr == ptr))
  }

  /** The word is in an allocation of the client. */
  ghost predicate Within(s: View, ptr: nat, l: Live, a: nat) {
    ptr in s.live && s.live[ptr] == l && InSpan(l.Footprint(), a) && a in s.mem
  }

  /** Every other request leaves the word alone. */
  lemma ServedKeeps(page: nat, ready: bool, q: Request, held: map<nat, Layout>, s: View, r: Answer, s': View,
                    ptr: nat, l: Live, a: nat)
    requires page > 0 && Served(page, ready, q, held, s, r, s') && Within(s, ptr, l, a) && !Disturbs(q, r, ptr, a)
    ensures Within(s', ptr, l, a) && s'.mem[a] == s.mem[a]
  {
    hide Allocated, InSpan, Live.Footprint;
    if q.Allocate? { AllocatedHeld(page, ready, s, q.layout, q.given, r.outcome, s'); }
  }

  /** A word of an allocation has its value as long as the client neither writes it nor gives up the allocation. */
  lemma {:induction false} WordLasts(page: nat, ready: bool, requests: seq<Request>, answers: seq<Answer>,
                                     views: seq<View>, i: nat, j: nat, ptr: nat, l: Live, a: nat)
    requires page > 0 && |answers| <= |requests| && |views| == |answers| + 1 && i <= j <= |answers|
    requires Reported(page, ready, requests, answers, views) && Within(views[i], ptr, l, a)
    requires forall k :: i <= k < j ==> !Disturbs(requests[k], answers[k], ptr, a)
    ensures Within(views[j], ptr, l, a) && views[j].mem[a] == views[i].mem[a]
    decreases j
  {
    hide Served, Within, Disturbs, HeldAfter;
    if i < j {
      WordLasts(page, ready, requests, answers, views, i, j - 1, ptr, l, a);
      ServedKeeps(page, ready, requests[j - 1], HeldAfter(requests[..j - 1], answers[..j - 1]), views[j - 1],
                  answers[j - 1], views[j], ptr, l, a);
    }
  }

  /** In every state all blocks are in order, and the client holds what its answers gave it. */
  ghost predicate InOrder(requests: seq<Request>, answers: seq<Answer>, views: seq<View>)
    requires |answers| <= |requests| && |views| == |answers| + 1
  {
    forall i :: 0 <= i < |views| ==> views[i].Ok() && Holds(views[i], HeldAfter(requests[..i], answers[..i]))
  }

  lemma InOrderSnoc(requests: seq<Request>, answers: seq<Answer>, views: seq<View>, r: Answer, s: View)
    requires |answers| < |requests| && |views| == |answers| + 1 && InOrder(requests, answers, views)
    requires s.Ok() && Holds(s, HeldAfter(requests[..|answers| + 1], answers + [r]))
    ensures InOrder(requests, answers + [r], views + [s])
  {
    hide View.Ok, Holds, HeldAfter;
    var n, all, after := |answers|, answers + [r], views + [s];
    forall i | 0 <= i < |after| ensures after[i].Ok() && Holds(after[i], HeldAfter(requests[..i], all[..i])) {
      if i <= n { assert all[..i] == answers[..i] && after[i] == views[i]; } else { assert all[..i] == all; }
    }
  }

  /** Request `i` was a store, and none of those before the `j`-th disturbed it. */
  ghost predicate Standing(requests: seq<Request>, answers: seq<Answer>, i: nat, j: nat)
    requires i < j <= |answers| <= |requests|
  {
    && requests[i].Store? && answers[i].Done?
    && forall k :: i < k < j ==> !Disturbs(requests[k], answers[k], requests[i].ptr, requests[i].at)
  }

  /** Store `i` still has its value after the first `j` requests. */
  ghost predicate Remembered(requests: seq<Request>, answers: seq<Answer>, views: seq<View>, i: nat, j: nat)
    requires i < |answers| <= |requests| && j < |views| && requests[i].Store?
  {
    requests[i].at in views[j].mem && views[j].mem[requests[i].at] == requests[i].value
  }

  /** What a client stores in what it holds is there until it stores there again or releases the allocation. */
  ghost predicate Remembering(requests: seq<Request>, answers: seq<Answer>, views: seq<View>)
    requires |answers| <= |requests| && |views| == |answers| + 1
  {
    forall i, j :: 0 <= i < j <= |answers| && Standing(requests, answers, i, j) ==>
      Remembered(requests, answers, views, i, j)
  }

  lemma StoresLast(page: nat, ready: bool, requests: seq<Request>, answers: seq<Answer>, views: seq<View>)
    requires page > 0 && |answers| <= |requests| && |views| == |answers| + 1
    requires Reported(page, ready, requests, answers, views) && InOrder(requests, answers, views)
    ensures Remembering(requests, answers, views)
  {
    hide Reported, InOrder, Standing, Remembered;
    forall i, j | 0 <= i < j <= |answers| && Standing(requests, answers, i, j)
      ensures requests[i].Store? && Remembered(requests, answers, views, i, j)
    {
      StoreLasts(page, ready, requests, answers, views, i, j);
    }
  }

  lemma StoreLasts(page: nat, ready: bool, requests: seq<Request>, answers: seq<Answer>, views: seq<View>, i: nat,
                   j: nat)
    requires page > 0 && i < j <= |answers| <= |requests| && |views| == |answers| + 1
    requires Reported(page, ready, requests, answers, views) && InOrder(requests, answers, views)
    requires Standing(requests, answers, i, j)
    ensures requests[i].Store? && Remembered(requests, answers, views, i, j)
  {
    hide HeldAfter, Disturbs, Served, View.Ok, Holds;
    var q, held := requests[i], HeldAfter(requests[..i], answers[..i]);
    assert views[i].Ok() && Holds(views[i], held) && Served(page, ready, q, held, views[i], answers[i], views[i + 1]);
    StoredWithin(page, ready, q, held, views[i], answers[i], views[i + 1]);
    WordLasts(page, ready, requests, answers, views, i + 1, j, q.ptr, views[i].live[q.ptr], q.at);
  }

  lemma StoredWithin(page: nat, ready: bool, q: Request, held: map<nat, Layout>, s: View, r: Answer, s': View)
    requires page > 0 && q.Store? && r.Done? && Served(page, ready, q, held, s, r, s') && s.Ok() && Holds(s, held)
    ensures q.ptr in s.live && Within(s', q.ptr, s.live[q.ptr], q.at) && s'.mem[q.at] == q.value
  {
    hide Linked, FreeApart, LiveApart, BothApart, Pooled, FreeOk;
    assert LiveOk(s.mem, q.ptr, s.live[q.ptr]);
  }

  /** The pages that may be given for a request. */
  ghost predicate Gives(page: nat, r: Request, s: Span)
    requires page > 0
  {
    r.Allocate? && r.given.Some? && s == Span(r.given.value, PageCount(Required(r.layout), page) * page)
  }

  /** The page allocator gives whole pages, and none twice. */
  ghost predicate GivesOk(page: nat, requests: seq<Request>)
    requires page > 0
  {
    && (forall i :: 0 <= i < |requests| && requests[i].Allocate? ==>
          && requests[i].layout.Ok()
          && (requests[i].given.Some? ==> requests[i].given.value > 0 && requests[i].given.value % page == 0))
    && forall i, j, s, t ::
         0 <= i < j < |requests| && Gives(page, requests[i], s) && Gives(page, requests[j], t) ==> Apart(s, t)
  }

  ghost predicate GivenBefore(page: nat, requests: seq<Request>, n: nat, pages: set<Span>)
    requires page > 0 && n <= |requests|
  {
    forall q :: q in pages ==> exists k :: 0 <= k < n && Gives(page, requests[k], q)
  }

  lemma GivenNext(heap: Allocator, requests: seq<Request>, n: nat)
    requires heap.page > 0 && n < |requests| && GivesOk(heap.page, requests)
    requires GivenBefore(heap.page, requests, n, heap.pages)
    ensures requests[n].Allocate? ==> requests[n].layout.Ok() && heap.GivenOk(requests[n].given, requests[n].layout)
    ensures requests[n].Allocate? && requests[n].given.Some? ==>
              Gives(heap.page, requests[n], heap.PagesFor(requests[n].given.value, requests[n].layout))
  {
    hide Layout.Ok, PageCount, Required, Apart;
    if requests[n].Allocate? && requests[n].given.Some? {
      var t := heap.PagesFor(requests[n].given.value, requests[n].layout);
      assert Gives(heap.page, requests[n], t);
      forall q | q in heap.pages ensures Apart(q, t) {
        var k :| 0 <= k < n && Gives(heap.page, requests[k], q);
      }
    }
  }

  lemma GivenGrows(page: nat, requests: seq<Request>, n: nat, pages: set<Span>, pages': set<Span>)
    requires page > 0 && n < |requests| && GivenBefore(page, requests, n, pages)
    requires forall q :: q in pages' ==> q in pages || Gives(page, requests[n], q)
    ensures GivenBefore(page, requests, n + 1, pages')
  {
    hide Gives;
    forall q | q in pages' ensures exists k :: 0 <= k < n + 1 && Gives(page, requests[k], q) {
      if q in pages { var k :| 0 <= k < n && Gives(page, requests[k], q); }
    }
  }

  /**
   Over every sequence of requests, by a client that releases and writes only what it holds, and with a page
   allocator that gives no page twice, all blocks stay apart and inside the pages, no release fails an assertion, and
   what is stored stays. The run stops early only if an allocation panics.
   */
  method Run(heap: Allocator, requests: seq<Request>)
    returns (answers: seq<Answer>, held: map<nat, Layout>, ghost views: seq<View>)
    requires heap.Valid() && heap.live == map[] && heap.pages == {}
    requires heap.page > 0 && GivesOk(heap.page, requests)
    modifies heap
    ensures heap.Valid() && heap.page > 0 && |answers| <= |requests| && |views| == |answers| + 1
    ensures views[0] == old(heap.Look()) && views[|answers|] == heap.Look() && heap.ready == old(heap.ready)
    ensures Reported(heap.page, heap.ready, requests, answers, views) && InOrder(requests, answers, views)
    ensures Remembering(requests, answers, views)
    ensures held == HeldAfter(requests[..|answers|], answers)
    ensures forall i :: 0 <= i < |answers| - 1 ==> answers[i] != Got(Panic)
    ensures |answers| < |requests| ==> answers != [] && answers[|answers| - 1] == Got(Panic)
    ensures forall i :: 0 <= i < |answers| && answers[i] == Got(Panic) ==>
              requests[i].Allocate? && requests[i].layout.align > 16
  {
    hide Allocator.Valid, Allocator.GivenOk, GivesOk, GivenBefore, Reported, Served, Next, HeldAfter, Gives, Layout.Ok,
         InOrder, Remembering, View.Ok;
    answers, held, views := [], map[], [heap.Look()];
    RunStarts(heap, requests, views);
    var panicked := false;
    while |answers| < |requests| && !panicked
      invariant heap.ready == old(heap.ready) && |answers| <= |requests|
      invariant |views| == |answers| + 1 && views[0] == old(heap.Look()) && views[|answers|] == heap.Look()
      invariant Reported(heap.page, heap.ready, requests, answers, views) && InOrder(requests, answers, views)
      invariant heap.Valid() && Holds(heap.Look(), held) && held == HeldAfter(requests[..|answers|], answers)
      invariant GivenBefore(heap.page, requests, |answers|, heap.pages)
      invariant panicked ==> answers != [] && answers[|answers| - 1] == Got(Panic)
      invariant forall k :: 0 <= k < |answers| - (if panicked then 1 else 0) ==> answers[k] != Got(Panic)
      invariant forall k :: 0 <= k < |answers| && answers[k] == Got(Panic) ==>
                  requests[k].Allocate? && requests[k].layout.align > 16
      decreases |requests| - |answers|
    {
      ghost var i := |answers|;
      GivenNext(heap, requests, i);
      ghost var pages := heap.pages;
      var r := Serve(heap, held, requests[|answers|]);
      ReportedSnoc(heap.page, heap.ready, requests, answers, views, r, heap.Look());
      HeldSnoc(requests, answers, r);
      GivenGrows(heap.page, requests, i, pages, heap.pages);
      held := Next(held, requests[|answers|], r);
      LookOk(heap);
      InOrderSnoc(requests, answers, views, r, heap.Look());
      panicked := r == Got(Panic);
      if panicked {
        PanicsLarge(heap.page, heap.ready, requests[i], HeldAfter(requests[..i], answers), views[i], r, heap.Look());
      }
      answers, views := answers + [r], views + [heap.Look()];
    }
    StoresLast(heap.page, heap.ready, requests, answers, views);
  }

  lemma LookOk(heap: Allocator)
    requires heap.Valid()
    ensures heap.Look().Ok()
  {
    hide Pooled;
  }

  lemma RunStarts(heap: Allocator, requests: seq<Request>, views: seq<View>)
    requires heap.Valid() && heap.live == map[] && views == [heap.Look()]
    ensures Reported(heap.page, heap.ready, requests, [], views) && HeldAfter(requests[..0], []) == map[]
    ensures InOrder(requests, [], views) && GivenBefore(heap.page, requests, 0, {})
  {
    hide View.Ok;
    LookOk(heap);
  }

  lemma PanicsLarge(page: nat, ready: bool, q: Request, held: map<nat, Layout>, s: View, r: Answer, s': View)
    requires page >= 16 && Served(page, ready, q, held, s, r, s') && r == Got(Panic)
    ensures q.Allocate? && q.layout.align > 16
  {
    hide Allocated;
    if q.Allocate? { AllocatedHeld(page, ready, s, q.layout, q.given, r.outcome, s'); }
  }

  // ---------------------------------------------------------------- a block that does not suit

  /** After an allocation of eight bytes, one that is aligned to 32 panics. */
  method SmallThenAligned(heap: Allocator, small: Layout, large: Layout, at: nat) returns (r: Outcome, r': Outcome)
    requires heap.Valid() && heap.page == 0x1000 && heap.ready && heap.free == [] && heap.live == map[]
             && heap.pages == {}
    requires small == Layout(8, 8) && large == Layout(8, 32) && at > 0 && at % 0x1000 == 0
    modifies heap
    ensures r == Pointer(at + 16) && r' == Panic
  {
    hide Inv, Pooled, Layout.Ok, PageCount, FirstFit, Allocated, Total;
    ghost var s := heap.Look();
    SmallLayouts(small, large);
    r := heap.Alloc(small, Some(at));
    AllocatedSmall(heap.page, s, small, at, r, heap.Look());
    s := heap.Look();
    r' := heap.Alloc(large, None);
    AllocatedLarge(heap.page, s, large, at, r', heap.Look());
  }

  lemma SmallLayouts(small: Layout, large: Layout)
    requires small == Layout(8, 8) && large == Layout(8, 32)
    ensures small.Ok() && large.Ok() && Required(small) == 24 && Required(large) == 40
  {
    SmallPowers();
    assert small.align == Pow2(3);
    assert Pow2(5) == 32 && large.align == Pow2(5);
  }

  lemma AllocatedSmall(page: nat, s: View, layout: Layout, at: nat, r: Outcome, s': View)
    requires page == 0x1000 && s.free == [] && s.live == map[] && layout == Layout(8, 8) && at % 0x1000 == 0
    requires Allocated(page, true, s, layout, Some(at), r, s')
    ensures r == Pointer(at + 16) && s'.free == [at + 24] && SizeOf(s'.mem, at + 24) == 0x4000 - 24
  {
    hide Kept, Taken, PageCount, FirstFit;
    assert PageCount(24, page) == 4 by { FourPages(page); }
    assert |s.free| == 0;
  }

  lemma FourPages(page: nat)
    requires page == 0x1000
    ensures PageCount(24, page) == 4
  {}

  lemma AllocatedLarge(page: nat, s: View, layout: Layout, at: nat, r: Outcome, s': View)
    requires page == 0x1000 && s.free == [at + 24] && SizeOf(s.mem, at + 24) == 0x4000 - 24 && at % 0x1000 == 0
    requires layout == Layout(8, 32) && Allocated(page, true, s, layout, None, r, s')
    ensures r == Panic
  {
    hide Kept, Taken, Cut, PageCount;
    assert FirstFit(s.mem, s.free, 40, 0) == 0;
    assert (at + 24) % 32 == 24;
  }

  // ---------------------------------------------------------------- releasing twice

  /**
   Releasing an allocation once more right away fails an assertion, unless its header had no padding before it and
   the list was empty: then the link of the free block, which is null, is taken for the block.
   */
  method ReleaseTwice(heap: Allocator, ptr: nat, layout: Layout) returns (ok: bool, again: bool)
    requires heap.Valid() && ptr in heap.live && heap.live[ptr].layout == layout
    modifies heap
    ensures ok && (again <==> old(heap.live[ptr].pad) == 0 && old(heap.free) == [])
  {
    hide Inv, Pooled, Round, Allocator.InFree, Allocator.Claims;
    ghost var m, h, f, l := heap.mem, heap.head, heap.free, heap.live[ptr];
    LiveHeader(heap, ptr);
    ok := heap.Dealloc(ptr, layout);
    Again(heap, m, h, f, l, ptr);
    again := heap.Dealloc(ptr, layout);
  }

  lemma LiveHeader(heap: Allocator, ptr: nat)
    requires heap.Valid() && ptr in heap.live
    ensures var l := heap.live[ptr];
            && ptr >= 16 && ptr - 16 in heap.mem && ptr - 8 in heap.mem && ptr == l.Data() && l.pad % 8 == 0
            && heap.mem[ptr - 16] == l.Size() && heap.mem[ptr - 8] == l.block
            && l.pad <= PaddingMax(l.layout) && l.block > 0
            && heap.head == HeapState.Next(heap.free, 0)
            && (heap.free != [] ==>
                  SizeOf(heap.mem, heap.free[0]) > 0 && heap.free[0] != l.block && heap.free[0] != l.block + 8)
  {
    hide FreeApart, LiveApart, Pooled;
    assert LiveOk(heap.mem, ptr, heap.live[ptr]);
    if heap.free != [] {
      assert FreeOk(heap.mem, heap.free[0]);
      assert Apart(Free(heap.mem, heap.free[0]), heap.live[ptr].Footprint());
    }
  }

  /** What the second call reads. */
  lemma Again(heap: Allocator, m: Words, h: nat, f: seq<nat>, l: Live, ptr: nat)
    requires ptr == l.Data() && l.pad % 8 == 0 && l.pad <= PaddingMax(l.layout) && l.block > 0
    requires ptr - 16 in m && ptr - 8 in m && m[ptr - 16] == l.Size() && m[ptr - 8] == l.block
             && h == HeapState.Next(f, 0)
    requires f != [] ==> SizeOf(m, f[0]) > 0 && f[0] != l.block && f[0] != l.block + 8
    requires heap.mem == m[l.block := l.Size()][l.block + 8 := h] && heap.free == [l.block] + f
    ensures ptr >= 16 && ptr - 16 in heap.mem && ptr - 8 in heap.mem
    ensures heap.Claims(ptr, l.layout) && !heap.InFree(heap.mem[ptr - 8]) <==> l.pad == 0 && f == []
  {
    hide PaddingMax;
    assert heap.free[0] == l.block && SizeOf(heap.mem, l.block) == l.Size();
    if l.pad == 0 && f != [] {
      assert heap.free[1] == f[0] && SizeOf(heap.mem, f[0]) > 0;
    }
  }
}
