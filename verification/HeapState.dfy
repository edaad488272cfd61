/** The heap's memory: free blocks linked through their own words, allocated blocks with their header. */
module HeapState {
  import opened HeapLayout

  /** Eight-byte words by address. */
  type Words = map<nat, nat>

  /** `len` bytes from `at` on. */
  datatype Span = Span(at: nat, len: nat)

  predicate Apart(s: Span, t: Span) { s.at + s.len <= t.at || t.at + t.len <= s.at }

  /** An allocation: its block, the padding before its header, and what was asked for. */
  datatype Live = Live(block: nat, pad: nat, layout: Layout) {
    function Size(): nat { HEADER + pad + layout.size }
    function Data(): nat { block + pad + HEADER }
    function Footprint(): Span { Span(block, Round(Size())) }
  }

  /** The bytes of a free block, whose size is in its first word. */
  function Free(mem: Words, b: nat): Span { Span(b, if b in mem then Round(mem[b]) else 0) }

  ghost predicate FreeOk(mem: Words, b: nat) {
    b > 0 && b % 8 == 0 && b in mem && b + 8 in mem && Round(mem[b]) >= HEADER
  }

  ghost predicate LiveOk(mem: Words, p: nat, l: Live) {
    && p == l.Data() && l.block > 0 && l.block % 8 == 0 && l.pad % 8 == 0
    && l.layout.Ok() && l.layout.align > 0 && l.pad <= PaddingMax(l.layout) && p % l.layout.align == 0
    && p - 16 in mem && p - 8 in mem && mem[p - 16] == l.Size() && mem[p - 8] == l.block
  }

  /** The block after the first `i`, or null. */
  function Next(free: seq<nat>, i: nat): nat { if i < |free| then free[i] else 0 }

  ghost predicate Linked(mem: Words, head: nat, free: seq<nat>) {
    && head == Next(free, 0)
    && forall i :: 0 <= i < |free| ==> free[i] + 8 in mem && mem[free[i] + 8] == Next(free, i + 1)
  }

  ghost predicate FreeApart(mem: Words, free: seq<nat>) {
    forall i, j :: 0 <= i < j < |free| ==> Apart(Free(mem, free[i]), Free(mem, free[j]))
  }

  ghost predicate LiveApart(live: map<nat, Live>) {
    forall p, q :: p in live && q in live && p != q ==> Apart(live[p].Footprint(), live[q].Footprint())
  }

  ghost predicate BothApart(mem: Words, free: seq<nat>, live: map<nat, Live>) {
    forall i, p :: 0 <= i < |free| && p in live ==> Apart(Free(mem, free[i]), live[p].Footprint())
  }

  /** The free list is intact, every allocation has its header, and no two blocks share a byte. */
  ghost predicate Inv(mem: Words, head: nat, free: seq<nat>, live: map<nat, Live>) {
    && (forall i :: 0 <= i < |free| ==> FreeOk(mem, free[i])) && (forall p :: p in live ==> LiveOk(mem, p, live[p]))
    && Linked(mem, head, free) && FreeApart(mem, free) && LiveApart(live) && BothApart(mem, free, live)
  }

  /** The bytes of `s` belong to no block. */
  ghost predicate Room(mem: Words, free: seq<nat>, live: map<nat, Live>, s: Span) {
    && (forall i :: 0 <= i < |free| ==> Apart(Free(mem, free[i]), s))
    && (forall p :: p in live ==> Apart(live[p].Footprint(), s))
  }

  lemma RoomPart(mem: Words, free: seq<nat>, live: map<nat, Live>, s: Span, t: Span)
    requires Room(mem, free, live, s) && s.at <= t.at && t.at + t.len <= s.at + s.len
    ensures Room(mem, free, live, t)
  {
    hide Free, Live.Footprint;
  }

  /** A word of a block that belongs to someone. */
  lemma FreeWord(mem: Words, b: nat, s: Span, a: nat, v: nat)
    requires FreeOk(mem, b) && Apart(Free(mem, b), s) && s.at <= a < s.at + s.len
    ensures a != b && a != b + 8 && FreeOk(mem[a := v], b) && Free(mem[a := v], b) == Free(mem, b)
  {}

  lemma LiveWord(mem: Words, p: nat, l: Live, s: Span, a: nat, v: nat)
    requires LiveOk(mem, p, l) && Apart(l.Footprint(), s) && s.at <= a < s.at + s.len
    ensures LiveOk(mem[a := v], p, l)
  {
    assert p - 16 >= l.block && p <= l.block + l.Footprint().len;
  }

  /** The free blocks keep their extent. */
  ghost predicate SameSpans(mem: Words, m: Words, free: seq<nat>) {
    forall i :: 0 <= i < |free| ==> Free(m, free[i]) == Free(mem, free[i])
  }

  /** Writing where nobody is disturbs nobody. */
  lemma WriteRoom(mem: Words, head: nat, free: seq<nat>, live: map<nat, Live>, s: Span, a: nat, v: nat)
    requires Inv(mem, head, free, live) && Room(mem, free, live, s) && s.at <= a < s.at + s.len
    ensures Inv(mem[a := v], head, free, live) && Room(mem[a := v], free, live, s)
    ensures SameSpans(mem, mem[a := v], free)
  {
    hide FreeOk, LiveOk, Free, Live.Footprint, Apart;
    forall i | 0 <= i < |free|
      ensures FreeOk(mem[a := v], free[i]) && Free(mem[a := v], free[i]) == Free(mem, free[i]) && a != free[i] + 8
    {
      FreeWord(mem, free[i], s, a, v);
    }
    forall p | p in live ensures LiveOk(mem[a := v], p, live[p]) { LiveWord(mem, p, live[p], s, a, v); }
  }

  /** Every word of every allocation, header and data, is as before. */
  ghost predicate Kept(mem: Words, m: Words, live: map<nat, Live>) {
    forall p, a :: p in live && InSpan(live[p].Footprint(), a) && a in mem ==> a in m && m[a] == mem[a]
  }

  predicate InSpan(s: Span, a: nat) { s.at <= a < s.at + s.len }

  lemma KeptSelf(mem: Words, live: map<nat, Live>)
    ensures Kept(mem, mem, live)
  {}

  lemma KeptTrans(mem: Words, m: Words, m': Words, live: map<nat, Live>)
    requires Kept(mem, m, live) && Kept(m, m', live)
    ensures Kept(mem, m', live)
  {
    hide InSpan, Live.Footprint;
  }

  /** Both header words of unused bytes may change. */
  lemma KeptHeader(mem: Words, free: seq<nat>, live: map<nat, Live>, s: Span, a: nat, v: nat, w: nat)
    requires Room(mem, free, live, s) && InSpan(s, a) && InSpan(s, a + 8)
    ensures Kept(mem, mem[a := v][a + 8 := w], live)
  {
    hide Live.Footprint, Free;
    forall p, b | p in live && InSpan(live[p].Footprint(), b) && b in mem ensures mem[a := v][a + 8 := w][b] == mem[b] {
      assert Apart(live[p].Footprint(), s);
    }
  }

  /** `push_free_block` on a block with its size in place. */
  lemma PushInv(mem: Words, head: nat, free: seq<nat>, live: map<nat, Live>, b: nat, size: nat)
    requires Inv(mem, head, free, live) && b > 0 && b % 8 == 0 && Round(size) >= HEADER
    requires Room(mem, free, live, Span(b, Round(size)))
    ensures var m := mem[b := size][b + 8 := head];
            Inv(m, b, [b] + free, live) && SameSpans(mem, m, free) && Free(m, b) == Span(b, Round(size))
  {
    hide LiveOk, Room, Linked, FreeApart, LiveApart, BothApart, Round;
    var s := Span(b, Round(size));
    WriteRoom(mem, head, free, live, s, b, size);
    WriteRoom(mem[b := size], head, free, live, s, b + 8, head);
    var m := mem[b := size][b + 8 := head];
    assert Free(m, b) == s && FreeOk(m, b);
    hide Free, FreeOk;
    PushedLinks(m, head, free, b);
    PushedApart(m, free, live, b);
  }

  lemma PushedLinks(m: Words, head: nat, free: seq<nat>, b: nat)
    requires Linked(m, head, free) && b + 8 in m && m[b + 8] == head
    ensures Linked(m, b, [b] + free)
  {
    var f := [b] + free;
    forall i | 0 <= i < |f| ensures f[i] + 8 in m && m[f[i] + 8] == Next(f, i + 1) {
      if i > 0 { assert f[i] == free[i - 1] && Next(f, i + 1) == Next(free, i); }
    }
  }

  lemma PushedApart(m: Words, free: seq<nat>, live: map<nat, Live>, b: nat)
    requires FreeApart(m, free) && BothApart(m, free, live) && Room(m, free, live, Free(m, b)) && FreeOk(m, b)
    requires forall i :: 0 <= i < |free| ==> FreeOk(m, free[i])
    ensures FreeApart(m, [b] + free) && BothApart(m, [b] + free, live)
    ensures forall i :: 0 <= i < |[b] + free| ==> FreeOk(m, ([b] + free)[i])
  {
    hide Free, FreeOk, Live.Footprint, Apart;
    ApartSym(Free(m, b));
  }

  lemma ApartSym(s: Span)
    ensures forall t :: Apart(s, t) <==> Apart(t, s)
  {}

  /** A header written into unused bytes makes an allocation. */
  lemma LiveInv(mem: Words, head: nat, free: seq<nat>, live: map<nat, Live>, l: Live)
    requires Inv(mem, head, free, live) && Room(mem, free, live, l.Footprint())
    requires l.block > 0 && l.block % 8 == 0 && l.pad % 8 == 0 && l.layout.Ok() && l.layout.align > 0
    requires l.pad <= PaddingMax(l.layout) && l.Data() % l.layout.align == 0
    ensures var p := l.Data();
            var m := mem[p - 16 := l.Size()][p - 8 := l.block];
            p !in live && Inv(m, head, free, live[p := l]) && SameSpans(mem, m, free)
  {
    hide FreeOk, Free, Layout.Ok, PaddingMax, Live.Footprint, Apart;
    var s, p := l.Footprint(), l.Data();
    NewData(mem, free, live, l);
    WriteRoom(mem, head, free, live, s, p - 16, l.Size());
    WriteRoom(mem[p - 16 := l.Size()], head, free, live, s, p - 8, l.block);
    ApartSym(s);
    assert LiveOk(mem[p - 16 := l.Size()][p - 8 := l.block], p, l);
  }

  /** Unused bytes are no allocation's data, and hold the header. */
  lemma NewData(mem: Words, free: seq<nat>, live: map<nat, Live>, l: Live)
    requires forall p :: p in live ==> LiveOk(mem, p, live[p])
    requires Room(mem, free, live, l.Footprint())
    ensures l.Data() !in live
    ensures var s := l.Footprint(); s.at <= l.Data() - 16 && l.Data() <= s.at + s.len
  {
    var p := l.Data();
    assert p in live ==> LiveOk(mem, p, live[p]) && Apart(live[p].Footprint(), l.Footprint());
  }

  // ---------------------------------------------------------------- taking a block off the list

  function Without(free: seq<nat>, i: nat): seq<nat>
    requires i < |free|
  {
    free[..i] + free[i + 1..]
  }

  /** The memory after `next` of the block before the `i`-th was redirected. */
  function Redirected(mem: Words, free: seq<nat>, i: nat): Words
    requires i < |free|
  {
    if i == 0 then mem else mem[free[i - 1] + 8 := Next(free, i + 1)]
  }

  /** Only one link word has changed. */
  lemma RedirectedWords(mem: Words, head: nat, free: seq<nat>, live: map<nat, Live>, i: nat)
    requires Inv(mem, head, free, live) && i < |free|
    ensures var m := Redirected(mem, free, i);
            && (forall k :: 0 <= k < |free| ==> FreeOk(m, free[k]) && Free(m, free[k]) == Free(mem, free[k]))
            && (forall k :: 0 <= k < |free| && k != i - 1 ==> free[k] + 8 in m && m[free[k] + 8] == Next(free, k + 1))
            && (forall p :: p in live ==> LiveOk(m, p, live[p]))
  {
    hide FreeOk, LiveOk, Live.Footprint, Free, Apart;
    if i > 0 {
      var b, v := free[i - 1], Next(free, i + 1);
      ApartSym(Free(mem, b));
      forall k | 0 <= k < |free| && k != i - 1
        ensures FreeOk(mem[b + 8 := v], free[k]) && Free(mem[b + 8 := v], free[k]) == Free(mem, free[k]) && free[k] != b
      {
        LinkInside(mem, b);
        FreeWord(mem, free[k], Free(mem, b), b + 8, v);
      }
      LinkInside(mem, b);
      forall p | p in live ensures LiveOk(mem[b + 8 := v], p, live[p]) {
        LiveWord(mem, p, live[p], Free(mem, b), b + 8, v);
      }
      LinkKeeps(mem, b, v);
    }
  }

  lemma LinkInside(mem: Words, b: nat)
    requires FreeOk(mem, b)
    ensures var s := Free(mem, b); s.at <= b + 8 < s.at + s.len
  {}

  lemma LinkKeeps(mem: Words, b: nat, v: nat)
    requires FreeOk(mem, b)
    ensures FreeOk(mem[b + 8 := v], b) && Free(mem[b + 8 := v], b) == Free(mem, b)
  {}

  /** `try_remove_fit` on the block it found. */
  lemma UnlinkInv(mem: Words, head: nat, free: seq<nat>, live: map<nat, Live>, i: nat)
    requires Inv(mem, head, free, live) && i < |free|
    ensures var m := Redirected(mem, free, i);
            && Inv(m, if i == 0 then Next(free, 1) else head, Without(free, i), live)
            && Room(m, Without(free, i), live, Free(mem, free[i])) && SameSpans(mem, m, free)
            && free[i] in m && m[free[i]] == mem[free[i]]
  {
    hide LiveOk, FreeOk, Free, Redirected, Without, Next, FreeApart, BothApart, Room;
    RedirectedWords(mem, head, free, live, i);
    SameSize(mem, free, i, head, live);
    RedirectedLink(mem, free, i);
    UnlinkedLinks(mem, Redirected(mem, free, i), head, free, i);
    UnlinkedApart(mem, Redirected(mem, free, i), free, live, i);
  }

  /** The link that is redirected is in a free block. */
  lemma KeptRedirected(mem: Words, head: nat, free: seq<nat>, live: map<nat, Live>, i: nat)
    requires Inv(mem, head, free, live) && i < |free|
    ensures Kept(mem, Redirected(mem, free, i), live)
  {
    hide LiveOk, Live.Footprint, Linked, FreeApart, LiveApart;
    if i > 0 {
      assert FreeOk(mem, free[i - 1]);
      forall p, b | p in live && InSpan(live[p].Footprint(), b) && b in mem
        ensures Redirected(mem, free, i)[b] == mem[b]
      {
        assert Apart(Free(mem, free[i - 1]), live[p].Footprint());
      }
    }
  }

  lemma RedirectedLink(mem: Words, free: seq<nat>, i: nat)
    requires i < |free|
    ensures i > 0 ==> var m := Redirected(mem, free, i);
                      free[i - 1] + 8 in m && m[free[i - 1] + 8] == Next(free, i + 1)
  {}

  lemma UnlinkedApart(mem: Words, m: Words, free: seq<nat>, live: map<nat, Live>, i: nat)
    requires i < |free| && FreeApart(mem, free) && BothApart(mem, free, live)
    requires forall k :: 0 <= k < |free| ==> FreeOk(m, free[k]) && Free(m, free[k]) == Free(mem, free[k])
    ensures var f := Without(free, i);
            && FreeApart(m, f) && BothApart(m, f, live) && Room(m, f, live, Free(mem, free[i]))
            && forall k :: 0 <= k < |f| ==> FreeOk(m, f[k])
  {
    hide FreeOk, Free, Live.Footprint, Apart;
    var f := Without(free, i);
    ApartSym(Free(mem, free[i]));
    assert forall k :: 0 <= k < |f| ==> f[k] == if k < i then free[k] else free[k + 1];
    hide Without;
  }

  lemma UnlinkedLinks(mem: Words, m: Words, head: nat, free: seq<nat>, i: nat)
    requires i < |free| && Linked(mem, head, free)
    requires forall k :: 0 <= k < |free| && k != i - 1 ==> free[k] + 8 in m && m[free[k] + 8] == Next(free, k + 1)
    requires i > 0 ==> free[i - 1] + 8 in m && m[free[i - 1] + 8] == Next(free, i + 1)
    ensures Linked(m, if i == 0 then Next(free, 1) else head, Without(free, i))
  {
    hide Without;
    var f := Without(free, i);
    NextWithout(free, i, 0);
    forall k | 0 <= k < |f| ensures f[k] + 8 in m && m[f[k] + 8] == Next(f, k + 1) {
      NextWithout(free, i, k);
      NextWithout(free, i, k + 1);
    }
  }

  /** The list goes on as before, but for the block taken out. */
  lemma NextWithout(free: seq<nat>, i: nat, k: nat)
    requires i < |free|
    ensures |Without(free, i)| == |free| - 1 && Next(Without(free, i), k) == Next(free, if k < i then k else k + 1)
  {}

  lemma SameSize(mem: Words, free: seq<nat>, i: nat, head: nat, live: map<nat, Live>)
    requires Inv(mem, head, free, live) && i < |free|
    ensures free[i] in mem && free[i] in Redirected(mem, free, i) && Redirected(mem, free, i)[free[i]] == mem[free[i]]
  {
    hide LiveOk, Live.Footprint, Round;
    assert FreeOk(mem, free[i]);
    if i > 0 {
      assert FreeOk(mem, free[i - 1]) && Apart(Free(mem, free[i - 1]), Free(mem, free[i]));
    }
  }

  /** Forgetting an allocation leaves its bytes unused. */
  lemma DropInv(mem: Words, head: nat, free: seq<nat>, live: map<nat, Live>, p: nat)
    requires Inv(mem, head, free, live) && p in live
    ensures Inv(mem, head, free, live - {p}) && Room(mem, free, live - {p}, live[p].Footprint())
  {
    hide FreeOk, LiveOk, Free, Live.Footprint, Apart;
    ApartSym(live[p].Footprint());
  }

  /** The owner of an allocation may write its data, up to the end of the last word. */
  lemma ClientWriteInv(mem: Words, head: nat, free: seq<nat>, live: map<nat, Live>, p: nat, a: nat, v: nat)
    requires Inv(mem, head, free, live) && p in live && p <= a < live[p].block + live[p].Footprint().len
    ensures Inv(mem[a := v], head, free, live) && SameSpans(mem, mem[a := v], free)
  {
    var rest := live - {p};
    DropInv(mem, head, free, live, p);
    WriteRoom(mem, head, free, rest, live[p].Footprint(), a, v);
    hide FreeOk, Free, Live.Footprint, Apart, Linked;
    forall q | q in live ensures LiveOk(mem[a := v], q, live[q]) {
      if q != p { assert rest[q] == live[q]; }
    }
    forall i, q | 0 <= i < |free| && q in live ensures Apart(Free(mem[a := v], free[i]), live[q].Footprint()) {
      if q != p { assert rest[q] == live[q]; }
    }
  }

  // ---------------------------------------------------------------- pages

  /** The bytes of `s` lie in one of these runs of pages. */
  ghost predicate InPages(s: Span, pages: set<Span>) {
    exists q :: q in pages && q.at <= s.at && s.at + s.len <= q.at + q.len
  }

  /** All blocks lie in the pages the page allocator has given. */
  ghost predicate Pooled(mem: Words, free: seq<nat>, live: map<nat, Live>, pages: set<Span>) {
    && (forall i :: 0 <= i < |free| ==> InPages(Free(mem, free[i]), pages))
    && (forall p :: p in live ==> InPages(live[p].Footprint(), pages))
  }

  lemma InPagesPart(s: Span, t: Span, pages: set<Span>)
    requires InPages(s, pages) && s.at <= t.at && t.at + t.len <= s.at + s.len
    ensures InPages(t, pages)
  {
    var q :| q in pages && q.at <= s.at && s.at + s.len <= q.at + q.len;
  }

  /** New pages hold no block. */
  lemma NewPages(mem: Words, free: seq<nat>, live: map<nat, Live>, pages: set<Span>, s: Span)
    requires Pooled(mem, free, live, pages) && forall q :: q in pages ==> Apart(q, s)
    ensures Room(mem, free, live, s) && Pooled(mem, free, live, pages + {s}) && InPages(s, pages + {s})
  {
    hide Free, Live.Footprint;
    forall t | InPages(t, pages) ensures Apart(t, s) && InPages(t, pages + {s}) {
      var q :| q in pages && q.at <= t.at && t.at + t.len <= q.at + q.len;
      assert q in pages + {s};
    }
  }

  lemma PooledWithout(mem: Words, m: Words, free: seq<nat>, live: map<nat, Live>, pages: set<Span>, i: nat)
    requires Pooled(mem, free, live, pages) && SameSpans(mem, m, free) && i < |free|
    ensures Pooled(m, Without(free, i), live, pages) && InPages(Free(mem, free[i]), pages)
  {
    hide Free, Live.Footprint, InPages;
    var f := Without(free, i);
    assert forall k :: 0 <= k < |f| ==> f[k] == if k < i then free[k] else free[k + 1];
  }

  lemma PooledPush(mem: Words, m: Words, free: seq<nat>, live: map<nat, Live>, pages: set<Span>, b: nat)
    requires Pooled(mem, free, live, pages) && SameSpans(mem, m, free) && InPages(Free(m, b), pages)
    ensures Pooled(m, [b] + free, live, pages)
  {
    hide Free, Live.Footprint, InPages;
  }

  lemma PooledLive(mem: Words, m: Words, free: seq<nat>, live: map<nat, Live>, pages: set<Span>, p: nat, l: Live)
    requires Pooled(mem, free, live, pages) && SameSpans(mem, m, free) && InPages(l.Footprint(), pages)
    ensures Pooled(m, free, live[p := l], pages)
  {
    hide Free, Live.Footprint, InPages;
  }
}
