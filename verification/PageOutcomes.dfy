/** What callers of `map` and `unmap` see: when `unmap` reports unmapped pages, and ranges that do not fit. */
module PageOutcomes {
  import opened Common
  import opened Arithmetic
  import opened PageEntry
  import opened PageTree
  import opened PageWalker
  import opened PageObstacles
  import opened PageRange
  import opened PageTables
  import opened PageTheorems

  // ---------------------------------------------------------------- what `unmap` reports

  /** The table that holds end-level entry `n` exists. */
  ghost predicate HasTable(s: Setting, n: nat) {
    TableAt(s.ps, s.m, s.root, EndLevel(s.size), PathTable(s.ps, s.size, EndLevel(s.size), n)).Some?
  }

  ghost predicate AllTables(s: Setting, b: nat, count: nat) { forall n :: b <= n < b + count ==> HasTable(s, n) }

  lemma UnmapStops(s: Setting, ns: seq<nat>, k: nat)
    requires Supported(s.ps, s.size) && s.op.Unmap? && k < |ns|
    ensures s.Stops({}, ns, k) <==> !HasTable(s, ns[k])
  {
    hide PathTable, TableAt, Setting.MissingTo, Setting.BlockedTo;
    if HasTable(s, ns[k]) { ReachedPath(s, EndLevel(s.size), ns[k]); }
    else { InMissing(s, EndLevel(s.size), EndLevel(s.size), ns[k]); }
  }

  /** A walk of `unmap` from block to block succeeds if and only if the table of each block exists. */
  lemma UnmapOk(s: Setting, plan: Plan, at: nat, b: nat, count: nat)
    requires Supported(s.ps, s.size) && s.op.Unmap? && plan == Plan(Consecutive(b, count), false, [])
    ensures s.Verdict(plan, at) == Ok <==> AllTables(s, b, count)
  {
    hide Skip, HasTable, Setting.Stops;
    var ns := Consecutive(b, count);
    assert ns + [] == ns;
    forall k | 0 <= k < |ns| ensures s.Stops({}, ns, k) <==> !HasTable(s, b + k) { UnmapStops(s, ns, k); }
    var i := s.FirstStop(ns, 0);
    if i < |ns| {
      assert !HasTable(s, b + i);
    } else {
      forall n | b <= n < b + count ensures HasTable(s, n) { assert !s.Stops({}, ns, n - b); }
    }
  }

  /** The lookup of an address goes on from the table that the numbers lead to. */
  lemma LookupAt(ps: PageSize, m: Memory, root: nat, v: nat, level: nat)
    requires v < ADDRESS_LIMIT && level <= 3 && TableAt(ps, m, root, level, TableNumber(ps, v, level)).Some?
    ensures var t := TableAt(ps, m, root, level, TableNumber(ps, v, level)).value;
            Lookup(ps, m, root, v) == Walk(ps, m, t, level, v)
  {
    hide TableAt, TableOf, TableNumber, Walk;
    TableOfAt(ps, m, root, v, level);
    WalkVia(ps, m, root, 0, v, level);
  }

  /** Page `n` has no translation. */
  ghost predicate Unmapped(s: Setting, n: nat) { Lookup(s.ps, s.m, s.root, Skip(s.ps, s.size, 0, n)) == None }

  ghost predicate SomeUnmapped(s: Setting, b: nat, count: nat) { exists n :: b <= n < b + count && Unmapped(s, n) }

  ghost predicate SomeEmpty(s: Setting, b: nat, count: nat) {
    exists n :: b <= n < b + count && EntryAt(s.ps, s.m, s.root, 3, n) == Some(Empty)
  }

  lemma PageNumbers(ps: PageSize, n: nat)
    requires Skip(ps, SinglePage, 0, n) < ADDRESS_LIMIT
    ensures var v := Skip(ps, SinglePage, 0, n);
            && EntryNumber(ps, v, 3) == n && TableNumber(ps, v, 3) == PathTable(ps, SinglePage, 3, n)
            && TableOfEntry(ps, 3, n) == PathTable(ps, SinglePage, 3, n)
               && IndexOfEntry(ps, 3, n) == IndexForLevel(ps, v, 3)
  {
    var v, w, e := Skip(ps, SinglePage, 0, n), EntryBytes(ps, 3), Entries(ps);
    assert v == w * n && Radix(ps, 3) == e;
    EntrySplits(ps, v, 3);
    hide EntryBytes, Entries, IndexForLevel;
    DivModUnique(v, w, n, 0);
    DivModUnique(n, e, TableNumber(ps, v, 3), IndexForLevel(ps, v, 3));
  }

  /** Where its table exists, a page is unmapped exactly if its entry is empty. */
  lemma UnmappedPage(s: Setting, places: map<nat, Place>, n: nat)
    requires s.size.SinglePage? && TreeOk(s.ps, s.m, places, s.root) && Skip(s.ps, s.size, 0, n) < ADDRESS_LIMIT
    requires HasTable(s, n)
    ensures Unmapped(s, n) <==> EntryAt(s.ps, s.m, s.root, 3, n) == Some(Empty)
  {
    hide Decode, PathTable, TableAt, EntryBytes, IndexForLevel, TableOfEntry, IndexOfEntry, Skip, TableNumber, TreeOk;
    var v, number := Skip(s.ps, s.size, 0, n), PathTable(s.ps, s.size, 3, n);
    PageNumbers(s.ps, n);
    TableAtPlace(s.ps, s.m, places, s.root, 3, number);
    LookupAt(s.ps, s.m, s.root, v, 3);
    var t := TableAt(s.ps, s.m, s.root, 3, number).value;
    LeafKinds(s.ps, s.m, places, s.root, t, IndexForLevel(s.ps, v, 3));
  }

  lemma LeafKinds(ps: PageSize, m: Memory, places: map<nat, Place>, root: nat, t: nat, i: nat)
    requires TreeOk(ps, m, places, root) && t in m && places[t].level == 3 && i < Entries(ps)
    ensures |m[t]| == Entries(ps) && (Decode(m[t][i], 3).Empty? || Decode(m[t][i], 3).Page?)
  {
    assert TableOk(ps, places, places[t], m[t]);
    assert EntryOk(ps, places, places[t], i, m[t][i]);
  }

  /** Among pages whose tables exist, one is unmapped exactly if one has an empty entry. */
  lemma UnmappedPages(s: Setting, places: map<nat, Place>, b: nat, count: nat)
    requires s.size.SinglePage? && TreeOk(s.ps, s.m, places, s.root) && AllTables(s, b, count)
    requires b + count <= Radix(s.ps, 0) * Cover(s.ps, s.size, 0)
    ensures SomeUnmapped(s, b, count) <==> SomeEmpty(s, b, count)
  {
    hide Skip, HasTable, Unmapped, EntryAt, TreeOk, Radix, Cover;
    PagesBelow(s.ps, s.size, b + count);
    forall n | b <= n < b + count ensures Unmapped(s, n) <==> EntryAt(s.ps, s.m, s.root, 3, n) == Some(Empty) {
      assert HasTable(s, n);
      UnmappedPage(s, places, n);
    }
    if SomeUnmapped(s, b, count) {
      var n :| b <= n < b + count && Unmapped(s, n);
      assert EntryAt(s.ps, s.m, s.root, 3, n) == Some(Empty);
    }
    if SomeEmpty(s, b, count) {
      var n :| b <= n < b + count && EntryAt(s.ps, s.m, s.root, 3, n) == Some(Empty);
      assert Unmapped(s, n);
    }
  }

  /** The number of the block at a pointer. */
  function BlockOf(ps: PageSize, size: MapBlockSize, v: nat): nat { v % ADDRESS_LIMIT / BlockBytes(ps, size) }

  /**
   `unmap` of pages. The documentation promises an error for a range with unmapped pages; the requests for which
   there is none are exactly those whose tables all exist, with an empty entry among theirs.
   */
  method UnmapPages(t: Tables, v: nat, count: nat) returns (r: Outcome)
    requires t.Valid() && v < WORD_LIMIT
    modifies t
    ensures Refusal(t.ps, t.highTag, SinglePage, v, 0, count).None? && Proper(t.ps, SinglePage, v, 0, count) ==>
              var s, b := old(t.Start(SinglePage, Operation.Unmap)), BlockOf(t.ps, SinglePage, v);
              && (r == Ok <==> AllTables(s, b, count))
              && (r == Ok && SomeUnmapped(s, b, count) <==> AllTables(s, b, count) && SomeEmpty(s, b, count))
  {
    hide TreeOk, PlanTable, Fits, BlockBytes, Skip, Cover, Tables.SupplyOk, Tables.Stepped, Tables.Did, Made,
         Setting.Verdict, Setting.FirstStop, AllTables, SomeUnmapped, SomeEmpty, IsHigh, Avail;
    ghost var s, b := t.Start(SinglePage, Operation.Unmap), BlockOf(t.ps, SinglePage, v);
    ghost var done, places, plan := 0, t.places, PlanTable(t.ps, SinglePage, 0, 0, v % ADDRESS_LIMIT, count);
    r, done := t.Unmap(v, count, SinglePage);
    if Refusal(t.ps, t.highTag, SinglePage, v, 0, count).None? && Proper(t.ps, SinglePage, v, 0, count) {
      LowBlock(t.ps, SinglePage, v);
      FitsInside(t.ps, SinglePage, b, count);
      FitsExactly(t.ps, SinglePage, b, count);
      UnmapOk(s, plan, v, b, count);
      if AllTables(s, b, count) {
        UnmappedPages(s, places, b, count);
      }
    }
  }

  lemma PagesBelow(ps: PageSize, size: MapBlockSize, end: nat)
    requires Supported(ps, size) && end <= Radix(ps, 0) * Cover(ps, size, 0)
    ensures forall n: nat :: n < end ==> Skip(ps, size, 0, n) < ADDRESS_LIMIT
  {
    assert Radix(ps, 0) * Cover(ps, size, 0) * BlockBytes(ps, size) == ADDRESS_LIMIT;
    hide Radix, Cover, BlockBytes;
    forall n: nat | n < end ensures Skip(ps, size, 0, n) < ADDRESS_LIMIT {
      MulBelow(n, Radix(ps, 0) * Cover(ps, size, 0), BlockBytes(ps, size));
    }
  }

  lemma MulBelow(a: nat, b: nat, w: nat)
    requires a < b && w > 0
    ensures a * w < b * w
  {
    MulSub(w, b, a);
    MulAtLeast(w, b - a);
  }

  // ---------------------------------------------------------------- requests on empty tables

  lemma {:induction false} EmptyTree(s: Setting, level: nat, number: nat)
    requires s.m == map[s.root := ZeroPage(s.ps)]
    ensures level > 0 ==> TableAt(s.ps, s.m, s.root, level, number).None?
    ensures !Leaf(EntryAt(s.ps, s.m, s.root, level, number))
    decreases level
  {
    hide TableOfEntry, IndexOfEntry;
    ZeroDecodes(level);
    if level > 0 {
      ZeroDecodes(level - 1);
      hide Decode;
      EmptyTree(s, level - 1, number);
      EmptyTree(s, level - 1, TableOfEntry(s.ps, level, number));
    }
  }

  lemma {:induction false} EmptyPath(s: Setting, level: nat, n: nat)
    requires s.m == map[s.root := ZeroPage(s.ps)]
    ensures !s.BlockedTo(level, n)
  {
    hide PathTable, EntryAt;
    if level > 0 {
      EmptyPath(s, level - 1, n);
      EmptyTree(s, level - 1, PathTable(s.ps, s.size, level, n));
    }
  }

  /** With enough pages, `map` on empty tables is stopped by nothing but its own assertions. */
  lemma MapEmpty(s: Setting, plan: Plan, at: nat)
    requires s.m == map[s.root := ZeroPage(s.ps)] && s.op.MapTo? && EndLevel(s.size) * |plan.Walks()| <= s.Pages()
    ensures s.Verdict(plan, at) == if plan.panics then Panic else Ok
  {
    hide Setting.MissingAll, Setting.BlockedTo, EndLevel;
    var ns := plan.Walks();
    forall k | 0 <= k < |ns| ensures !s.Stops({}, ns, k) {
      EmptyPath(s, EndLevel(s.size), ns[k]);
      FewTables(s, ns[..k + 1]);
      MulGrows(k + 1, |ns|, EndLevel(s.size));
      assert {} + s.MissingAll(ns[..k + 1]) == s.MissingAll(ns[..k + 1]);
    }
  }

  /** Mapping the two 4KiB pages on both sides of a 1GiB boundary into empty tables panics. */
  method MapCrossing(ps: PageSize, root: nat, supply: seq<Option<nat>>, vs: nat, properties: MemoryProperties)
    returns (r: Outcome)
    requires ps == FourKiB && root % PageBytes(ps) == 0 && 0 < root < ADDRESS_LIMIT
    requires Fresh(ps, supply, {root}) && Avail(supply) >= 3 && vs == 0x3fff_f000
    ensures r == Panic && Refusal(ps, false, SinglePage, vs, 0, 2) == None
  {
    hide Refusal, PlanTable, Setting.Verdict, Tables.Valid, Tables.Stepped, Tables.Did, Made, Lookup, Avail,
         Fresh;
    var t := new Tables(ps, root, supply);
    ghost var s := t.Start(SinglePage, MapTo(properties));
    ghost var done;
    r, done := t.Map(vs, 0, 2, SinglePage, properties);
    CrossingDoesNotFit(ps, SinglePage, vs);
    CrossingPanics(ps, SinglePage, vs);
    MapEmpty(s, PlanTable(ps, SinglePage, 0, 0, vs, 2), vs);
  }

  /** Two requests for single pages next to each other. */
  lemma PagePair(ps: PageSize, size: MapBlockSize, zero: nat, next: nat)
    requires ps == FourKiB && size == SinglePage && zero == 0 && next == 0x1000
    ensures Proper(ps, size, zero, zero, 1) && Proper(ps, size, next, zero, 1)
    ensures zero % BlockBytes(ps, size) == 0 && next % BlockBytes(ps, size) == 0
    ensures Refusal(ps, false, size, zero, zero, 1) == None == Refusal(ps, false, size, next, zero, 1)
    ensures BlockOf(ps, size, zero) == 0 && BlockOf(ps, size, next) == 1 && !Covers(ps, size, zero, 1, next)
    ensures next < WORD_LIMIT && !IsHigh(next)
  {
    assert Fits(ps, size, 0, 1) by { SmallFits(ps, size, 0, 1); }
    assert Fits(ps, size, 1, 1) by { SmallFits(ps, size, 1, 1); }
  }

  lemma SmallFits(ps: PageSize, size: MapBlockSize, b: nat, count: nat)
    requires ps == FourKiB && size == SinglePage && b <= 1 && count == 1
    ensures Fits(ps, size, b, count)
  {
    forall l | 0 <= l < 2 ensures EntryFits(ps, size, l, b, count) {}
  }

  lemma FirstPagePlan(ps: PageSize, size: MapBlockSize, zero: nat)
    requires ps == FourKiB && size == SinglePage && zero == 0
    ensures var plan := PlanTable(ps, size, 0, 0, zero % ADDRESS_LIMIT, 1); !plan.panics && plan.Walks() == [zero]
  {
    hide PlanTable, Fits, Skip, Cover, Radix;
    SmallFits(ps, size, zero, 1);
    FitsInside(ps, size, zero, 1);
    FitsExactly(ps, size, zero, 1);
    SkipNone(ps, size, 0);
  }

  lemma PathPair(ps: PageSize, zero: nat, one: nat)
    requires ps == FourKiB && zero == 0 && one == 1
    ensures PathTable(ps, SinglePage, 3, one) == PathTable(ps, SinglePage, 3, zero)
  {}

  /** `unmap` of a page that is not mapped succeeds if the page next to it is mapped. */
  method UnmapUnmapped(ps: PageSize, root: nat, supply: seq<Option<nat>>, zero: nat, next: nat,
                       properties: MemoryProperties)
    returns (r: Outcome, found: Option<nat>, r': Outcome)
    requires ps == FourKiB && root % PageBytes(ps) == 0 && 0 < root < ADDRESS_LIMIT
    requires Fresh(ps, supply, {root}) && Avail(supply) >= 3 && zero == 0 && next == 0x1000
    ensures r == Ok && found == None && r' == Ok
  {
    hide Refusal, PlanTable, Setting.Verdict, Tables.Valid, Tables.Stepped, Lookup, Avail, Fresh, Proper, IsHigh,
         BlockOf, BlockBytes, Covers, Grew, Setting.BlockedTo, PathTable, TableAt, HasTable;
    var t := new Tables(ps, root, supply);
    ghost var s, done := t.Start(SinglePage, MapTo(properties)), 0;
    ghost var plan := PlanTable(ps, SinglePage, 0, 0, zero % ADDRESS_LIMIT, 1);
    PagePair(ps, SinglePage, zero, next);
    r, done := t.Map(zero, zero, 1, SinglePage, properties);
    FirstPagePlan(ps, SinglePage, zero);
    MapEmpty(s, plan, zero);
    found := t.PhysicalAddressOf(next);
    ghost var s' := t.Start(SinglePage, Operation.Unmap);
    AfterMap(s, s', plan, zero, 1);
    r' := UnmapPages(t, next, 1);
  }

  lemma AfterMap(s: Setting, s': Setting, plan: Plan, zero: nat, one: nat)
    requires s.ps == s'.ps == FourKiB && s.size == s'.size == SinglePage && s.root == s'.root && zero == 0 && one == 1
    requires s.m == map[s.root := ZeroPage(s.ps)] && plan.Walks() == [zero] && Grew(s, s'.m, s.MissingAll(plan.Walks()))
    ensures HasTable(s', one)
  {
    hide Grew, TableAt, PathTable, Setting.MissingAll, Setting.MissingTo, Setting.BlockedTo;
    EmptyPath(s, 3, zero);
    MissingOne(s, zero);
    MadeReached(s, s'.m, s.MissingAll([zero]), 3, zero);
    PathPair(s.ps, zero, one);
  }

  /** Of 4097 small blocks of 16KiB pages, mapped into empty tables from address 0 on, the last is found elsewhere. */
  method MapLongRange(ps: PageSize, root: nat, supply: seq<Option<nat>>, zero: nat, last: nat, stray: nat,
                      properties: MemoryProperties)
    returns (r: Outcome, here: Option<nat>, there: Option<nat>)
    requires ps == SixteenKiB && root % PageBytes(ps) == 0 && 0 < root < ADDRESS_LIMIT && Fresh(ps, supply, {root})
    requires Avail(supply) >= 2 * 4097 && zero == 0 && last == Skip(ps, SmallBlock, zero, 4096)
             && stray == 0x8020_0000_0000
    ensures r == Ok && here == None && there == Some(last)
  {
    hide Refusal, PlanTable, Setting.Verdict, Tables.Valid, Made, Tables.Changed, Tables.Did, Lookup, Avail,
         Fresh, Proper, IsHigh, Effect, Skip;
    var t := new Tables(ps, root, supply);
    ghost var s, done := t.Start(SmallBlock, MapTo(properties)), 0;
    ghost var plan := PlanTable(ps, SmallBlock, 0, 0, zero, 4097);
    LongRangeStrays(ps, SmallBlock, zero);
    MapEmpty(s, plan, zero);
    r, done := t.Map(zero, zero, 4097, SmallBlock, properties);
    StrayFound(ps, root, s.m, t.tables, plan, MapTo(properties), zero, last, stray);
    here := t.PhysicalAddressOf(last);
    there := t.PhysicalAddressOf(stray);
  }

  lemma StrayFound(ps: PageSize, root: nat, m: Memory, m': Memory, plan: Plan, op: Operation, zero: nat, last: nat,
                   stray: nat)
    requires ps == SixteenKiB && zero == 0 && last == Skip(ps, SmallBlock, zero, 4096) && stray == 0x8020_0000_0000
    requires |plan.visits| == 4097 && plan.visits[..4096] == Consecutive(0, 4096) && op.MapTo?
    requires Skip(ps, SmallBlock, 0, plan.visits[4096]) == stray
    requires Effect(ps, SmallBlock, op, root, m, m', plan.visits, zero, 4097)
    requires forall v :: Lookup(ps, m, root, v) == None
    ensures last < WORD_LIMIT && !IsHigh(last) && stray < WORD_LIMIT && !IsHigh(stray)
    ensures Translate(ps, false, root, m', last) == None
    ensures var to := Translate(ps, false, root, m', stray); to.Some? && to.value.address == last
  {
    hide Lookup, Consecutive, WrittenAttributes;
    assert last == 0x20_0000_0000;
    StrayNumbers(ps, last, stray, plan.visits[4096]);
    assert plan.visits[..4097] == plan.visits;
    forall i | 0 <= i < 4097 ensures plan.visits[i] != 4096 {
      if i < 4096 { assert plan.visits[..4096][i] == i; }
    }
  }

  lemma StrayNumbers(ps: PageSize, last: nat, stray: nat, n: nat)
    requires ps == SixteenKiB && last == 0x20_0000_0000 && stray == 0x8020_0000_0000
             && Skip(ps, SmallBlock, 0, n) == stray
    ensures EntryNumber(ps, last, 2) == 4096 && EntryNumber(ps, stray, 2) == n != 4096
    ensures stray % BlockBytes(ps, SmallBlock) == 0
  {
    DivModUnique(stray, 0x200_0000, n, 0);
  }
}
