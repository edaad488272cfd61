/** `map` over a region that is mapped with another block size. */
module PageMixed {
  import opened Common
  import opened Arithmetic
  import opened PageEntry
  import opened PageTree
  import opened PageWalker
  import opened PageObstacles
  import opened PageOverwrites
  import opened PageOwnership
  import opened PageRange
  import opened PageTables
  import opened PageOutcomes

  // ---------------------------------------------------------------- with which block size an address is mapped

  /** The level of the leaf that the lookup of `v` finds, from table `t` at `level` on. */
  function LeafLevel(ps: PageSize, m: Memory, t: nat, level: nat, v: nat): (k: Option<nat>)
    ensures k.Some? ==> level <= k.value <= 3
    decreases 4 - level
  {
    if level > 3 || t !in m || |m[t]| <= IndexForLevel(ps, v, level) then None
    else
      match Decode(m[t][IndexForLevel(ps, v, level)], level)
      case Table(next) => LeafLevel(ps, m, next, level + 1, v)
      case Block(_) => Some(level)
      case Page(_) => Some(level)
      case _ => None
  }

  /** An address has a leaf exactly if it has a translation. */
  lemma {:induction false} LeafMapped(ps: PageSize, m: Memory, t: nat, level: nat, v: nat)
    ensures LeafLevel(ps, m, t, level, v).Some? <==> Walk(ps, m, t, level, v).Some?
    decreases 4 - level
  {
    hide IndexForLevel, Decode;
    if level <= 3 && t in m && |m[t]| > IndexForLevel(ps, v, level) {
      var d := Decode(m[t][IndexForLevel(ps, v, level)], level);
      if d.Table? { LeafMapped(ps, m, d.address, level + 1, v); }
    }
  }

  lemma {:induction false} LeafVia(ps: PageSize, m: Memory, t: nat, level: nat, v: nat, target: nat)
    requires level <= target && TableOf(ps, m, t, level, v, target).Some?
    ensures LeafLevel(ps, m, t, level, v) == LeafLevel(ps, m, TableOf(ps, m, t, level, v, target).value, target, v)
    decreases 4 - level
  {
    hide IndexForLevel, Decode;
    if level < target {
      LeafVia(ps, m, Decode(m[t][IndexForLevel(ps, v, level)], level).address, level + 1, v, target);
    }
  }

  /** The leaf of an address, from the table that the numbers lead to. */
  lemma LeafAt(ps: PageSize, m: Memory, root: nat, v: nat, level: nat)
    requires v < ADDRESS_LIMIT && level <= 3 && TableAt(ps, m, root, level, TableNumber(ps, v, level)).Some?
    ensures var t := TableAt(ps, m, root, level, TableNumber(ps, v, level)).value;
            LeafLevel(ps, m, root, 0, v) == LeafLevel(ps, m, t, level, v)
  {
    hide TableAt, TableOf, TableNumber, LeafLevel;
    TableOfAt(ps, m, root, v, level);
    LeafVia(ps, m, root, 0, v, level);
  }

  /** The entry of an address at a level, in the table that the numbers lead to. */
  lemma EntryOfAddress(ps: PageSize, m: Memory, root: nat, v: nat, level: nat)
    requires v < ADDRESS_LIMIT && level <= 3
    ensures EntryAt(ps, m, root, level, EntryNumber(ps, v, level))
            == EntryIn(m, TableAt(ps, m, root, level, TableNumber(ps, v, level)), IndexForLevel(ps, v, level), level)
  {
    hide EntryBytes, EntryNumber, IndexForLevel, Child, EntryIn, TableAt;
    EntrySplits(ps, v, level);
    ChildIs(ps, level, TableNumber(ps, v, level), IndexForLevel(ps, v, level));
    EntryOfChild(ps, level, TableNumber(ps, v, level), IndexForLevel(ps, v, level));
  }

  /** The path to an end-level entry passes the entries of its addresses. */
  lemma PathOfAddress(ps: PageSize, size: MapBlockSize, v: nat, level: nat)
    requires Supported(ps, size) && level < EndLevel(size)
    ensures PathTable(ps, size, level + 1, EntryNumber(ps, v, EndLevel(size))) == EntryNumber(ps, v, level)
  {
    var w, k := EntryBytes(ps, EndLevel(size)), TableBlocks(ps, size, level + 1);
    assert EntryBytes(ps, level) == w * k && k > 0;
    hide EntryBytes, TableBlocks;
    DivDiv(v, w, k, EntryBytes(ps, level));
  }

  // ---------------------------------------------------------------- blocks that are mapped with another size

  /** Address `v` is mapped with a block size other than that of the request. */
  ghost predicate Elsewhere(s: Setting, v: nat) {
    var k := LeafLevel(s.ps, s.m, s.root, 0, v);
    k.Some? && k.value != EndLevel(s.size)
  }

  /** Part of block `n` is mapped with another block size. */
  ghost predicate OtherSize(s: Setting, n: nat) {
    exists v :: 0 <= v < ADDRESS_LIMIT && EntryNumber(s.ps, v, EndLevel(s.size)) == n && Elsewhere(s, v)
  }

  ghost predicate SomeMapped(s: Setting, n: nat) {
    exists v :: 0 <= v < ADDRESS_LIMIT && EntryNumber(s.ps, v, EndLevel(s.size)) == n
                && Lookup(s.ps, s.m, s.root, v).Some?
  }

  /** The entry of block `n` is a table, and something is mapped below it. */
  ghost predicate Smaller(s: Setting, n: nat) { Below(s, n).Some? && SomeMapped(s, n) }

  /** Where the leaf of an address lies, seen from its block. */
  lemma {:induction false} LeafWhere(s: Setting, v: nat, level: nat, t: nat)
    requires Supported(s.ps, s.size) && v < ADDRESS_LIMIT && level <= EndLevel(s.size)
    requires TableAt(s.ps, s.m, s.root, level, TableNumber(s.ps, v, level)) == Some(t)
    requires LeafLevel(s.ps, s.m, t, level, v).Some?
    ensures var n, k := EntryNumber(s.ps, v, EndLevel(s.size)), LeafLevel(s.ps, s.m, t, level, v).value;
            && (k < EndLevel(s.size) ==> s.Blocked(n))
            && (k > EndLevel(s.size) ==> Below(s, n).Some?)
    decreases 4 - level
  {
    hide Decode, EntryBytes, EntryNumber, IndexForLevel, PathTable, TableAt, EntryAt;
    var l, n := EndLevel(s.size), EntryNumber(s.ps, v, EndLevel(s.size));
    EntryOfAddress(s.ps, s.m, s.root, v, level);
    TableBelow(s.ps, s.m, s.root, level, EntryNumber(s.ps, v, level));
    var d := Decode(s.m[t][IndexForLevel(s.ps, v, level)], level);
    if level < l {
      PathOfAddress(s.ps, s.size, v, level);
      if d.Table? {
        LeafWhere(s, v, level + 1, d.address);
      } else {
        StillBlocked(s, level + 1, l, n);
      }
    }
  }

  lemma TableBelow(ps: PageSize, m: Memory, root: nat, level: nat, e: nat)
    ensures TableAt(ps, m, root, level + 1, e) == match EntryAt(ps, m, root, level, e)
                                                  case Some(Table(c)) => Some(c)
                                                  case _ => None
  {}

  /** An address of a block below a larger one is mapped with the larger size. */
  lemma {:induction false} BlockedLeaf(s: Setting, v: nat, level: nat)
    requires Supported(s.ps, s.size) && v < ADDRESS_LIMIT && level <= EndLevel(s.size)
    requires s.BlockedTo(level, EntryNumber(s.ps, v, EndLevel(s.size)))
    ensures var k := LeafLevel(s.ps, s.m, s.root, 0, v); k.Some? && k.value < level
  {
    hide Decode, EntryBytes, EntryNumber, IndexForLevel, PathTable, TableAt, EntryAt;
    var n := EntryNumber(s.ps, v, EndLevel(s.size));
    if s.BlockedTo(level - 1, n) {
      BlockedLeaf(s, v, level - 1);
    } else {
      PathOfAddress(s.ps, s.size, v, level - 1);
      EntryOfAddress(s.ps, s.m, s.root, v, level - 1);
      LeafAt(s.ps, s.m, s.root, v, level - 1);
    }
  }

  /** A block is partly mapped with another size exactly if it lies below a larger one or has a table in use. */
  lemma OtherSizeIs(s: Setting, places: map<nat, Place>, n: nat)
    requires Supported(s.ps, s.size) && TreeOk(s.ps, s.m, places, s.root) && Skip(s.ps, s.size, 0, n) < ADDRESS_LIMIT
    ensures OtherSize(s, n) <==> s.Blocked(n) || Smaller(s, n)
  {
    hide TreeOk, LeafLevel, EntryNumber, TableAt, Setting.BlockedTo, Walk, Skip, TableNumber;
    if OtherSize(s, n) {
      var v :| 0 <= v < ADDRESS_LIMIT && EntryNumber(s.ps, v, EndLevel(s.size)) == n && Elsewhere(s, v);
      RootTable(s, v);
      LeafWhere(s, v, 0, s.root);
      LeafMapped(s.ps, s.m, s.root, 0, v);
    }
    if s.Blocked(n) {
      var v := Skip(s.ps, s.size, 0, n);
      FirstAddress(s.ps, s.size, n);
      BlockedLeaf(s, v, EndLevel(s.size));
      assert Elsewhere(s, v);
    }
    if Smaller(s, n) {
      var v :| 0 <= v < ADDRESS_LIMIT && EntryNumber(s.ps, v, EndLevel(s.size)) == n
               && Lookup(s.ps, s.m, s.root, v).Some?;
      SmallerLeaf(s, places, v);
      assert Elsewhere(s, v);
    }
  }

  lemma RootTable(s: Setting, v: nat)
    ensures TableAt(s.ps, s.m, s.root, 0, TableNumber(s.ps, v, 0)) == Some(s.root)
  {}

  lemma FirstAddress(ps: PageSize, size: MapBlockSize, n: nat)
    ensures EntryNumber(ps, Skip(ps, size, 0, n), EndLevel(size)) == n
  {
    hide EntryBytes;
    DivModUnique(Skip(ps, size, 0, n), BlockBytes(ps, size), n, 0);
  }

  lemma SmallerLeaf(s: Setting, places: map<nat, Place>, v: nat)
    requires TreeOk(s.ps, s.m, places, s.root) && v < ADDRESS_LIMIT && Lookup(s.ps, s.m, s.root, v).Some?
    requires Below(s, EntryNumber(s.ps, v, EndLevel(s.size))).Some?
    ensures var k := LeafLevel(s.ps, s.m, s.root, 0, v); k.Some? && k.value > EndLevel(s.size)
  {
    hide LeafLevel, EntryNumber, TableAt, Walk;
    var l, n := EndLevel(s.size), EntryNumber(s.ps, v, EndLevel(s.size));
    TableAtPlace(s.ps, s.m, places, s.root, l + 1, n);
    var c := Below(s, n).value;
    assert TableOk(s.ps, places, places[c], s.m[c]);
    LeafMapped(s.ps, s.m, s.root, 0, v);
    LeafAt(s.ps, s.m, s.root, v, l + 1);
  }

  // ---------------------------------------------------------------- requests

  ghost predicate AnyOther(s: Setting, b: nat, count: nat) { exists n :: b <= n < b + count && OtherSize(s, n) }

  ghost predicate AnySmaller(s: Setting, b: nat, count: nat) { exists n :: b <= n < b + count && Smaller(s, n) }

  ghost predicate NoneBlocked(s: Setting, b: nat, count: nat) { forall n :: b <= n < b + count ==> !s.Blocked(n) }

  ghost predicate Enough(s: Setting, b: nat, count: nat) { |s.MissingAll(Consecutive(b, count))| <= s.Pages() }

  lemma MissingFewer(s: Setting, ns: seq<nat>, k: nat)
    requires k <= |ns|
    ensures |s.MissingAll(ns[..k])| <= |s.MissingAll(ns)|
  {
    hide Setting.MissingAll;
    assert ns == ns[..k] + ns[k..];
    MissingAppend(s, ns[..k], ns[k..]);
    FewerOf(s.MissingAll(ns[..k]), s.MissingAll(ns));
  }

  lemma FewerOf(a: set<Place>, b: set<Place>)
    requires a <= b
    ensures |a| <= |b|
  {
    assert b == a + (b - a);
  }

  /** `map` from block to block succeeds exactly if no larger block is in the way and the pages suffice. */
  lemma MapOk(s: Setting, plan: Plan, at: nat, b: nat, count: nat)
    requires s.op.MapTo? && plan == Plan(Consecutive(b, count), false, []) && count > 0
    ensures s.Verdict(plan, at) == Ok <==> NoneBlocked(s, b, count) && Enough(s, b, count)
    ensures var r := s.Verdict(plan, at); r.Err? && r.error.AlreadyMapped? ==> !NoneBlocked(s, b, count)
  {
    hide Skip, Setting.MissingAll, Setting.Blocked, Setting.Pages;
    var ns := Consecutive(b, count);
    assert ns + [] == ns && ns[..count] == ns && {} + s.MissingAll(ns) == s.MissingAll(ns);
    forall k | 0 <= k < count
      ensures s.Stops({}, ns, k) <==> s.Blocked(b + k) || |s.MissingAll(ns[..k + 1])| > s.Pages()
    {
      assert {} + s.MissingAll(ns[..k + 1]) == s.MissingAll(ns[..k + 1]);
    }
    var i := s.FirstStop(ns, 0);
    if i < count {
      MissingFewer(s, ns, i + 1);
    } else {
      assert !s.Stops({}, ns, count - 1);
      forall n | b <= n < b + count ensures !s.Blocked(n) { assert !s.Stops({}, ns, n - b); }
    }
  }

  /** Over a range, the blocks that are partly mapped with another size. */
  lemma AnyOtherIs(s: Setting, places: map<nat, Place>, b: nat, count: nat)
    requires Supported(s.ps, s.size) && TreeOk(s.ps, s.m, places, s.root)
    requires b + count <= Radix(s.ps, 0) * Cover(s.ps, s.size, 0)
    ensures AnyOther(s, b, count) <==> !NoneBlocked(s, b, count) || AnySmaller(s, b, count)
  {
    hide Skip, TreeOk, Radix, Cover, OtherSize, Smaller, Setting.Blocked;
    PagesBelow(s.ps, s.size, b + count);
    forall n | b <= n < b + count ensures OtherSize(s, n) <==> s.Blocked(n) || Smaller(s, n) {
      OtherSizeIs(s, places, n);
    }
    if n :| b <= n < b + count && s.Blocked(n) { assert OtherSize(s, n); }
    if n :| b <= n < b + count && Smaller(s, n) { assert OtherSize(s, n); }
  }

  /** The table below an entry has not been cut off before. */
  lemma BelowIsLinked(s: Setting, places: map<nat, Place>, n: nat)
    requires TreeOk(s.ps, s.m, places, s.root) && Links(s.m, places, s.root, s.orphans) && Below(s, n).Some?
    ensures Below(s, n).value !in s.orphans
  {
    hide Decode, TreeOk, TableAt, TableOfEntry, IndexOfEntry;
    var l := EndLevel(s.size);
    var number, i := TableOfEntry(s.ps, l, n), IndexOfEntry(s.ps, l, n);
    TableBelow(s.ps, s.m, s.root, l, n);
    TableAtPlace(s.ps, s.m, places, s.root, l, number);
    assert Points(s.m, places, TableAt(s.ps, s.m, s.root, l, number).value, i, Below(s, n).value);
  }

  /** Blocks over tables in use cut these tables off. */
  lemma SmallerCut(s: Setting, places: map<nat, Place>, b: nat, count: nat, orphans: set<nat>)
    requires TreeOk(s.ps, s.m, places, s.root) && Links(s.m, places, s.root, s.orphans) && AnySmaller(s, b, count)
    requires orphans == s.orphans + Overwritten(s, Seen(Consecutive(b, count)))
    ensures s.orphans < orphans
  {
    hide TreeOk, Links, Below, SomeMapped;
    var n :| b <= n < b + count && Smaller(s, n);
    BelowIsLinked(s, places, n);
    assert Consecutive(b, count)[n - b] == n;
    assert Below(s, n).value in Overwritten(s, Seen(Consecutive(b, count)));
  }

  /**
   `map`, with blocks of any size. The documentation promises `AlreadyMapped` for a region of which a part is mapped
   with a different block size. There is none, and tables are cut off, exactly if no larger block is in the way, the
   pages suffice and some block of the region has a table in which something is mapped.
   */
  method MapMixed(t: Tables, v: nat, phys: nat, count: nat, size: MapBlockSize, properties: MemoryProperties)
    returns (r: Outcome)
    requires t.Valid() && v < WORD_LIMIT
    modifies t
    ensures t.Valid()
    ensures Refusal(t.ps, t.highTag, size, v, phys, count).None? && Proper(t.ps, size, v, phys, count) ==>
              var s, b := old(t.Start(size, MapTo(properties))), BlockOf(t.ps, size, v);
              && (r == Ok <==> NoneBlocked(s, b, count) && Enough(s, b, count))
              && (r.Err? && r.error.AlreadyMapped? ==> AnyOther(s, b, count))
              && (r == Ok && AnyOther(s, b, count)
                  <==> NoneBlocked(s, b, count) && Enough(s, b, count) && AnySmaller(s, b, count))
              && (r == Ok && AnyOther(s, b, count) ==> old(t.orphans) < t.orphans)
  {
    hide TreeOk, Links, PlanTable, Fits, BlockBytes, Skip, Cover, Tables.SupplyOk, Tables.Did, Tables.Changed, Effect,
         Made, Leaves, Overwritten, Seen, Setting.Verdict, Setting.FirstStop, AnyOther, AnySmaller, NoneBlocked, Enough,
         IsHigh, Avail;
    ghost var s, b, places := t.Start(size, MapTo(properties)), BlockOf(t.ps, size, v), t.places;
    ghost var done, plan := 0, Plan([], false, []);
    r, done := t.Map(v, phys, count, size, properties);
    if Refusal(t.ps, t.highTag, size, v, phys, count).None? && Proper(t.ps, size, v, phys, count) {
      plan := PlanTable(t.ps, size, 0, 0, v % ADDRESS_LIMIT, count);
      LowBlock(t.ps, size, v);
      FitsInside(t.ps, size, b, count);
      FitsExactly(t.ps, size, b, count);
      MapOk(s, plan, v, b, count);
      AnyOtherIs(s, places, b, count);
      if r == Ok && AnySmaller(s, b, count) {
        SeenAll(plan.visits);
        SmallerCut(s, places, b, count, t.orphans);
      }
    }
  }

  /** The first small block, as a request. */
  lemma FirstBlock(ps: PageSize, size: MapBlockSize, zero: nat)
    requires ps == FourKiB && size == SmallBlock && zero == 0
    ensures Refusal(ps, false, size, zero, zero, 1) == None && Proper(ps, size, zero, zero, 1)
    ensures BlockOf(ps, size, zero) == 0 == EntryNumber(ps, zero, EndLevel(size))
  {
    forall l | 0 <= l < 1 ensures EntryFits(ps, size, l, 0, 1) {}
  }

  lemma PathOfZero(ps: PageSize, size: MapBlockSize, level: nat, zero: nat)
    requires zero == 0
    ensures PathTable(ps, size, level, zero) == 0
  {}

  lemma ZeroCovered(ps: PageSize, size: MapBlockSize, zero: nat)
    requires zero == 0
    ensures !IsHigh(zero) && Covers(ps, size, zero, 1, zero)
  {}

  /** After page 0 was mapped into empty tables, the first small block has a table in use. */
  lemma AfterPage(s: Setting, s': Setting, plan: Plan, zero: nat)
    requires s.ps == s'.ps == FourKiB && s.size == SinglePage && s'.size == SmallBlock && s.root == s'.root && zero == 0
    requires s.m == map[s.root := ZeroPage(s.ps)] && plan.Walks() == [zero] && Grew(s, s'.m, s.MissingAll(plan.Walks()))
    requires Lookup(s'.ps, s'.m, s'.root, zero).Some? && EntryNumber(s'.ps, zero, EndLevel(s'.size)) == zero
    ensures NoneBlocked(s', 0, 1) && Enough(s', 0, 1) && AnySmaller(s', 0, 1)
  {
    hide Grew, TableAt, PathTable, Setting.MissingAll, Setting.BlockedTo, Lookup, EntryNumber;
    EmptyPath(s, 2, zero);
    EmptyPath(s, 3, zero);
    MissingOne(s, zero);
    MissingOne(s', zero);
    MadeReached(s, s'.m, s.MissingAll([zero]), 2, zero);
    MadeReached(s, s'.m, s.MissingAll([zero]), 3, zero);
    PathOfZero(s.ps, s.size, 2, zero);
    PathOfZero(s.ps, s.size, 3, zero);
    PathOfZero(s.ps, s'.size, 2, zero);
    ReachedPath(s', 2, zero);
    assert Consecutive(0, 1) == [zero];
    assert SomeMapped(s', zero);
    assert Smaller(s', zero);
  }

  /** A small block over a page that is mapped succeeds, and its table is not freed when the tables are dropped. */
  method MapPageThenBlock(ps: PageSize, root: nat, supply: seq<Option<nat>>, zero: nat, properties: MemoryProperties)
    returns (r: Outcome, r': Outcome, t: Tables, freed: seq<nat>)
    requires ps == FourKiB && root % PageBytes(ps) == 0 && 0 < root < ADDRESS_LIMIT
    requires Fresh(ps, supply, {root}) && Avail(supply) >= 3 && zero == 0
    ensures r == Ok && r' == Ok && fresh(t)
    ensures exists page :: page in t.taken && page !in freed
  {
    hide Refusal, PlanTable, Setting.Verdict, Tables.Valid, Tables.Stepped, Lookup, Avail, Fresh, Proper, IsHigh,
         BlockOf, BlockBytes, Grew, Overwrote, NoneBlocked, Enough, AnySmaller, AnyOther;
    t := new Tables(ps, root, supply);
    ghost var s, done := t.Start(SinglePage, MapTo(properties)), 0;
    ghost var plan := PlanTable(ps, SinglePage, 0, 0, zero % ADDRESS_LIMIT, 1);
    PagePair(ps, SinglePage, zero, 0x1000);
    r, done := t.Map(zero, zero, 1, SinglePage, properties);
    FirstPagePlan(ps, SinglePage, zero);
    MapEmpty(s, plan, zero);
    FirstBlock(ps, SmallBlock, zero);
    assert Translate(ps, false, root, t.tables, zero).Some? by { ZeroCovered(ps, SinglePage, zero); }
    ghost var s' := t.Start(SmallBlock, MapTo(properties));
    AfterPage(s, s', plan, zero);
    r' := MapMixed(t, zero, zero, 1, SmallBlock, properties);
    freed := t.Drop();
  }
}
