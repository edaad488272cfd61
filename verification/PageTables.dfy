/** The `PageTables` of kernel_core/src/memory/page_table.rs: walking, mapping, unmapping, lookup and drop. */
module PageTables {
  import opened Common
  import opened Arithmetic
  import opened PageEntry
  import opened PageTree
  import opened PageWalker
  import opened PageObstacles
  import opened PageOverwrites
  import opened PageOwnership
  import opened PageRange

  const WORD_LIMIT: nat := 0x1_0000_0000_0000_0000

  /** `is_in_kernel_space`: the upper sixteen bits are ones. */
  predicate IsHigh(p: nat) { p / ADDRESS_LIMIT == 0xffff }

  /** The meaning of the tables for a pointer. */
  function Translate(ps: PageSize, highTag: bool, root: nat, m: Memory, p: nat): Option<Mapping> {
    if IsHigh(p) != highTag then None else Lookup(ps, m, root, p % ADDRESS_LIMIT)
  }

  /** The bytes from `v` on that `blocks` blocks cover, whatever the upper bits of the pointer. */
  predicate Covers(ps: PageSize, size: MapBlockSize, v: nat, blocks: nat, p: nat) {
    v % ADDRESS_LIMIT <= p % ADDRESS_LIMIT < v % ADDRESS_LIMIT + blocks * BlockBytes(ps, size)
  }

  /** The requests `map` and `unmap` turn down, in the order of their checks. */
  function Refusal(ps: PageSize, highTag: bool, size: MapBlockSize, v: nat, phys: nat, count: nat): Option<Outcome> {
    if IsHigh(v) != highTag then Some(Err(InvalidTag(v)))
    else if LengthInPages(size, ps).None? then Some(Panic)
    else if !(count > 0 && count * LengthInPages(size, ps).value < ADDRESS_LIMIT) then Some(Err(InvalidCount))
    else if v % BlockBytes(ps, size) != 0 then Some(Err(InvalidAlignment(v)))
    else if phys % BlockBytes(ps, size) != 0 then Some(Err(InvalidAlignment(phys)))
    else None
  }

  /** The requests whose range the walker treats as documented: all virtual and physical addresses have 48 bits. */
  predicate Proper(ps: PageSize, size: MapBlockSize, v: nat, phys: nat, count: nat) {
    && Supported(ps, size) && Fits(ps, size, v % ADDRESS_LIMIT / BlockBytes(ps, size), count)
    && Skip(ps, size, phys, count) <= ADDRESS_LIMIT
  }

  /** The allocator gives distinct pages, none of them in use. */
  ghost predicate Fresh(ps: PageSize, supply: seq<Option<nat>>, used: set<nat>) {
    && (forall k :: 0 <= k < |supply| && supply[k].Some? ==>
          supply[k].value !in used && supply[k].value % PageBytes(ps) == 0 && 0 < supply[k].value < ADDRESS_LIMIT)
    && (forall j, k :: 0 <= j < k < |supply| && supply[j].Some? && supply[k].Some? ==>
          supply[j].value != supply[k].value)
  }

  lemma SkipFrom(ps: PageSize, size: MapBlockSize, tag: nat, vs: nat, num: nat)
    ensures tag + Skip(ps, size, vs, num) == Skip(ps, size, tag + vs, num)
  {}

  function BlocksInSpace(ps: PageSize, size: MapBlockSize): (k: nat)
    ensures k > 0 && ADDRESS_LIMIT == k * BlockBytes(ps, size)
  {
    ADDRESS_LIMIT / BlockBytes(ps, size)
  }

  lemma PageMultiple(ps: PageSize, page: nat)
    requires page % PageBytes(ps) == 0
    ensures page % 0x1000 == 0
  {
    Digits(page, if ps.FourKiB? then 1 else 4, 0x1000, PageBytes(ps));
  }

  /** What hanging a zeroed page into an empty entry keeps. */
  lemma GrowTree(ps: PageSize, m: Memory, places: map<nat, Place>, root: nat, orphans: set<nat>, t: nat, i: nat,
                 page: nat)
    requires TreeOk(ps, m, places, root) && Links(m, places, root, orphans) && m.Keys == places.Keys
    requires t in m && i < Entries(ps) && places[t].level <= 2 && |m[t]| == Entries(ps)
    requires page !in m && page % 0x1000 == 0 && page < ADDRESS_LIMIT
    requires OnPath(ps, m, root, t, places[t]) && Decode(m[t][i], places[t].level).Empty?
    requires TableAt(ps, m, root, places[t].level, places[t].number) == Some(t)
    ensures var m', places' := AddTable(ps, m, t, i, page), places[page := ChildPlace(ps, places[t], i)];
            && m'.Keys == m.Keys + {page} && TreeOk(ps, m', places', root) && Links(m', places', root, orphans)
            && Above(m, places, m', places', places[t].level)
            && OnPath(ps, m', root, t, places[t])
            && places'[page].level <= 3 && OnPath(ps, m', root, page, places'[page])
            && forall v :: 0 <= v < ADDRESS_LIMIT ==> Lookup(ps, m', root, v) == Lookup(ps, m, root, v)
  {
    hide Decode, ForTable, Lookup, OnPath, TreeOk, ZeroPage, Links, Entries, TableAt;
    LinksGrow(ps, m, places, root, orphans, t, i, page);
    AddTableKeepsTree(ps, m, places, root, t, i, page);
    var m', places' := AddTable(ps, m, t, i, page), places[page := ChildPlace(ps, places[t], i)];
    forall v | 0 <= v < ADDRESS_LIMIT ensures Lookup(ps, m', root, v) == Lookup(ps, m, root, v) {
      AddTableLookup(ps, m, places, root, t, i, page, v);
    }
    OnPathFrame(ps, m, places, m', places', root, t, places[t]);
    GrowReached(ps, m, places, root, t, i, page);
    AtIsOnPath(ps, m', root, page, places'[page]);
  }

  lemma GrowReached(ps: PageSize, m: Memory, places: map<nat, Place>, root: nat, t: nat, i: nat, page: nat)
    requires TreeOk(ps, m, places, root) && t in m && t in places && i < Entries(ps) && |m[t]| == Entries(ps)
    requires page !in m && page % 0x1000 == 0 && page < ADDRESS_LIMIT && places[t].level <= 2
    requires TableAt(ps, m, root, places[t].level, places[t].number) == Some(t)
    requires Decode(m[t][i], places[t].level) == Empty
    ensures var m', child := AddTable(ps, m, t, i, page), ChildPlace(ps, places[t], i);
            && TableAt(ps, m', root, places[t].level, places[t].number) == Some(t)
            && TableAt(ps, m', root, child.level, child.number) == Some(page)
  {
    hide TreeOk, Decode, AddTable, TableAt, Child;
    var child := ChildPlace(ps, places[t], i);
    AddTableAt(ps, m, places, root, t, i, page, places[t].level, places[t].number);
    AddTableAt(ps, m, places, root, t, i, page, child.level, child.number);
  }

  lemma ChildReached(ps: PageSize, m: Memory, root: nat, place: Place, i: nat, t: nat, c: nat)
    requires TableAt(ps, m, root, place.level, place.number) == Some(t) && t in m && |m[t]| == Entries(ps)
    requires i < Entries(ps) && Decode(m[t][i], place.level) == Table(c)
    ensures var child := ChildPlace(ps, place, i); TableAt(ps, m, root, child.level, child.number) == Some(c)
  {
    hide Decode, EntryAt, Child;
    EntryAtChild(ps, m, root, place.level, place.number, i, t);
  }

  lemma ReachedFrame(ps: PageSize, m: Memory, places: map<nat, Place>, m': Memory, places': map<nat, Place>, root: nat,
                     t: nat)
    requires TreeOk(ps, m, places, root) && m.Keys == places.Keys && m'.Keys == places'.Keys && t in places
    requires Above(m, places, m', places', places[t].level)
    ensures TableAt(ps, m', root, places[t].level, places[t].number)
            == TableAt(ps, m, root, places[t].level, places[t].number)
  {
    hide TreeOk, TableAt;
    TableAtFrame(ps, m, m', places, root, places[t].level, places[t].number);
  }

  /** The low bits of an aligned pointer are those of its block. */
  lemma LowBlock(ps: PageSize, size: MapBlockSize, v: nat)
    requires v % BlockBytes(ps, size) == 0
    ensures Skip(ps, size, 0, v % ADDRESS_LIMIT / BlockBytes(ps, size)) == v % ADDRESS_LIMIT
  {
    hide BlockBytes;
    var w, k := BlockBytes(ps, size), BlocksInSpace(ps, size);
    Digits(v, k, w, ADDRESS_LIMIT);
    var low := v % ADDRESS_LIMIT;
    assert low == w * (low / w) + low % w;
  }

  /** Only the low 48 bits of a pointer select entries and offsets. */
  lemma LowBits(ps: PageSize, p: nat, level: nat)
    requires level <= 3
    ensures IndexForLevel(ps, p, level) == IndexForLevel(ps, p % ADDRESS_LIMIT, level)
    ensures p % EntryBytes(ps, level) == p % ADDRESS_LIMIT % EntryBytes(ps, level)
  {
    var e, r := EntryBytes(ps, level), Radix(ps, level);
    var k := ADDRESS_LIMIT / e / r;
    assert ADDRESS_LIMIT == (k * r) * e;
    hide EntryBytes, Radix;
    Digits(p, k * r, e, ADDRESS_LIMIT);
    Digits(p / e, k, r, k * r);
  }

  /** The plan of the callbacks in one table. */
  lemma LeafPlan(ps: PageSize, size: MapBlockSize, number: nat, vs: nat, count: nat)
    requires Supported(ps, size)
    ensures var l, start := EndLevel(size), IndexForLevel(ps, vs, EndLevel(size));
            var plan := PlanTable(ps, size, l, number, vs, count);
            plan.panics == (start + count > Entries(ps)) && |plan.visits| == if plan.panics then 0 else count
  {
    hide IndexForLevel;
  }

  lemma LeafVisit(ps: PageSize, size: MapBlockSize, number: nat, vs: nat, count: nat, i: nat)
    requires Supported(ps, size) && i < |PlanTable(ps, size, EndLevel(size), number, vs, count).visits|
    ensures var l, start := EndLevel(size), IndexForLevel(ps, vs, EndLevel(size));
            var visits := PlanTable(ps, size, l, number, vs, count).visits;
            visits[i] == Child(ps, l, number, start + i) && visits[i] !in visits[..i]
  {
    hide IndexForLevel;
  }

  /** The tables, the answers of the allocator to come, and the tables cut off so far. */
  datatype State = State(tables: Memory, supply: seq<Option<nat>>, orphans: set<nat>)

  /** A walk that ended as the start demands, and left this state. */
  ghost predicate Walked(s: Setting, plan: Plan, at: nat, r: Outcome, done: nat, st: State) {
    && r == s.Verdict(plan, at) && (r.Err? ==> done == s.FirstStop(plan.Walks(), 0))
    && Made(s, st.tables, st.supply, plan.Walks(), r, done)
    && done <= |plan.visits| && Overwrote(s, st.tables, st.orphans, Seen(plan.visits[..done]))
  }

  /**
   The outcome and the state after a request that started from `s`: it is refused, or ends as the tables and the
   allocator of the start demand, after the blocks before the first that is stopped.
   */
  ghost predicate Follows(highTag: bool, s: Setting, v: nat, phys: nat, count: nat, r: Outcome, done: nat, st: State) {
    match Refusal(s.ps, highTag, s.size, v, phys, count)
    case Some(no) => r == no && done == 0 && st == State(s.m, s.supply, s.orphans)
    case None => Walked(s, PlanTable(s.ps, s.size, 0, 0, v % ADDRESS_LIMIT, count), v, r, done, st)
  }

  /** A `PageTables` with its tables in memory and the pages the allocator will give it. */
  class Tables {
    const ps: PageSize
    const highTag: bool
    const root: nat
    var tables: Memory
    /** The answers of the next allocations; `None` is a failure, and so is the end. */
    var supply: seq<Option<nat>>
    ghost var places: map<nat, Place>
    /** The pages the allocator has given, and those whose table entry was overwritten. */
    ghost var taken: set<nat>
    ghost var orphans: set<nat>

    ghost predicate SupplyOk()
      reads this
    {
      Fresh(ps, supply, tables.Keys)
    }

    ghost predicate Valid()
      reads this
    {
      Holding({})
    }

    /** Valid, while `pages` are allocated and not yet in use. */
    ghost predicate Holding(pages: set<nat>)
      reads this
    {
      && TreeOk(ps, tables, places, root) && SupplyOk()
      && Links(tables, places, root, orphans) && taken == tables.Keys + pages
    }

    lemma Recorded()
      requires Valid()
      ensures tables.Keys == places.Keys
    {}

    /** The walk from the root by numbers leads to table `t`. */
    ghost predicate Reached(t: nat)
      reads this
    {
      t in places && TableAt(ps, tables, root, places[t].level, places[t].number) == Some(t)
    }

    /** A walk from setting `s` has made tables in the places `made` so far. */
    ghost predicate Tracked(s: Setting, made: set<Place>)
      reads this
    {
      && s.ps == ps && s.root == root && Tracks(s, tables, made, Avail(supply))
      && supply == Drawn(s.supply, |made|)
    }

    /** How a walk from setting `s` has left the tables and the allocator. */
    ghost predicate Ended(s: Setting, made: set<Place>, r: Outcome)
      reads this
    {
      if !r.Err? then Tracked(s, made)
      else Grew(s, tables, made) && supply == Drawn(s.supply, |made| + if r == Err(Allocator) then 1 else 0)
    }

    /** `PageTables::empty`, when the allocator gives it the page `root`. */
    constructor (ps: PageSize, root: nat, supply: seq<Option<nat>>)
      requires root % PageBytes(ps) == 0 && 0 < root < ADDRESS_LIMIT
      requires Fresh(ps, supply, {root})
      ensures Valid() && this.ps == ps && this.root == root && this.supply == supply && !highTag
      ensures tables == map[root := ZeroPage(ps)] && taken == {root} && orphans == {}
      ensures forall v :: Lookup(ps, tables, root, v) == None
    {
      this.ps := ps;
      this.root := root;
      this.highTag := false;
      this.supply := supply;
      tables := map[root := ZeroPage(ps)];
      places := map[root := Place(0, 0)];
      taken, orphans := {root}, {};
    }

    /** Over tables that exist. */
    constructor Over(ps: PageSize, root: nat, highTag: bool, tables: Memory, supply: seq<Option<nat>>,
                     ghost places: map<nat, Place>, ghost orphans: set<nat>)
      requires root % PageBytes(ps) == 0 && root > 0
      requires TreeOk(ps, tables, places, root) && Links(tables, places, root, orphans)
      requires Fresh(ps, supply, tables.Keys)
      ensures Valid() && this.ps == ps && this.root == root && this.highTag == highTag
      ensures this.tables == tables && this.supply == supply && this.orphans == orphans
    {
      this.ps, this.root, this.highTag := ps, root, highTag;
      this.tables, this.supply := tables, supply;
      this.places, this.orphans, taken := places, orphans, tables.Keys;
    }

    /** `allocate_zeroed(1)`. */
    method AllocateZeroed() returns (page: Option<nat>)
      requires Valid()
      modifies this`supply, this`taken
      ensures Holding(if page.Some? then {page.value} else {})
      ensures page == if old(supply) == [] then None else old(supply)[0]
      ensures supply == if old(supply) == [] then [] else old(supply)[1..]
      ensures page.Some? ==>
                && page.value !in tables && page.value % PageBytes(ps) == 0 && page.value < ADDRESS_LIMIT
                && forall k :: 0 <= k < |supply| && supply[k].Some? ==> supply[k].value != page.value
    {
      hide TreeOk, Links;
      page := None;
      if supply != [] {
        page := supply[0];
        supply := supply[1..];
        if page.Some? { taken := taken + {page.value}; }
      }
    }

    /** `next_table_for_entry` for entry `index` of table `t`. */
    method NextTable(level: nat, t: nat, index: nat, address: nat, create: bool) returns (r: Outcome, next: nat)
      requires Valid() && t in tables && index < Entries(ps) && level == places[t].level <= 2
      requires OnPath(ps, tables, root, t, places[t]) && Reached(t)
      modifies this
      ensures Valid() && t in tables && places[t] == old(places[t])
      ensures Above(old(tables), old(places), tables, places, level)
      ensures forall v :: 0 <= v < ADDRESS_LIMIT ==> Lookup(ps, tables, root, v) == old(Lookup(ps, tables, root, v))
      ensures OnPath(ps, tables, root, t, places[t]) && Reached(t)
      ensures r.Ok? ==> next in tables && places[next] == ChildPlace(ps, places[t], index)
                        && OnPath(ps, tables, root, next, places[next]) && Reached(next)
      ensures old(|tables[t]|) == Entries(ps)
      ensures orphans == old(orphans)
      ensures match old(Decode(tables[t][index], level))
              case Table(c) => r.Ok? && next == c && tables == old(tables) && supply == old(supply)
              case Empty =>
                if !create then r == Err(NotMapped(address)) && supply == old(supply)
                else if Avail(old(supply)) == 0 then r == Err(Allocator) && supply == Drawn(old(supply), 1)
                else r.Ok? && next == old(supply)[0].value && supply == old(supply)[1..] && next !in old(tables)
                     && next % 0x1000 == 0 && next < ADDRESS_LIMIT
                     && tables == AddTable(ps, old(tables), t, index, next)
              case Invalid => false
              case _ => r == Err(AlreadyMapped(address)) && supply == old(supply)
      ensures !r.Ok? ==> tables == old(tables) && places == old(places)
    {
      hide Decode, ForTable, Lookup, IndexForLevel, TableOf, Walk, TableNumber, Links, AddTable, TableAt, OnPath;
      r, next := Ok, 0;
      assert TableOk(ps, places, places[t], tables[t]);
      assert EntryOk(ps, places, places[t], index, tables[t][index]);
      match Decode(tables[t][index], level) {
        case Empty =>
          if create {
            var page := AllocateZeroed();
            if page.Some? {
              next := page.value;
              PageMultiple(ps, next);
              GrowTree(ps, tables, places, root, orphans, t, index, next);
              GrowReached(ps, tables, places, root, t, index, next);
              places := places[next := ChildPlace(ps, places[t], index)];
              tables := AddTable(ps, tables, t, index, next);
            } else {
              r := Err(Allocator);
            }
          } else {
            r := Err(NotMapped(address));
          }
        case Table(c) =>
          next := c;
          ChildReached(ps, tables, root, places[t], index, t, c);
          AtIsOnPath(ps, tables, root, c, places[c]);
        case Block(_) => r := Err(AlreadyMapped(address));
        case Page(_) => r := Err(AlreadyMapped(address));
        case Invalid => assert false;
      }
    }

    /** `Walker::step` at the end level: the callback on `count` consecutive entries of table `t`. */
    method LeafStep(size: MapBlockSize, op: Operation, t: nat, vs: nat, phys: nat, count: nat, ghost s: Setting,
                    ghost seen: set<nat>)
      returns (r: Outcome)
      requires Valid() && Supported(ps, size) && t in tables && places[t].level == EndLevel(size)
      requires OnPath(ps, tables, root, t, places[t]) && Reached(t) && phys % 0x1000 == 0
      requires s.ps == ps && s.root == root && s.size == size && Overwrote(s, tables, orphans, seen)
      modifies this`tables, this`orphans
      ensures Valid() && Above(old(tables), places, tables, places, EndLevel(size))
      ensures OnPath(ps, tables, root, t, places[t]) && Reached(t)
      ensures var p := PlanTable(ps, size, EndLevel(size), places[t].number, vs, count);
              && Effect(ps, size, op, root, old(tables), tables, p.visits, phys, |p.visits|)
              && Overwrote(s, tables, orphans, seen + Seen(p.visits))
              && if p.panics then r.Panic? && tables == old(tables) && orphans == old(orphans)
                 else r.Ok? && |p.visits| == count
    {
      hide Decode, LeafEntry, Lookup, IndexForLevel, EntryNumber, BlockBytes, Skip, Translated, Child,
           Walk, TableOf, TableNumber, Effect, Overwrote, Reached, Valid, OnPath, PlanTable, Seen;
      Recorded();
      LeafPlan(ps, size, places[t].number, vs, count);
      var level, start := EndLevel(size), IndexForLevel(ps, vs, EndLevel(size));
      ghost var visits := PlanTable(ps, size, level, places[t].number, vs, count).visits;
      EffectNone(ps, size, op, root, tables, tables, visits, phys);
      SeenNone(seen, visits);
      if start + count > Entries(ps) { return Panic; }
      for i := 0 to count
        invariant Valid() && tables.Keys == old(tables.Keys)
        invariant Above(old(tables), places, tables, places, level)
        invariant OnPath(ps, tables, root, t, places[t]) && Reached(t)
        invariant Effect(ps, size, op, root, old(tables), tables, visits, phys, i)
        invariant Overwrote(s, tables, orphans, seen + Seen(visits[..i]))
      {
        var address := Skip(ps, size, phys, i);
        SkipAligned(ps, size, phys, i);
        LeafVisit(ps, size, places[t].number, vs, count, i);
        WriteLeaf(size, op, t, start + i, address, phys, visits, i, old(tables), s, seen);
      }
      SeenAll(visits);
      r := Ok;
    }

    /** One call of the callback. */
    method WriteLeaf(size: MapBlockSize, op: Operation, t: nat, index: nat, address: nat,
                     ghost phys: nat, ghost visits: seq<nat>, ghost i: nat, ghost before: Memory,
                     ghost s: Setting, ghost seen: set<nat>)
      requires Valid() && Supported(ps, size) && t in tables && places[t].level == EndLevel(size)
      requires OnPath(ps, tables, root, t, places[t]) && Reached(t) && index < Entries(ps)
      requires s.ps == ps && s.root == root && s.size == size
      requires i < |visits| && visits[i] == Child(ps, EndLevel(size), places[t].number, index)
      requires visits[i] !in visits[..i]
      requires address == Skip(ps, size, phys, i) && address % 0x1000 == 0
      requires Effect(ps, size, op, root, before, tables, visits, phys, i)
      requires Overwrote(s, tables, orphans, seen + Seen(visits[..i]))
      modifies this`tables, this`orphans
      ensures Valid() && tables.Keys == old(tables.Keys) && old(|tables[t]|) == Entries(ps)
      ensures orphans == match old(Decode(tables[t][index], EndLevel(size)))
                         case Table(c) => old(orphans) + {c}
                         case _ => old(orphans)
      ensures Above(old(tables), places, tables, places, EndLevel(size))
      ensures OnPath(ps, tables, root, t, places[t]) && Reached(t)
      ensures Effect(ps, size, op, root, before, tables, visits, phys, i + 1)
      ensures Overwrote(s, tables, orphans, seen + Seen(visits[..i + 1]))
    {
      hide Decode, LeafEntry, Lookup, IndexForLevel, EntryNumber, BlockBytes, Skip, Translated,
           Walk, TableOf, TableNumber, Effect, Links, Overwrote, TableAt;
      assert |tables[t]| == Entries(ps) by { assert TableOk(ps, places, places[t], tables[t]); }
      assert EntryOk(ps, places, places[t], index, tables[t][index]) by {
        assert TableOk(ps, places, places[t], tables[t]);
      }
      LeafDecode(ps, size, op, address);
      LinksLeaf(tables, places, root, orphans, t, index, LeafEntry(size, op, address));
      OverwroteLeaf(s, tables, places, orphans, t, index, LeafEntry(size, op, address), seen + Seen(visits[..i]));
      SeenOne(seen, visits, i);
      match Decode(tables[t][index], EndLevel(size)) {
        case Table(c) => orphans := orphans + {c};
        case _ =>
      }
      LeafWrite(ps, size, op, tables, places, root, t, index, address);
      tables := Write(tables, t, index, LeafEntry(size, op, address));
      OnPathFrame(ps, old(tables), places, tables, places, root, t, places[t]);
      EffectSnoc(ps, size, op, root, before, old(tables), tables, visits, phys, i);
    }

    /** The tables at `level` and below have changed since `m0` and `p0`, and the tree is in order. */
    ghost predicate Changed(level: nat, t: nat, m0: Memory, p0: map<nat, Place>)
      reads this
    {
      && Valid() && tables.Keys == places.Keys && m0.Keys == p0.Keys
      && t in p0 && t in tables && places[t] == p0[t] && p0[t].level == level <= 3
      && Above(m0, p0, tables, places, level)
      && OnPath(ps, tables, root, t, places[t]) && Reached(t)
    }

    /**
     What `step` has done with `count` blocks, below table `t`, that it plans to visit by `plan`: the first `done`,
     which are all of them unless there is an error or, in the middle of the plan, a panic.
     */
    ghost predicate Stepped(size: MapBlockSize, op: Operation, level: nat, t: nat, plan: Plan, phys: nat, count: nat,
                            r: Outcome, done: nat, m0: Memory, p0: map<nat, Place>)
      reads this
    {
      && Changed(level, t, m0, p0)
      && done <= |plan.visits| && Effect(ps, size, op, root, m0, tables, plan.visits, phys, done)
      && match r
         case Ok => !plan.panics && done == |plan.visits| == count
         case Err(e) => done < count
         case Panic => plan.panics && done == |plan.visits|
    }

    /**
     `Walker::step`. `tag` is the part of the virtual address above bit 47. Of a walk that started in setting `s`,
     the tables in the places `made` are there before and `now` after this part.
     */
    method Step(size: MapBlockSize, op: Operation, level: nat, t: nat, tag: nat, vs: nat, phys: nat, count: nat,
                ghost s: Setting, ghost made: set<Place>, ghost seen: set<nat>)
      returns (r: Outcome, ghost done: nat, ghost now: set<Place>)
      requires Valid() && Supported(ps, size) && t in tables && places[t].level == level <= EndLevel(size)
      requires OnPath(ps, tables, root, t, places[t]) && Reached(t) && phys % 0x1000 == 0 && count > 0
      requires Tracked(s, made) && s.size == size && s.op == op && Overwrote(s, tables, orphans, seen)
      modifies this
      ensures var plan := PlanTable(ps, size, level, old(places[t]).number, vs, count);
              && Stepped(size, op, level, t, plan, phys, count, r, done, old(tables), old(places))
              && s.Judged(plan, tag + vs, made, now, r, done)
              && Overwrote(s, tables, orphans, seen + Seen(plan.visits[..done]))
      ensures Ended(s, now, r)
      decreases EndLevel(size) - level, 1
    {
      hide Decode, Lookup, IndexForLevel, EntryNumber, BlockBytes, Skip, Translated, Walk, TableOf, TableNumber, Effect,
           TableAt, Setting.Judged, Tracks, Avail, Overwrote;
      if level < EndLevel(size) {
        r, done, now := StepEntries(size, op, level, t, tag, vs, phys, count, s, made, seen);
      } else {
        ghost var plan := PlanTable(ps, size, level, places[t].number, vs, count);
        r := LeafStep(size, op, t, vs, phys, count, s, seen);
        done, now := |plan.visits|, made;
        SeenAll(plan.visits);
        LeafEnds(s, made, old(tables), t, vs, count, tag + vs, done);
      }
    }

    /** After the callbacks the walk is where it was. */
    lemma LeafEnds(s: Setting, made: set<Place>, m0: Memory, t: nat, vs: nat, count: nat, at: nat, done: nat)
      requires Valid() && Supported(ps, s.size) && t in places && places[t].level == EndLevel(s.size) && Reached(t)
      requires s.ps == ps && s.root == root && Tracks(s, m0, made, Avail(supply)) && supply == Drawn(s.supply, |made|)
      requires TreeOk(ps, m0, places, root) && Above(m0, places, tables, places, EndLevel(s.size))
      ensures var plan := PlanTable(ps, s.size, EndLevel(s.size), places[t].number, vs, count);
              s.Judged(plan, at, made, made, if plan.panics then Panic else Ok, done)
      ensures Tracked(s, made)
    {
      hide Decode, PlanTable, TableAt, Setting.Judged, Grew, Avail, First, Between, Links, SupplyOk, TableOk, Above;
      GrewFrame(s, m0, places, tables, places, made);
      PlanTableBounds(ps, s.size, EndLevel(s.size), places[t].number, vs, count);
      LeafJudged(s, tables, made, Avail(supply), places[t].number,
                 PlanTable(ps, s.size, EndLevel(s.size), places[t].number, vs, count), at, done);
    }

    /** The state of the loop of `step` before entry `index`. */
    ghost predicate Before(size: MapBlockSize, op: Operation, level: nat, t: nat, index: nat, vs: nat, phys: nat,
                           count: nat, plan: Plan, pre: seq<nat>, m0: Memory, p0: map<nat, Place>)
      requires Supported(ps, size) && level < EndLevel(size)
      reads this
    {
      && Changed(level, t, m0, p0)
      && Progress(ps, size, op, root, level, p0[t].number, index, vs, phys, count, plan, pre, m0, tables)
    }

    lemma BeforeStart(size: MapBlockSize, op: Operation, level: nat, t: nat, vs: nat, phys: nat, count: nat)
      requires Valid() && Supported(ps, size) && t in tables && places[t].level == level < EndLevel(size)
      requires OnPath(ps, tables, root, t, places[t]) && Reached(t)
      ensures Before(size, op, level, t, IndexForLevel(ps, vs, level), vs, phys, count,
                     PlanTable(ps, size, level, places[t].number, vs, count), [], tables, places)
    {
      hide Lookup, IndexForLevel, Skip, Effect, PlanEntries, OnPath, Reached, Valid, Child, First;
      Recorded();
      EffectNone(ps, size, op, root, tables, tables, [], phys);
      SkipNone(ps, size, vs);
    }

    /** The loop of `step` above the end level. */
    method StepEntries(size: MapBlockSize, op: Operation, level: nat, t: nat, tag: nat, vs: nat, phys: nat, count: nat,
                       ghost s: Setting, ghost made: set<Place>, ghost seen: set<nat>)
      returns (r: Outcome, ghost done: nat, ghost now: set<Place>)
      requires Valid() && Supported(ps, size) && t in tables && t in places && places[t].level == level < EndLevel(size)
      requires OnPath(ps, tables, root, t, places[t]) && Reached(t) && phys % 0x1000 == 0 && count > 0
      requires Tracked(s, made) && s.size == size && s.op == op && Overwrote(s, tables, orphans, seen)
      modifies this
      ensures var plan := PlanTable(ps, size, level, old(places[t]).number, vs, count);
              && Stepped(size, op, level, t, plan, phys, count, r, done, old(tables), old(places))
              && s.Judged(plan, tag + vs, made, now, r, done)
              && Overwrote(s, tables, orphans, seen + Seen(plan.visits[..done]))
      ensures Ended(s, now, r)
      decreases EndLevel(size) - level, 0, count + 1
    {
      hide Before, Stepped, Changed, OnPath, Valid, PlanTable, IndexForLevel, Reached, Tracked, Grew, Setting.Judged,
           Passed, Overwrote;
      ghost var plan := PlanTable(ps, size, level, places[t].number, vs, count);
      BeforeStart(size, op, level, t, vs, phys, count);
      PassedNone(s, made);
      var index, num := IndexForLevel(ps, vs, level), 0;
      ghost var pre: seq<nat> := [];
      SeenNone(seen, pre);
      r, done, now := Ok, 0, made;
      while num < count
        invariant num == |pre| <= count && 0 <= index && Overwrote(s, tables, orphans, seen + Seen(pre))
        invariant Before(size, op, level, t, index, vs, phys, count, plan, pre, old(tables), old(places))
        invariant Passed(s, made, pre, now) && Tracked(s, now)
      {
        var c;
        r, done, c, now := StepEntry(size, op, level, t, index, tag, vs, phys, count, num, plan, pre,
                                     old(tables), old(places), s, made, now, seen);
        if !r.Ok? { return; }
        pre := plan.visits[..num + c];
        index, num := index + 1, num + c;
      }
      BeforeEnd(size, op, level, t, index, tag, vs, phys, count, plan, pre, old(tables), old(places), s, made, now);
      SeenAll(pre);
      r, done := Ok, num;
    }

    lemma BeforeEnd(size: MapBlockSize, op: Operation, level: nat, t: nat, index: nat, tag: nat, vs: nat, phys: nat,
                    count: nat, plan: Plan, pre: seq<nat>, m0: Memory, p0: map<nat, Place>,
                    s: Setting, made: set<Place>, now: set<Place>)
      requires Supported(ps, size) && level < EndLevel(size) && |pre| == count
      requires Before(size, op, level, t, index, vs, phys, count, plan, pre, m0, p0) && Passed(s, made, pre, now)
      ensures Stepped(size, op, level, t, plan, phys, count, Ok, count, m0, p0)
      ensures s.Judged(plan, tag + vs, made, now, Ok, count) && plan.visits == pre
    {
      assert t in p0;
      hide Changed, Effect, PlanEntries, Skip, Setting.MissingAll, Setting.Stops;
      PlanDone(ps, size, level, p0[t].number, index, Skip(ps, size, vs, count));
      assert plan.visits == pre == plan.Walks();
    }

    /** One iteration of that loop: the table below entry `index`, and the `c` blocks it takes. */
    method StepEntry(size: MapBlockSize, op: Operation, level: nat, t: nat, index: nat, tag: nat, vs: nat, phys: nat,
                     count: nat, num: nat, ghost plan: Plan, ghost pre: seq<nat>,
                     ghost m0: Memory, ghost p0: map<nat, Place>,
                     ghost s: Setting, ghost made: set<Place>, ghost was: set<Place>, ghost seen: set<nat>)
      returns (r: Outcome, ghost done: nat, c: nat, ghost now: set<Place>)
      requires Supported(ps, size) && level < EndLevel(size) && phys % 0x1000 == 0 && num == |pre| < count
      requires Before(size, op, level, t, index, vs, phys, count, plan, pre, m0, p0)
      requires Passed(s, made, pre, was) && Tracked(s, was) && s.size == size && s.op == op
      requires Overwrote(s, tables, orphans, seen + Seen(pre))
      modifies this
      ensures Ended(s, now, r)
      ensures !r.Ok? ==> && Stepped(size, op, level, t, plan, phys, count, r, done, m0, p0)
                         && s.Judged(plan, tag + vs, made, now, r, done)
                         && Overwrote(s, tables, orphans, seen + Seen(plan.visits[..done]))
      ensures r.Ok? ==>
                && 0 < c <= count - num && num + c <= |plan.visits|
                && Before(size, op, level, t, index + 1, vs, phys, count, plan, plan.visits[..num + c], m0, p0)
                && Passed(s, made, plan.visits[..num + c], now)
                && Overwrote(s, tables, orphans, seen + Seen(plan.visits[..num + c]))
      decreases EndLevel(size) - level, 0, count - num
    {
      hide Effect, Progress, PlanTable, PlanEntries, Chunk, Skip, Child, Above, OnPath, Valid, IndexForLevel, Reached,
           Tracks, Grew, Setting.Judged, Passed, Overwrote;
      ghost var number := p0[t].number;
      var at := Skip(ps, size, vs, num);
      ProgressRest(ps, size, op, root, level, number, index, vs, phys, count, plan, pre, m0, tables);
      PlanUnfold(ps, size, level, number, index, at, count - num);
      if index >= Entries(ps) {
        PanicJudged(s, plan, tag + vs, pre, made, was);
        SeenAll(pre);
        assert plan.visits == pre;
        return Panic, num, 0, was;
      }
      HereParts(ps, size, level, number, index, vs, count, plan, pre);
      c := Chunk(ps, size, level, at, count - num);
      ghost var m1, p1 := tables, places;
      SkipAligned(ps, size, phys, num);
      r, done, now := Descend(size, op, level, t, index, tag, at, Skip(ps, size, phys, num), c, s, was,
                              seen + Seen(pre));
      AboveTrans(m0, p0, m1, p1, tables, places, level, level);
      SkipFrom(ps, size, tag, vs, num);
      ghost var here := Here(ps, size, level, number, index, vs, count, num);
      NextJudged(s, plan, tag + vs, pre, here, made, was, now, r, done);
      SeenParts(seen, plan.visits, pre, here.visits, done);
      if !r.Ok? {
        ProgressEffect(ps, size, op, root, level, number, index, vs, phys, count, plan, pre, m0, m1, tables, done);
      } else {
        ProgressNext(ps, size, op, root, level, number, index, vs, phys, count, plan, pre, m0, m1, tables, c);
      }
      done := num + done;
    }

    /** The table below entry `index` and the walk through it. */
    method Descend(size: MapBlockSize, op: Operation, level: nat, t: nat, index: nat, tag: nat, vs: nat, phys: nat,
                   count: nat, ghost s: Setting, ghost made: set<Place>, ghost seen: set<nat>)
      returns (r: Outcome, ghost done: nat, ghost now: set<Place>)
      requires Valid() && Supported(ps, size) && t in tables && places[t].level == level < EndLevel(size)
      requires OnPath(ps, tables, root, t, places[t]) && Reached(t)
      requires phys % 0x1000 == 0 && count > 0 && index < Entries(ps)
      requires Tracked(s, made) && s.size == size && s.op == op && Overwrote(s, tables, orphans, seen)
      modifies this
      ensures var plan := PlanTable(ps, size, level + 1, Child(ps, level, old(places[t]).number, index), vs, count);
              && Stepped(size, op, level, t, plan, phys, count, r, done, old(tables), old(places))
              && s.Judged(plan, tag + vs, made, now, r, done)
              && Overwrote(s, tables, orphans, seen + Seen(plan.visits[..done]))
      ensures Ended(s, now, r)
      decreases EndLevel(size) - level - 1, 2
    {
      hide Decode, Lookup, IndexForLevel, EntryNumber, BlockBytes, Skip, Translated, Walk, TableOf, TableNumber,
           Effect, PlanTable, OnPath, Above, Child, Links, SupplyOk, TableOk, TableAt, AddTable, Setting.Judged,
           Tracks, Avail, Between, First, Grew, Overwrote, Drawn, Setting.Missing, Setting.Blocked;
      ghost var number := places[t].number;
      ghost var child := Child(ps, level, number, index);
      ghost var plan := PlanTable(ps, size, level + 1, child, vs, count);
      PlanTableBounds(ps, size, level + 1, child, vs, count);
      RootNumber(ps, tables, places, root, t);
      var next;
      r, next := NextTable(level, t, index, tag + vs, op.MapTo?);
      if !r.Ok? {
        done, now := 0, made;
        SeenNone(seen, plan.visits);
        EffectNone(ps, size, op, root, old(tables), tables, plan.visits, phys);
        TracksGrew(s, tables, made, Avail(old(supply)));
        DrawnMore(s.supply, |made|);
        StopJudged(s, tables, made, Avail(old(supply)), level, number, index, t, plan, tag + vs);
        return;
      }
      ghost var m1, p1 := tables, places;
      ghost var grew := old(Decode(tables[t][index], level)).Empty?;
      now := made;
      if grew {
        Enter(s, old(tables), made, old(supply), old(places), old(orphans), t, index, next, seen, plan);
        now := made + {ChildPlace(ps, p1[t], index)};
      }
      ghost var mid := now;
      r, done, now := Step(size, op, level + 1, next, tag, vs, phys, count, s, mid, seen);
      AboveTrans(old(tables), old(places), m1, p1, tables, places, level, level + 1);
      AboveLower(m1, p1, tables, places, level, level + 1);
      OnPathFrame(ps, m1, p1, tables, places, root, t, p1[t]);
      ReachedFrame(ps, m1, p1, tables, places, root, t);
      EffectAfter(ps, size, op, root, old(tables), m1, tables, plan.visits, phys, done);
      if grew { GrownJudged(s, plan, tag + vs, made, ChildPlace(ps, p1[t], index), now, r, done); }
    }

    // ---------------------------------------------------------------- the operations

    /** What an accepted request has done: `done` of its blocks, all of them unless there is an error. */
    ghost predicate Did(size: MapBlockSize, op: Operation, v: nat, phys: nat, count: nat, r: Outcome, done: nat,
                        before: Memory)
      reads this
    {
      && done <= count && !r.Panic? && (r.Ok? <==> done == count)
      && forall p :: 0 <= p < WORD_LIMIT && IsHigh(p) == highTag ==>
           Translate(ps, highTag, root, tables, p)
           == if Covers(ps, size, v, done, p) then Desired(size, op, phys, p % ADDRESS_LIMIT - v % ADDRESS_LIMIT)
              else Translate(ps, highTag, root, before, p)
    }

    /** Where a walk starts from. */
    ghost function Start(size: MapBlockSize, op: Operation): Setting
      reads this
    {
      Setting(ps, size, op, root, tables, supply, orphans)
    }

    ghost function View(): State
      reads this
    {
      State(tables, supply, orphans)
    }

    /** What a request that started from `s` has done, in the tables and in their meaning. */
    ghost predicate Answered(s: Setting, v: nat, phys: nat, count: nat, r: Outcome, done: nat, p0: map<nat, Place>)
      reads this
    {
      && Follows(highTag, s, v, phys, count, r, done, View())
      && (Refusal(s.ps, highTag, s.size, v, phys, count).None? ==>
            && Stepped(s.size, s.op, 0, root, PlanTable(s.ps, s.size, 0, 0, v % ADDRESS_LIMIT, count), phys, count, r,
                       done, s.m, p0)
            && (Proper(s.ps, s.size, v, phys, count) ==> Did(s.size, s.op, v, phys, count, r, done, s.m)))
    }

    lemma AtRoot(size: MapBlockSize, op: Operation)
      requires Valid()
      ensures root in tables && places[root] == Place(0, 0) && OnPath(ps, tables, root, root, places[root])
              && Reached(root)
      ensures Tracked(Start(size, op), {}) && Overwrote(Start(size, op), tables, orphans, {})
    {
      hide Links, SupplyOk, TableOk, Grew, Avail, OnPath, Overwrote;
      RootOnPath(ps, tables, root);
      GrewNothing(Start(size, op));
      OverwroteNothing(Start(size, op));
      DrawnMore(supply, 0);
    }

    /** The walk from the root on. */
    method WalkAll(size: MapBlockSize, op: Operation, tag: nat, low: nat, phys: nat, count: nat)
      returns (r: Outcome, ghost done: nat)
      requires Valid() && Supported(ps, size) && phys % 0x1000 == 0 && count > 0
      modifies this
      ensures Valid()
      ensures var s, plan := old(Start(size, op)), PlanTable(ps, size, 0, 0, low, count);
              && Stepped(size, op, 0, root, plan, phys, count, r, done, old(tables), old(places))
              && Walked(s, plan, tag + low, r, done, View())
    {
      hide Lookup, Links, SupplyOk, PlanTable, Effect, TableOk, BlockBytes, Skip, Tracks, Avail, OnPath,
           Reached, Grew, Made, Overwrote, Setting.Judged, Setting.Verdict, Setting.FirstStop;
      AtRoot(size, op);
      ghost var s, plan, now := Start(size, op), PlanTable(ps, size, 0, 0, low, count), {};
      r, done, now := Step(size, op, 0, root, tag, low, phys, count, s, {}, {});
      OneVerdict(s, plan, tag + low, now, r, done);
      if !r.Err? { TracksGrew(s, tables, now, Avail(supply)); }
      MadeSo(s, tables, supply, plan, tag + low, r, done, now);
      assert {} + Seen(plan.visits[..done]) == Seen(plan.visits[..done]);
    }

    /** `for_each_entry_of_size` behind the tag check of `map` and `unmap`. */
    method ForEachEntry(size: MapBlockSize, op: Operation, v: nat, phys: nat, count: nat)
      returns (r: Outcome, ghost done: nat)
      requires Valid() && v < WORD_LIMIT
      modifies this
      ensures Valid()
      ensures Answered(old(Start(size, op)), v, phys, count, r, done, old(places))
    {
      hide Lookup, Valid, PlanTable, Fits, Effect, BlockBytes, Skip, Cover, Did, Changed, Walked, Avail;
      done := 0;
      if IsHigh(v) != highTag { return Err(InvalidTag(v)), 0; }
      if !Supported(ps, size) { return Panic, 0; }
      if !(count > 0 && count * LengthInPages(size, ps).value < ADDRESS_LIMIT) { return Err(InvalidCount), 0; }
      var w := BlockBytes(ps, size);
      if v % w != 0 { return Err(InvalidAlignment(v)), 0; }
      if phys % w != 0 { return Err(InvalidAlignment(phys)), 0; }
      PageAligned(ps, size, phys);
      var low := v % ADDRESS_LIMIT;
      r, done := WalkAll(size, op, v - low, low, phys, count);
      if Proper(ps, size, v, phys, count) {
        ghost var b := low / w;
        LowBlock(ps, size, v);
        FitsInside(ps, size, b, count);
        FitsExactly(ps, size, b, count);
        DidRange(size, op, v, b, phys, count, r, done, old(tables), old(places));
      }
    }

    lemma DidRange(size: MapBlockSize, op: Operation, v: nat, b: nat, phys: nat, count: nat, r: Outcome, done: nat,
                   m0: Memory, p0: map<nat, Place>)
      requires Supported(ps, size) && count > 0 && v % ADDRESS_LIMIT == Skip(ps, size, 0, b)
      requires Skip(ps, size, phys, count) <= ADDRESS_LIMIT
      requires Stepped(size, op, 0, root, Plan(Consecutive(b, count), false, []), phys, count, r, done, m0, p0)
      ensures Did(size, op, v, phys, count, r, done, m0)
    {
      hide Lookup, Changed, Effect, BlockBytes, Skip;
      RangeEffect(ps, size, op, root, m0, tables, b, count, phys, done);
    }

    /** `PageTables::map`. */
    method Map(v: nat, phys: nat, count: nat, size: MapBlockSize, properties: MemoryProperties)
      returns (r: Outcome, ghost done: nat)
      requires Valid() && v < WORD_LIMIT
      modifies this
      ensures Valid()
      ensures Answered(old(Start(size, MapTo(properties))), v, phys, count, r, done, old(places))
    {
      r, done := ForEachEntry(size, MapTo(properties), v, phys, count);
    }

    /** `PageTables::unmap`. */
    method Unmap(v: nat, count: nat, size: MapBlockSize) returns (r: Outcome, ghost done: nat)
      requires Valid() && v < WORD_LIMIT
      modifies this
      ensures Valid()
      ensures Answered(old(Start(size, Operation.Unmap)), v, 0, count, r, done, old(places))
    {
      r, done := ForEachEntry(size, Operation.Unmap, v, 0, count);
    }

    /** `physical_address_of`: neither the panic of `decode` nor the unknown offset mask is reached. */
    method PhysicalAddressOf(p: nat) returns (r: Option<nat>)
      requires Valid() && p < WORD_LIMIT
      ensures r == match Translate(ps, highTag, root, tables, p) case None => None case Some(to) => Some(to.address)
    {
      hide Decode, IndexForLevel, Links, SupplyOk;
      if IsHigh(p) != highTag { return None; }
      var level, table := 0, root;
      while level <= 3
        invariant 0 <= level <= 3 && table in tables && places[table].level == level
        invariant Walk(ps, tables, table, level, p % ADDRESS_LIMIT) == Lookup(ps, tables, root, p % ADDRESS_LIMIT)
        decreases 4 - level
      {
        var index := IndexForLevel(ps, p, level);
        LowBits(ps, p, level);
        assert TableOk(ps, places, places[table], tables[table]);
        assert EntryOk(ps, places, places[table], index, tables[table][index]);
        match Decode(tables[table][index], level) {
          case Empty => return None;
          case Table(next) =>
            assert TableOk(ps, places, places[next], tables[next]);
            table, level := next, level + 1;
          case Block(base) =>
            var size := OffsetRange(level);
            return Some(base + p % size);
          case Page(base) =>
            PageLevel(tables[table][index], level);
            var size := OffsetRange(level);
            return Some(base + p % size);
          case Invalid => assert false;
        }
      }
      r := None;
    }

    /** The offset mask plus one, where the lookup knows one. */
    method OffsetRange(level: nat) returns (n: nat)
      requires level == 3 || BlockLevel(ps, level)
      ensures n == EntryBytes(ps, level)
    {
      match ps {
        case FourKiB =>
          if level == 3 { return 0x1000; }
          if level == 2 { return 0x20_0000; }
          if level == 1 { return 0x4000_0000; }
          assert false;
        case SixteenKiB =>
          if level == 3 { return 0x4000; }
          if level == 2 { return 0x200_0000; }
          assert false;
      }
    }

    /** `drop_table`: `freed` are the pages given back to the allocator. */
    method DropTable(level: nat, t: nat) returns (freed: seq<nat>)
      requires Valid() && t in tables && places[t].level == level
      ensures freed == Dropped(tables, t, level)
      decreases 4 - level
    {
      hide Decode, Links, SupplyOk, EntryOk;
      assert TableOk(ps, places, places[t], tables[t]);
      freed := [];
      for i := 0 to Entries(ps)
        invariant freed == DroppedBelow(tables, t, level, i)
      {
        var d := Decode(tables[t][i], level);
        if d.Table? {
          PointsInside(ps, tables, places, root, t, i, d.address);
          var more := DropTable(level + 1, d.address);
          freed := freed + more;
        }
      }
      freed := freed + [t];
    }

    /** Dropping the `PageTables`. */
    method Drop() returns (freed: seq<nat>)
      requires Valid()
      ensures Distinct(freed) && forall page :: page in freed ==> page in taken
      ensures (forall page :: page in taken ==> page in freed) <==> orphans == {}
    {
      hide Links, SupplyOk, Distinct, Dropped;
      freed := DropTable(0, root);
      DropFreesOnce(ps, tables, places, root, orphans);
    }
  }

  /** `PageTables::empty`: nothing if the allocator has no page for the root. */
  method EmptyTables(ps: PageSize, supply: seq<Option<nat>>) returns (t: Option<Tables>)
    requires Fresh(ps, supply, {})
    ensures t.None? <==> Avail(supply) == 0
    ensures t.Some? ==>
              && fresh(t.value) && t.value.Valid() && t.value.ps == ps && !t.value.highTag
              && t.value.supply == supply[1..] && t.value.taken == {supply[0].value} && t.value.orphans == {}
              && forall p :: Translate(ps, false, t.value.root, t.value.tables, p) == None
  {
    hide Lookup;
    if supply == [] || supply[0].None? { return None; }
    var made := new Tables(ps, supply[0].value, supply[1..]);
    t := Some(made);
  }

  /** `from_existing`, for a valid root table whose tables came from the allocator; `None` is a panic. */
  method FromExisting(ps: PageSize, root: nat, highTag: bool, tables: Memory, supply: seq<Option<nat>>,
                      ghost places: map<nat, Place>, ghost orphans: set<nat>)
    returns (t: Option<Tables>)
    requires TreeOk(ps, tables, places, root) && Links(tables, places, root, orphans) && Fresh(ps, supply, tables.Keys)
    ensures t.None? <==> root == 0 || root % PageBytes(ps) != 0
    ensures t.Some? ==>
              && fresh(t.value) && t.value.Valid() && t.value.ps == ps && t.value.root == root
              && t.value.highTag == highTag
              && t.value.tables == tables && t.value.supply == supply && t.value.orphans == orphans
  {
    hide TreeOk, Links, Fresh;
    if root == 0 || root % PageBytes(ps) != 0 { return None; }
    var made := new Tables.Over(ps, root, highTag, tables, supply, places, orphans);
    t := Some(made);
  }

  lemma PageAligned(ps: PageSize, size: MapBlockSize, phys: nat)
    requires phys % BlockBytes(ps, size) == 0
    ensures phys % 0x1000 == 0
  {
    var w, k := BlockBytes(ps, size), BlockBytes(ps, size) / 0x1000;
    hide BlockBytes;
    Digits(phys, k, 0x1000, w);
  }

  lemma RootOnPath(ps: PageSize, m: Memory, root: nat)
    ensures OnPath(ps, m, root, root, Place(0, 0))
  {}

  lemma PageLevel(entry: nat, level: nat)
    requires Decode(entry, level).Page?
    ensures level == 3
  {}

  lemma FitsInside(ps: PageSize, size: MapBlockSize, b: nat, count: nat)
    requires Supported(ps, size) && Fits(ps, size, b, count)
    ensures b + count <= Radix(ps, 0) * Cover(ps, size, 0)
  {}
}
