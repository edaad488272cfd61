/** The recursive range walker, `map`, `unmap` and lookup of kernel_core/src/memory/page_table.rs. */
module PageWalker {
  import opened Common
  import opened Arithmetic
  import opened Bits
  import opened PageEntry
  import opened PageTree

  datatype MapError =
    | NotMapped(address: nat) | AlreadyMapped(address: nat) | Allocator
    | InvalidCount | InvalidTag(value: nat) | InvalidAlignment(value: nat)

  datatype Outcome = Ok | Err(error: MapError) | Panic

  /** What is written at the end level: leaves for consecutive blocks, or nothing. */
  datatype Operation = MapTo(properties: MemoryProperties) | Unmap

  predicate Supported(ps: PageSize, size: MapBlockSize) { LengthInPages(size, ps).Some? }

  function BlockBytes(ps: PageSize, size: MapBlockSize): (n: nat)
    ensures n > 0 && n % 0x1000 == 0
    ensures n == EntryBytes(ps, EndLevel(size))
  {
    EntryBytes(ps, EndLevel(size))
  }

  /** `number_of_blocks_per_entry_at_this_level`. */
  function CodedBlocks(ps: PageSize, size: MapBlockSize, level: nat): nat
    requires Supported(ps, size) && level <= 3
  {
    PagesPerEntry(ps, level) / LengthInPages(size, ps).value
  }

  /** `actual_blocks_in_next_level`. */
  function Chunk(ps: PageSize, size: MapBlockSize, level: nat, vs: nat, rem: nat): (c: nat)
    requires Supported(ps, size) && level < EndLevel(size) && rem > 0
    ensures 0 < c <= rem
  {
    var room := CodedBlocks(ps, size, level) - IndexForLevel(ps, vs, level + 1);
    if rem < room then rem else room
  }

  /** The address `n` blocks further on. */
  function Skip(ps: PageSize, size: MapBlockSize, vs: nat, n: nat): nat { vs + n * BlockBytes(ps, size) }

  // ---------------------------------------------------------------- what the walker visits

  /**
   The numbers of the end-level entries the walker passes to its callback, up to a panic if any. The walk to
   `probe` comes before a panic in its table.
   */
  datatype Plan = Plan(visits: seq<nat>, panics: bool, probe: seq<nat>) {
    /** The entries to whose tables the walker goes. */
    function Walks(): seq<nat> { visits + probe }
  }

  /** Entry `i` of table `number`, counted over the level: also the number of the table below it. */
  function Child(ps: PageSize, level: nat, number: nat, i: nat): nat { number * Radix(ps, level) + i }

  function Consecutive(first: nat, count: nat): (r: seq<nat>)
    ensures |r| == count && forall i :: 0 <= i < count ==> r[i] == first + i
  {
    seq(count, i => first + i)
  }

  function PlanTable(ps: PageSize, size: MapBlockSize, level: nat, number: nat, vs: nat, count: nat): Plan
    requires Supported(ps, size) && level <= EndLevel(size)
    decreases EndLevel(size) - level, 1, 0
  {
    var start := IndexForLevel(ps, vs, level);
    if level < EndLevel(size) then PlanEntries(ps, size, level, number, start, vs, count)
    else if start + count <= Entries(ps) then
      Plan(Consecutive(Child(ps, level, number, start), count), false, [])
    else Plan([], true, [Child(ps, level, number, start)])
  }

  function PlanEntries(ps: PageSize, size: MapBlockSize, level: nat, number: nat, index: nat, vs: nat, rem: nat): Plan
    requires Supported(ps, size) && level < EndLevel(size)
    decreases EndLevel(size) - level, 0, rem
  {
    if rem == 0 then Plan([], false, [])
    else if index >= Entries(ps) then Plan([], true, [])
    else
      var c := Chunk(ps, size, level, vs, rem);
      var here := PlanTable(ps, size, level + 1, Child(ps, level, number, index), vs, c);
      if here.panics then here
      else
        var later := PlanEntries(ps, size, level, number, index + 1, Skip(ps, size, vs, c), rem - c);
        Plan(here.visits + later.visits, later.panics, later.probe)
  }

  // ---------------------------------------------------------------- effect of a walk

  function LeafEntry(size: MapBlockSize, op: Operation, address: nat): nat
    requires address % 0x1000 == 0
  {
    match op
    case MapTo(p) => if size.SinglePage? then ForPage(address, p) else ForBlock(address, p)
    case Unmap => 0
  }

  /** The type bits of a leaf entry. */
  function LeafType(size: MapBlockSize): nat { if size.SinglePage? then 3 else 1 }

  /** The translation of an address at `offset` in a block written for physical address `address`. */
  function Translated(size: MapBlockSize, op: Operation, address: nat, offset: nat): Option<Mapping> {
    match op
    case MapTo(p) => Some(Mapping(address % ADDRESS_LIMIT + offset, WrittenAttributes(size, address, p)))
    case Unmap => None
  }

  /** Address bits from 48 up are stored among the attributes. */
  function WrittenAttributes(size: MapBlockSize, address: nat, p: MemoryProperties): Attributes {
    var a := LeafAttributes(LeafType(size), p);
    a.(high := Or(address / ADDRESS_LIMIT, a.high))
  }

  function Lookup(ps: PageSize, m: Memory, root: nat, v: nat): Option<Mapping> { Walk(ps, m, root, 0, v) }

  /** The first `done` visited entries translate to the operation's blocks. */
  ghost predicate Written(ps: PageSize, size: MapBlockSize, op: Operation, root: nat, m: Memory,
                          visits: seq<nat>, phys: nat, done: nat)
    requires done <= |visits|
  {
    forall i, v :: 0 <= i < done && 0 <= v < ADDRESS_LIMIT && EntryNumber(ps, v, EndLevel(size)) == visits[i] ==>
      Lookup(ps, m, root, v) == Translated(size, op, Skip(ps, size, phys, i), v % BlockBytes(ps, size))
  }

  /** An address of no such entry translates as before. */
  ghost predicate Kept(ps: PageSize, size: MapBlockSize, root: nat, m: Memory, m': Memory, visits: seq<nat>) {
    forall v :: 0 <= v < ADDRESS_LIMIT && EntryNumber(ps, v, EndLevel(size)) !in visits ==>
      Lookup(ps, m', root, v) == Lookup(ps, m, root, v)
  }

  /** What a walk that performed the operation on its first `done` visits has changed. */
  ghost predicate Effect(ps: PageSize, size: MapBlockSize, op: Operation, root: nat, m: Memory, m': Memory,
                         visits: seq<nat>, phys: nat, done: nat)
  {
    && done <= |visits|
    && Written(ps, size, op, root, m', visits, phys, done)
    && Kept(ps, size, root, m, m', visits[..done])
  }

  /** Every address that belongs to the table is looked up through it. */
  ghost predicate OnPath(ps: PageSize, m: Memory, root: nat, t: nat, place: Place)
    requires place.level <= 3
  {
    forall v :: 0 <= v < ADDRESS_LIMIT && TableNumber(ps, v, place.level) == place.number ==>
      TableOf(ps, m, root, 0, v, place.level) == Some(t)
  }

  /** Tables above `level` are as before, and no table is taken away or moved. */
  ghost predicate Above(m: Memory, places: map<nat, Place>, m': Memory, places': map<nat, Place>, level: nat)
    requires m.Keys == places.Keys && m'.Keys == places'.Keys
  {
    forall t :: t in m ==> t in m' && places'[t] == places[t] && (places[t].level < level ==> m'[t] == m[t])
  }

  /** A table that is on the path stays there while only tables at its level or below change. */
  lemma OnPathFrame(ps: PageSize, m: Memory, places: map<nat, Place>, m': Memory, places': map<nat, Place>,
                    root: nat, t: nat, place: Place)
    requires TreeOk(ps, m, places, root) && m'.Keys == places'.Keys
    requires place.level <= 3 && Above(m, places, m', places', place.level)
    requires OnPath(ps, m, root, t, place)
    ensures OnPath(ps, m', root, t, place)
  {
    forall v | 0 <= v < ADDRESS_LIMIT && TableNumber(ps, v, place.level) == place.number
      ensures TableOf(ps, m', root, 0, v, place.level) == Some(t)
    {
      TableOfFrame(ps, m, m', places, root, root, 0, v, place.level);
    }
  }

  /** The callback of `map` or `unmap` on one entry. */
  lemma LeafWrite(ps: PageSize, size: MapBlockSize, op: Operation, m: Memory, places: map<nat, Place>, root: nat,
                  t: nat, i: nat, address: nat)
    requires TreeOk(ps, m, places, root) && Supported(ps, size) && address % 0x1000 == 0
    requires t in m && places[t].level == EndLevel(size) && i < Entries(ps)
    requires OnPath(ps, m, root, t, places[t])
    ensures var m' := Write(m, t, i, LeafEntry(size, op, address));
            var n := places[t].number * Radix(ps, EndLevel(size)) + i;
            && TreeOk(ps, m', places, root)
            && forall v :: 0 <= v < ADDRESS_LIMIT ==>
                 Lookup(ps, m', root, v) == if EntryNumber(ps, v, EndLevel(size)) == n
                                            then Translated(size, op, address, v % BlockBytes(ps, size))
                                            else Lookup(ps, m, root, v)
  {
    hide Decode, LeafEntry, IndexForLevel, EntryBytes, EntryNumber, Walk, TableOf;
    var l, e := EndLevel(size), LeafEntry(size, op, address);
    var m', n := Write(m, t, i, e), places[t].number * Radix(ps, l) + i;
    LeafDecode(ps, size, op, address);
    WriteKeepsTree(ps, m, places, root, t, i, e);
    hide Write;
    forall v | 0 <= v < ADDRESS_LIMIT
      ensures Lookup(ps, m', root, v) == if EntryNumber(ps, v, l) == n
                                         then Translated(size, op, address, v % BlockBytes(ps, size))
                                         else Lookup(ps, m, root, v)
    {
      if EntryNumber(ps, v, l) == n { LeafLookup(ps, size, op, m, places, root, t, i, address, v); }
      else { WalkElsewhere(ps, m, places, root, t, i, e, root, 0, v); }
    }
  }

  lemma LeafDecode(ps: PageSize, size: MapBlockSize, op: Operation, address: nat)
    requires Supported(ps, size) && address % 0x1000 == 0
    ensures var e := LeafEntry(size, op, address);
            var d := Decode(e, EndLevel(size));
            match op
            case Unmap => d == Empty
            case MapTo(p) =>
              && d == (if size.SinglePage? then Page(address % ADDRESS_LIMIT) else Block(address % ADDRESS_LIMIT))
              && AttributesOf(e) == WrittenAttributes(size, address, p)
  {
    match op
    case Unmap =>
    case MapTo(p) =>
      hide Decode, Or;
      LeafDecodes(LeafType(size), address, p);
      if size.SinglePage? { PageRoundTrip(address, p); } else { BlockRoundTrip(address, EndLevel(size), p); }
  }

  lemma LeafLookup(ps: PageSize, size: MapBlockSize, op: Operation, m: Memory, places: map<nat, Place>, root: nat,
                   t: nat, i: nat, address: nat, v: nat)
    requires TreeOk(ps, m, places, root) && Supported(ps, size) && address % 0x1000 == 0
    requires t in m && places[t].level == EndLevel(size) && i < Entries(ps)
    requires OnPath(ps, m, root, t, places[t]) && v < ADDRESS_LIMIT
    requires EntryNumber(ps, v, EndLevel(size)) == places[t].number * Radix(ps, EndLevel(size)) + i
    ensures Lookup(ps, Write(m, t, i, LeafEntry(size, op, address)), root, v)
            == Translated(size, op, address, v % BlockBytes(ps, size))
  {
    hide Decode, LeafEntry, IndexForLevel, EntryBytes, EntryNumber, AttributesOf, WrittenAttributes;
    var l, e := EndLevel(size), LeafEntry(size, op, address);
    EntryUnique(ps, v, l, places[t].number, i);
    LeafDecode(ps, size, op, address);
    assert |m[t]| == Entries(ps) by { assert TableOk(ps, places, places[t], m[t]); }
    assert TableOf(ps, m, root, 0, v, l) == Some(t);
    WalkHere(ps, m, places, root, t, i, e, v);
    hide TreeOk, TableOf;
    assert Write(m, t, i, e)[t][i] == e;
    assert Walk(ps, Write(m, t, i, e), t, l, v) == Translated(size, op, address, v % BlockBytes(ps, size));
  }

  /** One more visited entry. */
  lemma EffectSnoc(ps: PageSize, size: MapBlockSize, op: Operation, root: nat, m: Memory, m1: Memory, m2: Memory,
                   visits: seq<nat>, phys: nat, done: nat)
    requires Effect(ps, size, op, root, m, m1, visits, phys, done) && done < |visits|
    requires visits[done] !in visits[..done]
    requires forall v :: 0 <= v < ADDRESS_LIMIT ==>
               Lookup(ps, m2, root, v) == if EntryNumber(ps, v, EndLevel(size)) == visits[done]
                                          then Translated(size, op, Skip(ps, size, phys, done),
                                                          v % BlockBytes(ps, size))
                                          else Lookup(ps, m1, root, v)
    ensures Effect(ps, size, op, root, m, m2, visits, phys, done + 1)
  {
    hide Lookup, EntryNumber, Translated, BlockBytes, Skip;
    assert visits[..done + 1] == visits[..done] + [visits[done]];
    forall i, v | 0 <= i < done + 1 && 0 <= v < ADDRESS_LIMIT && EntryNumber(ps, v, EndLevel(size)) == visits[i]
      ensures Lookup(ps, m2, root, v) == Translated(size, op, Skip(ps, size, phys, i), v % BlockBytes(ps, size))
    {
      if i < done { assert visits[..done][i] == visits[i]; }
    }
  }

  lemma SkipSkip(ps: PageSize, size: MapBlockSize, x: nat, n: nat, k: nat)
    ensures Skip(ps, size, Skip(ps, size, x, n), k) == Skip(ps, size, x, n + k)
  {
    var w := BlockBytes(ps, size);
    assert n * w + k * w == (n + k) * w;
  }

  lemma WrittenAppend(ps: PageSize, size: MapBlockSize, op: Operation, root: nat, m1: Memory, m2: Memory,
                      a: seq<nat>, b: seq<nat>, phys: nat, done: nat)
    requires done <= |b| && Written(ps, size, op, root, m1, a, phys, |a|)
    requires Written(ps, size, op, root, m2, b, Skip(ps, size, phys, |a|), done)
    requires Kept(ps, size, root, m1, m2, b[..done])
    requires forall i :: 0 <= i < |a| ==> a[i] !in b
    ensures Written(ps, size, op, root, m2, a + b, phys, |a| + done)
  {
    hide Lookup, EntryNumber, Translated, BlockBytes, Skip;
    var w := BlockBytes(ps, size);
    forall i, v | 0 <= i < |a| + done && 0 <= v < ADDRESS_LIMIT && EntryNumber(ps, v, EndLevel(size)) == (a + b)[i]
      ensures Lookup(ps, m2, root, v) == Translated(size, op, Skip(ps, size, phys, i), v % w)
    {
      if i < |a| {
        assert EntryNumber(ps, v, EndLevel(size)) == a[i];
      } else {
        assert EntryNumber(ps, v, EndLevel(size)) == b[i - |a|];
        SkipSkip(ps, size, phys, |a|, i - |a|);
      }
    }
  }

  /** The effect of one walk after another. */
  lemma EffectAppend(ps: PageSize, size: MapBlockSize, op: Operation, root: nat, m: Memory, m1: Memory, m2: Memory,
                     a: seq<nat>, b: seq<nat>, phys: nat, done: nat)
    requires Effect(ps, size, op, root, m, m1, a, phys, |a|)
    requires Effect(ps, size, op, root, m1, m2, b, Skip(ps, size, phys, |a|), done)
    requires forall i :: 0 <= i < |a| ==> a[i] !in b
    ensures Effect(ps, size, op, root, m, m2, a + b, phys, |a| + done)
  {
    hide Lookup, EntryNumber, Translated, BlockBytes, Skip, Written;
    WrittenAppend(ps, size, op, root, m1, m2, a, b, phys, done);
    assert (a + b)[..|a| + done] == a + b[..done] && a[..|a|] == a;
  }

  // ---------------------------------------------------------------- new tables

  function ZeroPage(ps: PageSize): seq<nat> { seq(Entries(ps), _ => 0) }

  /** `next_table_for_entry` on an empty entry: hang a zeroed table into it. */
  function AddTable(ps: PageSize, m: Memory, t: nat, i: nat, page: nat): Memory
    requires t in m && i < |m[t]| && page % 0x1000 == 0 && page != t
  {
    Write(m[page := ZeroPage(ps)], t, i, ForTable(page))
  }

  function ChildPlace(ps: PageSize, place: Place, i: nat): Place {
    Place(place.level + 1, Child(ps, place.level, place.number, i))
  }

  lemma AddTableKeepsTree(ps: PageSize, m: Memory, places: map<nat, Place>, root: nat, t: nat, i: nat, page: nat)
    requires TreeOk(ps, m, places, root) && t in m && i < Entries(ps) && places[t].level <= 2
    requires page !in m && page % 0x1000 == 0 && page < ADDRESS_LIMIT
    ensures |m[t]| == Entries(ps)
    ensures var places' := places[page := ChildPlace(ps, places[t], i)];
            && TreeOk(ps, m[page := ZeroPage(ps)], places', root)
            && TreeOk(ps, AddTable(ps, m, t, i, page), places', root)
            && Decode(ForTable(page), places[t].level) == Table(page)
  {
    hide Decode, ForTable;
    TableRoundTrip(page, places[t].level);
    assert page % ADDRESS_LIMIT == page;
    var m1, places' := m[page := ZeroPage(ps)], places[page := ChildPlace(ps, places[t], i)];
    assert TableOk(ps, places, places[t], m[t]);
    ZeroPageOk(ps, places', places'[page]);
    forall a | a in m1 ensures TableOk(ps, places', places'[a], m1[a]) {
      if a != page { MorePlacesOk(ps, places, page, places'[page], places[a], m[a]); }
    }
    WriteKeepsTree(ps, m1, places', root, t, i, ForTable(page));
  }

  lemma ZeroPageOk(ps: PageSize, places: map<nat, Place>, place: Place)
    requires 1 <= place.level <= 3
    ensures TableOk(ps, places, place, ZeroPage(ps))
  {}

  lemma MorePlacesOk(ps: PageSize, places: map<nat, Place>, page: nat, spot: Place, place: Place, entries: seq<nat>)
    requires TableOk(ps, places, place, entries) && page !in places
    ensures TableOk(ps, places[page := spot], place, entries)
  {
    hide Decode;
    forall j | 0 <= j < |entries| ensures EntryOk(ps, places[page := spot], place, j, entries[j]) {
      assert EntryOk(ps, places, place, j, entries[j]);
    }
  }

  lemma AddTableLookup(ps: PageSize, m: Memory, places: map<nat, Place>, root: nat, t: nat, i: nat, page: nat, v: nat)
    requires TreeOk(ps, m, places, root) && t in m && i < |m[t]| && places[t].level <= 2
    requires page !in m && page % 0x1000 == 0 && page < ADDRESS_LIMIT
    requires OnPath(ps, m, root, t, places[t]) && Decode(m[t][i], places[t].level) == Empty
    requires v < ADDRESS_LIMIT
    ensures Lookup(ps, AddTable(ps, m, t, i, page), root, v) == Lookup(ps, m, root, v)
  {
    hide Decode, IndexForLevel, EntryBytes, EntryNumber, ForTable;
    var l, m1 := places[t].level, m[page := ZeroPage(ps)];
    assert TableOk(ps, places, places[t], m[t]);
    AddTableKeepsTree(ps, m, places, root, t, i, page);
    var places' := places[page := ChildPlace(ps, places[t], i)];
    WalkAgrees(ps, m, m1, places, root, root, 0, v);
    var m2 := AddTable(ps, m, t, i, page);
    if EntryNumber(ps, v, l) == places[t].number * Radix(ps, l) + i {
      EntryUnique(ps, v, l, places[t].number, i);
      assert TableOf(ps, m, root, 0, v, l) == Some(t);
      WalkVia(ps, m, root, 0, v, l);
      TableOfFrame(ps, m, m1, places, root, root, 0, v, l);
      WalkHere(ps, m1, places', root, t, i, ForTable(page), v);
      EmptyWalk(ps, m2, page, l + 1, v);
    } else {
      WalkElsewhere(ps, m1, places', root, t, i, ForTable(page), root, 0, v);
    }
  }

  /** Nothing is mapped in a zeroed table. */
  lemma EmptyWalk(ps: PageSize, m: Memory, t: nat, level: nat, v: nat)
    requires t in m && m[t] == ZeroPage(ps) && level <= 3
    ensures Walk(ps, m, t, level, v) == None
  {}

  // ---------------------------------------------------------------- facts about plans

  /** How many end-level entries lie below one table at `level`. */
  function TableBlocks(ps: PageSize, size: MapBlockSize, level: nat): nat {
    var e := Entries(ps);
    match EndLevel(size) - level case 0 => e case 1 => e * e case 2 => e * e * e case _ => e * e * e * e
  }

  /** The first end-level entry below table `number` at `level`. */
  function First(ps: PageSize, size: MapBlockSize, level: nat, number: nat): nat {
    number * TableBlocks(ps, size, level)
  }

  lemma FirstGrows(ps: PageSize, size: MapBlockSize, level: nat, a: nat, b: nat)
    requires a <= b
    ensures First(ps, size, level, a) <= First(ps, size, level, b)
  {
    MulGrows(a, b, TableBlocks(ps, size, level));
  }

  lemma MulGrows(a: nat, b: nat, w: nat)
    requires a <= b
    ensures a * w <= b * w
  {}

  /** The entries of a table lie below it, the first at its start and the last before its end. */
  lemma BelowTable(ps: PageSize, size: MapBlockSize, level: nat, number: nat)
    requires Supported(ps, size) && 1 <= level < EndLevel(size)
    ensures First(ps, size, level, number) == First(ps, size, level + 1, Child(ps, level, number, 0))
    ensures First(ps, size, level, number + 1) == First(ps, size, level + 1, Child(ps, level, number, Entries(ps)))
  {
    var w, e := TableBlocks(ps, size, level + 1), Entries(ps);
    assert TableBlocks(ps, size, level) == e * w && Radix(ps, level) == e;
    assert (number * e) * w == number * (e * w);
    assert (number * e + e) * w == (number + 1) * (e * w);
  }

  ghost predicate Between(xs: seq<nat>, lo: nat, hi: nat) {
    forall i :: 0 <= i < |xs| ==> lo <= xs[i] < hi
  }

  lemma BetweenAppend(a: seq<nat>, b: seq<nat>, lo: nat, x: nat, y: nat, hi: nat)
    requires Between(a, lo, x) && Between(b, y, hi) && lo <= y && x <= hi
    ensures Between(a + b, lo, hi)
  {}

  lemma BetweenWider(a: seq<nat>, lo: nat, x: nat, y: nat, hi: nat)
    requires Between(a, x, y) && lo <= x && y <= hi
    ensures Between(a, lo, hi)
  {}

  lemma NothingBetween(lo: nat, hi: nat)
    ensures Between([], lo, hi)
  {}

  /** The plan lies between two entries, and is complete unless it panics. */
  ghost predicate PlanOk(p: Plan, lo: nat, hi: nat, count: nat) {
    && Between(p.Walks(), lo, hi) && (!p.panics ==> |p.visits| == count && p.probe == [])
    && |p.visits| <= count
  }

  /** The walker visits only entries below the table it was given. */
  lemma {:induction false} PlanTableBounds(ps: PageSize, size: MapBlockSize, level: nat, number: nat, vs: nat,
                                           count: nat)
    requires Supported(ps, size) && 1 <= level <= EndLevel(size)
    ensures var p := PlanTable(ps, size, level, number, vs, count);
            && PlanOk(p, First(ps, size, level, number), First(ps, size, level, number + 1), count)
            && (count > 0 ==> p.Walks() != [])
            && Between(p.visits, First(ps, size, level, number), First(ps, size, level, number + 1))
    decreases EndLevel(size) - level, 1, 0
  {
    var i, p := IndexForLevel(ps, vs, level), PlanTable(ps, size, level, number, vs, count);
    var lo, hi := First(ps, size, level, number), First(ps, size, level, number + 1);
    if level < EndLevel(size) {
      hide IndexForLevel, First, Child, PlanEntries, Between;
      BelowTable(ps, size, level, number);
      PlanEntriesBounds(ps, size, level, number, i, vs, count);
      if i > 0 { ChildGrows(ps, level, number, 0, i); }
      FirstGrows(ps, size, level + 1, Child(ps, level, number, 0), Child(ps, level, number, i));
      BetweenWider(p.Walks(), lo, First(ps, size, level + 1, Child(ps, level, number, i)), hi, hi);
      BetweenPrefix(p.visits, p.probe, lo, hi);
    } else {
      assert lo == Child(ps, level, number, 0);
      assert hi == Child(ps, level, number, Entries(ps));
    }
  }

  lemma BetweenPrefix(a: seq<nat>, b: seq<nat>, lo: nat, hi: nat)
    requires Between(a + b, lo, hi)
    ensures Between(a, lo, hi)
  {
    forall i | 0 <= i < |a| ensures lo <= a[i] < hi { assert (a + b)[i] == a[i]; }
  }

  lemma {:induction false} PlanEntriesBounds(ps: PageSize, size: MapBlockSize, level: nat, number: nat, index: nat,
                                             vs: nat, rem: nat)
    requires Supported(ps, size) && level < EndLevel(size)
    ensures var p := PlanEntries(ps, size, level, number, index, vs, rem);
            var lo, hi := First(ps, size, level + 1, Child(ps, level, number, index)),
                          First(ps, size, level + 1, Child(ps, level, number, Entries(ps)));
            && PlanOk(p, lo, hi, rem) && Between(p.visits, lo, hi)
            && (rem > 0 && index < Entries(ps) ==> p.Walks() != [])
    decreases EndLevel(size) - level, 0, rem
  {
    hide IndexForLevel, Chunk, First, Child, PlanTable, Skip, Between;
    var lo := First(ps, size, level + 1, Child(ps, level, number, index));
    var hi := First(ps, size, level + 1, Child(ps, level, number, Entries(ps)));
    var p := PlanEntries(ps, size, level, number, index, vs, rem);
    if rem > 0 && index < Entries(ps) {
      var c, n := Chunk(ps, size, level, vs, rem), Child(ps, level, number, index);
      ChildGrows(ps, level, number, index, Entries(ps));
      var next := Skip(ps, size, vs, c);
      PlanTableBounds(ps, size, level + 1, n, vs, c);
      PlanEntriesBounds(ps, size, level, number, index + 1, next, rem - c);
      var mid := First(ps, size, level + 1, n + 1);
      FirstGrows(ps, size, level + 1, n, n + 1);
      FirstGrows(ps, size, level + 1, n + 1, Child(ps, level, number, Entries(ps)));
      var here := PlanTable(ps, size, level + 1, n, vs, c);
      var later := PlanEntries(ps, size, level, number, index + 1, next, rem - c);
      BetweenWider(here.Walks(), lo, lo, mid, hi);
      if !here.panics {
        assert here.Walks() == here.visits && p.Walks() == here.Walks() + later.Walks();
        BetweenAppend(here.Walks(), later.Walks(), lo, mid, mid, hi);
      }
      BetweenPrefix(p.visits, p.probe, lo, hi);
    } else {
      NothingBetween(lo, hi);
      assert p.Walks() == [] && p.visits == [];
    }
  }

  lemma ChildGrows(ps: PageSize, level: nat, number: nat, i: nat, j: nat)
    requires i < j
    ensures Child(ps, level, number, i + 1) == Child(ps, level, number, i) + 1 <= Child(ps, level, number, j)
  {}

  /** Block addresses stay aligned. */
  lemma SkipAligned(ps: PageSize, size: MapBlockSize, x: nat, n: nat)
    requires x % 0x1000 == 0
    ensures Skip(ps, size, x, n) % 0x1000 == 0
  {
    var k := BlockBytes(ps, size) / 0x1000;
    assert n * BlockBytes(ps, size) == 0x1000 * (n * k);
    DivModUnique(Skip(ps, size, x, n), 0x1000, x / 0x1000 + n * k, 0);
  }

  /** Nothing visited yet, nothing changed. */
  lemma EffectNone(ps: PageSize, size: MapBlockSize, op: Operation, root: nat, m: Memory, m': Memory,
                   visits: seq<nat>, phys: nat)
    requires forall v :: 0 <= v < ADDRESS_LIMIT ==> Lookup(ps, m', root, v) == Lookup(ps, m, root, v)
    ensures Effect(ps, size, op, root, m, m', visits, phys, 0)
  {
    hide Lookup, EntryNumber, Translated, BlockBytes, Skip;
  }

  /** Visits that were not reached do not matter. */
  lemma EffectExtend(ps: PageSize, size: MapBlockSize, op: Operation, root: nat, m: Memory, m': Memory,
                     visits: seq<nat>, more: seq<nat>, phys: nat, done: nat)
    requires Effect(ps, size, op, root, m, m', visits, phys, done)
    ensures Effect(ps, size, op, root, m, m', visits + more, phys, done)
  {
    hide Lookup, EntryNumber, Translated, BlockBytes, Skip;
    assert (visits + more)[..done] == visits[..done];
  }

  /** Adding tables first does not disturb the effect. */
  lemma EffectAfter(ps: PageSize, size: MapBlockSize, op: Operation, root: nat, m: Memory, m1: Memory, m2: Memory,
                    visits: seq<nat>, phys: nat, done: nat)
    requires forall v :: 0 <= v < ADDRESS_LIMIT ==> Lookup(ps, m1, root, v) == Lookup(ps, m, root, v)
    requires Effect(ps, size, op, root, m1, m2, visits, phys, done)
    ensures Effect(ps, size, op, root, m, m2, visits, phys, done)
  {
    hide Lookup, EntryNumber, Translated, BlockBytes, Skip;
  }

  lemma AboveTrans(m: Memory, p: map<nat, Place>, m1: Memory, p1: map<nat, Place>, m2: Memory, p2: map<nat, Place>,
                   level: nat, lower: nat)
    requires m.Keys == p.Keys && m1.Keys == p1.Keys && m2.Keys == p2.Keys && level <= lower
    requires Above(m, p, m1, p1, level) && Above(m1, p1, m2, p2, lower)
    ensures Above(m, p, m2, p2, level)
  {}

  lemma AboveLower(m: Memory, p: map<nat, Place>, m1: Memory, p1: map<nat, Place>, level: nat, lower: nat)
    requires m.Keys == p.Keys && m1.Keys == p1.Keys && level <= lower && Above(m, p, m1, p1, lower)
    ensures Above(m, p, m1, p1, level)
  {}

  /** What is left of a plan at an entry: the entry's part and the rest. */
  lemma PlanUnfold(ps: PageSize, size: MapBlockSize, level: nat, number: nat, index: nat, vs: nat, rem: nat)
    requires Supported(ps, size) && level < EndLevel(size) && rem > 0
    ensures index >= Entries(ps) ==> PlanEntries(ps, size, level, number, index, vs, rem) == Plan([], true, [])
    ensures index < Entries(ps) ==>
              var c := Chunk(ps, size, level, vs, rem);
              var here := PlanTable(ps, size, level + 1, Child(ps, level, number, index), vs, c);
              var later := PlanEntries(ps, size, level, number, index + 1, Skip(ps, size, vs, c), rem - c);
              PlanEntries(ps, size, level, number, index, vs, rem)
              == if here.panics then here else Plan(here.visits + later.visits, later.panics, later.probe)
    ensures index < Entries(ps) ==>
              var c := Chunk(ps, size, level, vs, rem);
              PlanTable(ps, size, level + 1, Child(ps, level, number, index), vs, c).visits
              <= PlanEntries(ps, size, level, number, index, vs, rem).visits
  {}

  /** An entry's effect after that of the entries before it. */
  lemma EffectNext(ps: PageSize, size: MapBlockSize, op: Operation, root: nat, m: Memory, m1: Memory, m2: Memory,
                   level: nat, n: nat, pre: seq<nat>, here: seq<nat>, phys: nat, done: nat)
    requires Effect(ps, size, op, root, m, m1, pre, phys, |pre|)
    requires Effect(ps, size, op, root, m1, m2, here, Skip(ps, size, phys, |pre|), done)
    requires Between(pre, 0, First(ps, size, level, n))
    requires Between(here, First(ps, size, level, n), First(ps, size, level, n + 1))
    ensures Effect(ps, size, op, root, m, m2, pre + here, phys, |pre| + done)
    ensures Between(pre + here, 0, First(ps, size, level, n + 1))
  {
    hide Effect, First;
    FirstGrows(ps, size, level, n, n + 1);
    EffectAppend(ps, size, op, root, m, m1, m2, pre, here, phys, done);
  }

  lemma PlanDone(ps: PageSize, size: MapBlockSize, level: nat, number: nat, index: nat, vs: nat)
    requires Supported(ps, size) && level < EndLevel(size)
    ensures PlanEntries(ps, size, level, number, index, vs, 0) == Plan([], false, [])
  {}

  lemma SkipNone(ps: PageSize, size: MapBlockSize, x: nat)
    ensures Skip(ps, size, x, 0) == x
  {}

  /** The part of the loop of `step` done before entry `index` of table `number`: the visits `pre` of `plan`. */
  ghost predicate Progress(ps: PageSize, size: MapBlockSize, op: Operation, root: nat, level: nat, number: nat,
                           index: nat, vs: nat, phys: nat, count: nat, plan: Plan, pre: seq<nat>, m: Memory, m': Memory)
    requires Supported(ps, size) && level < EndLevel(size)
  {
    && |pre| <= count
    && Effect(ps, size, op, root, m, m', pre, phys, |pre|)
    && Between(pre, 0, First(ps, size, level + 1, Child(ps, level, number, index)))
    && var rest := PlanEntries(ps, size, level, number, index, Skip(ps, size, vs, |pre|), count - |pre|);
       plan == Plan(pre + rest.visits, rest.panics, rest.probe)
  }

  /** The part of the plan for the next entry. */
  function Here(ps: PageSize, size: MapBlockSize, level: nat, number: nat, index: nat, vs: nat, count: nat,
                num: nat): Plan
    requires Supported(ps, size) && level < EndLevel(size) && num < count
  {
    var at := Skip(ps, size, vs, num);
    PlanTable(ps, size, level + 1, Child(ps, level, number, index), at, Chunk(ps, size, level, at, count - num))
  }

  /** What is left of the plan before entry `index`. */
  lemma ProgressRest(ps: PageSize, size: MapBlockSize, op: Operation, root: nat, level: nat, number: nat, index: nat,
                     vs: nat, phys: nat, count: nat, plan: Plan, pre: seq<nat>, m: Memory, m': Memory)
    requires Supported(ps, size) && level < EndLevel(size) && |pre| < count
    requires Progress(ps, size, op, root, level, number, index, vs, phys, count, plan, pre, m, m')
    ensures var rest := PlanEntries(ps, size, level, number, index, Skip(ps, size, vs, |pre|), count - |pre|);
            plan == Plan(pre + rest.visits, rest.panics, rest.probe)
    ensures Effect(ps, size, op, root, m, m', pre, phys, |pre|)
  {}

  /** The visits before an entry, its own and those after it, put together. */
  lemma PlanParts(plan: Plan, pre: seq<nat>, rest: Plan, here: Plan, later: Plan)
    requires plan == Plan(pre + rest.visits, rest.panics, rest.probe) && (!here.panics ==> here.probe == [])
    requires rest == if here.panics then here else Plan(here.visits + later.visits, later.panics, later.probe)
    ensures pre + here.visits <= plan.visits && pre + here.Walks() <= plan.Walks()
    ensures if here.panics then plan.panics && plan.Walks() == pre + here.Walks() && plan.visits == pre + here.visits
            else here.Walks() == here.visits
  {
    if here.panics {
      assert plan.Walks() == pre + here.Walks();
    } else {
      assert here.Walks() == here.visits;
      assert plan.Walks()[..|plan.visits|] == plan.visits;
    }
  }

  /** The part of the plan for entry `index`, inside the whole. */
  lemma HereParts(ps: PageSize, size: MapBlockSize, level: nat, number: nat, index: nat, vs: nat, count: nat,
                  plan: Plan, pre: seq<nat>)
    requires Supported(ps, size) && level < EndLevel(size) && |pre| < count && index < Entries(ps)
    requires var rest := PlanEntries(ps, size, level, number, index, Skip(ps, size, vs, |pre|), count - |pre|);
             plan == Plan(pre + rest.visits, rest.panics, rest.probe)
    ensures var here := Here(ps, size, level, number, index, vs, count, |pre|);
            && pre + here.visits <= plan.visits && pre + here.Walks() <= plan.Walks()
            && if here.panics then plan.panics && plan.Walks() == pre + here.Walks() && plan.visits == pre + here.visits
               else here.Walks() == here.visits
  {
    hide PlanTable, PlanEntries, Chunk, Skip, Child, First, Between;
    var at := Skip(ps, size, vs, |pre|);
    var c := Chunk(ps, size, level, at, count - |pre|);
    PlanUnfold(ps, size, level, number, index, at, count - |pre|);
    PlanTableBounds(ps, size, level + 1, Child(ps, level, number, index), at, c);
    PlanParts(plan, pre, PlanEntries(ps, size, level, number, index, at, count - |pre|),
              Here(ps, size, level, number, index, vs, count, |pre|),
              PlanEntries(ps, size, level, number, index + 1, Skip(ps, size, at, c), count - |pre| - c));
  }

  /** The effect through entry `index`. */
  lemma ProgressEffect(ps: PageSize, size: MapBlockSize, op: Operation, root: nat, level: nat, number: nat, index: nat,
                       vs: nat, phys: nat, count: nat, plan: Plan, pre: seq<nat>,
                       m: Memory, m1: Memory, m2: Memory, done: nat)
    requires Supported(ps, size) && level < EndLevel(size) && |pre| < count && index < Entries(ps)
    requires Progress(ps, size, op, root, level, number, index, vs, phys, count, plan, pre, m, m1)
    requires Effect(ps, size, op, root, m1, m2, Here(ps, size, level, number, index, vs, count, |pre|).visits,
                    Skip(ps, size, phys, |pre|), done)
    ensures Effect(ps, size, op, root, m, m2, plan.visits, phys, |pre| + done)
    ensures var here := Here(ps, size, level, number, index, vs, count, |pre|).visits;
            && Effect(ps, size, op, root, m, m2, pre + here, phys, |pre| + done)
            && Between(pre + here, 0, First(ps, size, level + 1, Child(ps, level, number, index) + 1))
  {
    hide Effect, Between, PlanTable, PlanEntries, Chunk, Skip, Child, First;
    var at := Skip(ps, size, vs, |pre|);
    var here := Here(ps, size, level, number, index, vs, count, |pre|);
    ProgressRest(ps, size, op, root, level, number, index, vs, phys, count, plan, pre, m, m1);
    HereParts(ps, size, level, number, index, vs, count, plan, pre);
    PlanTableBounds(ps, size, level + 1, Child(ps, level, number, index), at,
                    Chunk(ps, size, level, at, count - |pre|));
    EffectNext(ps, size, op, root, m, m1, m2, level + 1, Child(ps, level, number, index), pre, here.visits, phys, done);
    assert plan.visits == pre + here.visits + plan.visits[|pre + here.visits|..];
    EffectExtend(ps, size, op, root, m, m2, pre + here.visits, plan.visits[|pre + here.visits|..], phys, |pre| + done);
  }

  /** After entry `index` the loop goes on with the next one. */
  lemma ProgressNext(ps: PageSize, size: MapBlockSize, op: Operation, root: nat, level: nat, number: nat, index: nat,
                     vs: nat, phys: nat, count: nat, plan: Plan, pre: seq<nat>,
                     m: Memory, m1: Memory, m2: Memory, c: nat)
    requires Supported(ps, size) && level < EndLevel(size) && |pre| < count && index < Entries(ps)
    requires Progress(ps, size, op, root, level, number, index, vs, phys, count, plan, pre, m, m1)
    requires var here := Here(ps, size, level, number, index, vs, count, |pre|);
             && !here.panics && |here.visits| == c == Chunk(ps, size, level, Skip(ps, size, vs, |pre|), count - |pre|)
             && Effect(ps, size, op, root, m1, m2, here.visits, Skip(ps, size, phys, |pre|), c)
    ensures |pre| + c <= |plan.visits|
    ensures plan.visits[..|pre| + c] == pre + Here(ps, size, level, number, index, vs, count, |pre|).visits
    ensures Progress(ps, size, op, root, level, number, index + 1, vs, phys, count,
                     plan, plan.visits[..|pre| + c], m, m2)
  {
    hide Effect, Between, PlanTable, PlanEntries, Chunk, Skip, Child, First;
    ChildGrows(ps, level, number, index, Entries(ps));
    ProgressEffect(ps, size, op, root, level, number, index, vs, phys, count, plan, pre, m, m1, m2, c);
    ProgressPlan(ps, size, op, root, level, number, index, vs, phys, count, plan, pre, m, m1, c);
  }

  lemma ProgressPlan(ps: PageSize, size: MapBlockSize, op: Operation, root: nat, level: nat, number: nat, index: nat,
                     vs: nat, phys: nat, count: nat, plan: Plan, pre: seq<nat>, m: Memory, m1: Memory, c: nat)
    requires Supported(ps, size) && level < EndLevel(size) && |pre| < count && index < Entries(ps)
    requires Progress(ps, size, op, root, level, number, index, vs, phys, count, plan, pre, m, m1)
    requires var here := Here(ps, size, level, number, index, vs, count, |pre|);
             !here.panics && |here.visits| == c == Chunk(ps, size, level, Skip(ps, size, vs, |pre|), count - |pre|)
    ensures var here := Here(ps, size, level, number, index, vs, count, |pre|).visits;
            var later := PlanEntries(ps, size, level, number, index + 1, Skip(ps, size, vs, |pre| + c),
                                     count - |pre| - c);
            && plan == Plan((pre + here) + later.visits, later.panics, later.probe)
            && plan.visits[..|pre| + c] == pre + here
  {
    hide Effect, Between, PlanTable, PlanEntries, Chunk, Skip, Child, First;
    SkipSkip(ps, size, vs, |pre|, c);
    PlanUnfold(ps, size, level, number, index, Skip(ps, size, vs, |pre|), count - |pre|);
  }
}
