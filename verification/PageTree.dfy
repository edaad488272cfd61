/**
 The page tables of kernel_core/src/memory/page_table.rs: the geometry of the levels, the tree of
 tables in memory, and the translation it defines.
 */
module PageTree {
  import opened Common
  import opened Arithmetic
  import opened PageEntry

  datatype PageSize = FourKiB | SixteenKiB
  datatype MapBlockSize = SinglePage | SmallBlock | LargeBlock

  // ---------------------------------------------------------------- geometry

  function PageBytes(ps: PageSize): nat { if ps.FourKiB? then 0x1000 else 0x4000 }

  /** `entries_per_page`: an entry has eight bytes. */
  function Entries(ps: PageSize): nat { if ps.FourKiB? then 512 else 2048 }

  /** How many entries of a table are used at `level`: the level 0 table of 16KiB pages has two. */
  function Radix(ps: PageSize, level: nat): nat {
    if ps.SixteenKiB? && level == 0 then 2 else Entries(ps)
  }

  /** The bytes one entry at `level` covers. */
  function EntryBytes(ps: PageSize, level: nat): (n: nat)
    requires level <= 3
    ensures n > 0
  {
    match ps
    case FourKiB =>
      (match level case 0 => 0x80_0000_0000 case 1 => 0x4000_0000 case 2 => 0x20_0000 case _ => 0x1000)
    case SixteenKiB =>
      (match level case 0 => 0x8000_0000_0000 case 1 => 0x10_0000_0000 case 2 => 0x200_0000 case _ => 0x4000)
  }

  /** `index_for_level`. */
  function IndexForLevel(ps: PageSize, v: nat, level: nat): (i: nat)
    requires level <= 3
    ensures i < Radix(ps, level) <= Entries(ps)
  {
    (v / EntryBytes(ps, level)) % Radix(ps, level)
  }

  /** `pages_per_entry`, as coded. */
  function PagesPerEntry(ps: PageSize, level: nat): nat
    requires level <= 3
  {
    match ps
    case FourKiB =>
      (match level case 0 => 512 * 512 * 512 case 1 => 512 * 512 case 2 => 512 case _ => 1)
    case SixteenKiB =>
      (match level case 0 => 2 * 2048 * 2048 case 1 => 2048 * 2048 case 2 => 2048 case _ => 1)
  }

  /** `MapBlockSize::length_in_pages`. */
  function LengthInPages(size: MapBlockSize, ps: PageSize): Option<nat> {
    match size
    case SinglePage => Some(1)
    case SmallBlock => Some(Entries(ps))
    case LargeBlock => if ps.FourKiB? then Some(Entries(ps) * Entries(ps)) else None
  }

  /** The level whose entries map blocks of this size. */
  function EndLevel(size: MapBlockSize): nat {
    match size case SinglePage => 3 case SmallBlock => 2 case LargeBlock => 1
  }

  /** The number of the entry, counted over all tables of the level, that covers `v`. */
  function EntryNumber(ps: PageSize, v: nat, level: nat): nat
    requires level <= 3
  {
    v / EntryBytes(ps, level)
  }

  /** The number of the table at `level` that covers `v`. */
  function TableNumber(ps: PageSize, v: nat, level: nat): nat
    requires level <= 4
  {
    if level == 0 then 0 else EntryNumber(ps, v, level - 1)
  }

  /** An entry number is the number of its table and the index in it. */
  lemma EntrySplits(ps: PageSize, v: nat, level: nat)
    requires level <= 3 && v < ADDRESS_LIMIT
    ensures EntryNumber(ps, v, level) == TableNumber(ps, v, level) * Radix(ps, level) + IndexForLevel(ps, v, level)
  {
    var e, r := EntryBytes(ps, level), Radix(ps, level);
    var n := v / e;
    assert n == r * (n / r) + n % r;
    if level > 0 {
      DivDiv(v, e, r, EntryBytes(ps, level - 1));
    } else {
      assert n < r;
    }
  }

  lemma DivDiv(v: nat, e: nat, r: nat, er: nat)
    requires e > 0 && r > 0 && er == e * r
    ensures er > 0 && v / er == (v / e) / r
  {
    Digits(v, r, e, er);
  }

  // ---------------------------------------------------------------- tables in memory

  /** The tables by physical address, each a sequence of raw entries. */
  type Memory = map<nat, seq<nat>>

  /** Where a table belongs: at `level`, as number `number` of that level. */
  datatype Place = Place(level: nat, number: nat)

  /** Write one entry of one table. */
  function Write(m: Memory, t: nat, i: nat, entry: nat): Memory
    requires t in m && i < |m[t]|
  {
    var row: seq<nat> := m[t][i := entry];
    m[t := row]
  }

  /** Where an address is mapped to, and how. */
  datatype Mapping = Mapping(address: nat, attributes: Attributes)

  /** The walk of `physical_address_of` for `v` from table `t` at `level` on. */
  function Walk(ps: PageSize, m: Memory, t: nat, level: nat, v: nat): Option<Mapping>
    decreases 4 - level
  {
    if level > 3 || t !in m || |m[t]| <= IndexForLevel(ps, v, level) then None
    else
      var entry := m[t][IndexForLevel(ps, v, level)];
      match Decode(entry, level)
      case Empty => None
      case Invalid => None
      case Table(next) => Walk(ps, m, next, level + 1, v)
      case Block(base) => Some(Mapping(base + v % EntryBytes(ps, level), AttributesOf(entry)))
      case Page(base) => Some(Mapping(base + v % EntryBytes(ps, level), AttributesOf(entry)))
  }

  /** The table at level `target` that the walk for `v` passes, if it gets that far. */
  function TableOf(ps: PageSize, m: Memory, t: nat, level: nat, v: nat, target: nat): Option<nat>
    decreases 4 - level
  {
    if level == target then Some(t)
    else if level > 3 || t !in m || |m[t]| <= IndexForLevel(ps, v, level) then None
    else
      var d := Decode(m[t][IndexForLevel(ps, v, level)], level);
      if d.Table? then TableOf(ps, m, d.address, level + 1, v, target) else None
  }

  /** Levels at which the hardware knows block entries. */
  predicate BlockLevel(ps: PageSize, level: nat) {
    level == 2 || (level == 1 && ps.FourKiB?)
  }

  /** Entry `i` of the table at `place` is valid there, and a child table is where it belongs. */
  ghost predicate EntryOk(ps: PageSize, places: map<nat, Place>, place: Place, i: nat, entry: nat) {
    match Decode(entry, place.level)
    case Empty => true
    case Invalid => false
    case Page(_) => true
    case Block(_) => BlockLevel(ps, place.level)
    case Table(next) =>
      next in places && places[next] == Place(place.level + 1, place.number * Radix(ps, place.level) + i)
  }

  ghost predicate TableOk(ps: PageSize, places: map<nat, Place>, place: Place, entries: seq<nat>) {
    && place.level <= 3 && (place.level == 0 ==> place.number == 0) && |entries| == Entries(ps)
    && forall i :: 0 <= i < |entries| ==> EntryOk(ps, places, place, i, entries[i])
  }

  /** The tables form a tree: every child is recorded at the one place its parent entry gives it. */
  ghost predicate TreeOk(ps: PageSize, m: Memory, places: map<nat, Place>, root: nat) {
    && m.Keys == places.Keys && root in m && places[root] == Place(0, 0)
    && forall t :: t in m ==> TableOk(ps, places, places[t], m[t])
  }

  // ---------------------------------------------------------------- walks

  /** From the table it passes on, a walk continues as from there. */
  lemma {:induction false} WalkVia(ps: PageSize, m: Memory, t: nat, level: nat, v: nat, target: nat)
    requires level <= target && TableOf(ps, m, t, level, v, target).Some?
    ensures Walk(ps, m, t, level, v) == Walk(ps, m, TableOf(ps, m, t, level, v, target).value, target, v)
    decreases 4 - level
  {
    if level < target {
      WalkVia(ps, m, Decode(m[t][IndexForLevel(ps, v, level)], level).address, level + 1, v, target);
    }
  }

  /** The part of a walk above `target` depends only on tables above `target`. */
  lemma {:induction false} TableOfFrame(ps: PageSize, m: Memory, m': Memory, places: map<nat, Place>, root: nat,
                                        t: nat, level: nat, v: nat, target: nat)
    requires TreeOk(ps, m, places, root) && v < ADDRESS_LIMIT && level <= target <= 3
    requires t in m && places[t].level == level
    requires forall a :: a in m && places[a].level < target ==> a in m' && m'[a] == m[a]
    ensures TableOf(ps, m', t, level, v, target) == TableOf(ps, m, t, level, v, target)
    decreases 4 - level
  {
    if level < target {
      var i := IndexForLevel(ps, v, level);
      assert EntryOk(ps, places, places[t], i, m[t][i]);
      var d := Decode(m[t][i], level);
      if d.Table? { TableOfFrame(ps, m, m', places, root, d.address, level + 1, v, target); }
    }
  }

  /** Writing one entry changes no walk for an address outside that entry. */
  lemma {:induction false} WalkElsewhere(ps: PageSize, m: Memory, places: map<nat, Place>, root: nat,
                                         a: nat, i: nat, entry: nat, t: nat, level: nat, v: nat)
    requires TreeOk(ps, m, places, root) && v < ADDRESS_LIMIT && level <= 3
    requires a in m && i < |m[a]|
    requires EntryNumber(ps, v, places[a].level) != places[a].number * Radix(ps, places[a].level) + i
    requires t in m && places[t] == Place(level, TableNumber(ps, v, level))
    ensures Walk(ps, Write(m, a, i, entry), t, level, v) == Walk(ps, m, t, level, v)
    decreases 4 - level
  {
    hide Decode, EntryBytes, EntryNumber, IndexForLevel;
    EntrySplits(ps, v, level);
    var j := IndexForLevel(ps, v, level);
    assert TableOk(ps, places, places[t], m[t]);
    assert EntryOk(ps, places, places[t], j, m[t][j]);
    assert Write(m, a, i, entry)[t][j] == m[t][j] && |Write(m, a, i, entry)[t]| == |m[t]|;
    hide Write, TreeOk;
    var d := Decode(m[t][j], level);
    if d.Table? && level < 3 { WalkElsewhere(ps, m, places, root, a, i, entry, d.address, level + 1, v); }
  }

  /** Writing an entry that is valid at its place keeps the tree. */
  lemma WriteKeepsTree(ps: PageSize, m: Memory, places: map<nat, Place>, root: nat, t: nat, i: nat, entry: nat)
    requires TreeOk(ps, m, places, root) && t in m && i < |m[t]|
    requires EntryOk(ps, places, places[t], i, entry)
    ensures TreeOk(ps, Write(m, t, i, entry), places, root)
  {
    hide EntryOk;
    forall a | a in m ensures TableOk(ps, places, places[a], Write(m, t, i, entry)[a]) {
      assert TableOk(ps, places, places[a], m[a]);
    }
  }

  /** Writing the entry a walk reaches decides the walk. */
  lemma WalkHere(ps: PageSize, m: Memory, places: map<nat, Place>, root: nat,
                 a: nat, i: nat, entry: nat, v: nat)
    requires TreeOk(ps, m, places, root) && v < ADDRESS_LIMIT && a in m && i < |m[a]|
    requires var l := places[a].level;
             TableOf(ps, m, root, 0, v, l) == Some(a) && IndexForLevel(ps, v, l) == i
    ensures var l, m' := places[a].level, Write(m, a, i, entry);
            && Walk(ps, m', root, 0, v) == Walk(ps, m', a, l, v)
            && TableOf(ps, m', root, 0, v, l) == Some(a)
  {
    var l, m' := places[a].level, Write(m, a, i, entry);
    TableOfFrame(ps, m, m', places, root, root, 0, v, l);
    WalkVia(ps, m', root, 0, v, l);
  }

  /** An entry number determines the table and, for an index in use, the index. */
  lemma EntryUnique(ps: PageSize, v: nat, level: nat, number: nat, i: nat)
    requires level <= 3 && v < ADDRESS_LIMIT
    requires level == 0 ==> number == 0
    requires i < Entries(ps) && EntryNumber(ps, v, level) == number * Radix(ps, level) + i
    ensures i < Radix(ps, level) && TableNumber(ps, v, level) == number && IndexForLevel(ps, v, level) == i
  {
    EntrySplits(ps, v, level);
    var r, n := Radix(ps, level), EntryNumber(ps, v, level);
    if level > 0 || ps.FourKiB? {
      DivModUnique(n, r, number, i);
      DivModUnique(n, r, TableNumber(ps, v, level), IndexForLevel(ps, v, level));
    }
  }

  /** One more step down from the table a walk passes. */
  lemma {:induction false} TableOfStep(ps: PageSize, m: Memory, t: nat, level: nat, v: nat, target: nat, c: nat)
    requires level <= target <= 3 && TableOf(ps, m, t, level, v, target) == Some(c)
    requires c in m && IndexForLevel(ps, v, target) < |m[c]|
    requires Decode(m[c][IndexForLevel(ps, v, target)], target).Table?
    ensures TableOf(ps, m, t, level, v, target + 1)
            == Some(Decode(m[c][IndexForLevel(ps, v, target)], target).address)
    decreases 4 - level
  {
    if level < target {
      var d := Decode(m[t][IndexForLevel(ps, v, level)], level);
      TableOfStep(ps, m, d.address, level + 1, v, target, c);
    } else {
      hide Decode, IndexForLevel;
      var d := Decode(m[c][IndexForLevel(ps, v, target)], target);
      assert TableOf(ps, m, d.address, level + 1, v, target + 1) == Some(d.address);
    }
  }

  /** A walk only reads tables of the tree. */
  lemma {:induction false} WalkAgrees(ps: PageSize, m: Memory, m': Memory, places: map<nat, Place>, root: nat,
                                      t: nat, level: nat, v: nat)
    requires TreeOk(ps, m, places, root) && t in m && level <= 4
    requires level <= 3 ==> places[t].level == level
    requires forall a :: a in m ==> a in m' && m'[a] == m[a]
    ensures Walk(ps, m', t, level, v) == Walk(ps, m, t, level, v)
    decreases 4 - level
  {
    if level <= 3 {
      hide Decode, IndexForLevel;
      var i := IndexForLevel(ps, v, level);
      assert TableOk(ps, places, places[t], m[t]);
      assert EntryOk(ps, places, places[t], i, m[t][i]);
      var d := Decode(m[t][i], level);
      if d.Table? { WalkAgrees(ps, m, m', places, root, d.address, level + 1, v); }
    }
  }
}
