/** What stops a walk through the page tables: leaves in its way, missing tables, and an allocator without pages. */
module PageObstacles {
  import opened Common
  import opened Arithmetic
  import opened PageEntry
  import opened PageTree
  import opened PageWalker

  // ---------------------------------------------------------------- tables and entries by number

  /** The number of the table that holds entry `e` of a level, and the index of the entry in it. */
  function TableOfEntry(ps: PageSize, level: nat, e: nat): nat { if level == 0 then 0 else Quot(e, Entries(ps)) }

  function IndexOfEntry(ps: PageSize, level: nat, e: nat): nat { if level == 0 then e else e % Entries(ps) }

  /** The table with this number at a level, if the tree has it. */
  ghost function TableAt(ps: PageSize, m: Memory, root: nat, level: nat, number: nat): Option<nat>
    decreases level, 0
  {
    if level == 0 then if number == 0 then Some(root) else None
    else
      match EntryAt(ps, m, root, level - 1, number)
      case Some(Table(c)) => Some(c)
      case _ => None
  }

  /** The entry with this number at a level, if the tree has its table. */
  ghost function EntryAt(ps: PageSize, m: Memory, root: nat, level: nat, e: nat): Option<Decoded>
    decreases level, 1
  {
    EntryIn(m, TableAt(ps, m, root, level, TableOfEntry(ps, level, e)), IndexOfEntry(ps, level, e), level)
  }

  /** Entry `i` of a table, if both are there. */
  ghost function EntryIn(m: Memory, t: Option<nat>, i: nat, level: nat): Option<Decoded> {
    if t.None? || t.value !in m || i >= |m[t.value]| then None else Some(Decode(m[t.value][i], level))
  }

  lemma EntryOfChild(ps: PageSize, level: nat, number: nat, i: nat)
    requires i < Entries(ps) && (level == 0 ==> number == 0)
    ensures var e := Child(ps, level, number, i);
            TableOfEntry(ps, level, e) == number && IndexOfEntry(ps, level, e) == i
  {
    if level > 0 { DivModUnique(Child(ps, level, number, i), Entries(ps), number, i); }
  }

  lemma ChildOfEntry(ps: PageSize, level: nat, e: nat)
    ensures Child(ps, level, TableOfEntry(ps, level, e), IndexOfEntry(ps, level, e)) == e
  {
    if level > 0 { assert e == Entries(ps) * (e / Entries(ps)) + e % Entries(ps); }
  }

  /** A table found by number is recorded at that place. */
  lemma {:induction false} TableAtPlace(ps: PageSize, m: Memory, places: map<nat, Place>, root: nat, level: nat,
                                        number: nat)
    requires TreeOk(ps, m, places, root) && TableAt(ps, m, root, level, number).Some?
    ensures var t := TableAt(ps, m, root, level, number).value;
            t in m && t in places && places[t] == Place(level, number) && |m[t]| == Entries(ps)
    decreases level
  {
    hide Decode, TableOfEntry, IndexOfEntry;
    if level == 0 {
      assert TableOk(ps, places, places[root], m[root]);
    } else {
      var up, i := TableOfEntry(ps, level - 1, number), IndexOfEntry(ps, level - 1, number);
      TableAtPlace(ps, m, places, root, level - 1, up);
      var t := TableAt(ps, m, root, level - 1, up).value;
      assert TableOk(ps, places, places[t], m[t]);
      assert EntryOk(ps, places, places[t], i, m[t][i]);
      ChildOfEntry(ps, level - 1, number);
      var c := TableAt(ps, m, root, level, number).value;
      assert TableOk(ps, places, places[c], m[c]);
    }
  }

  lemma EntryAtChild(ps: PageSize, m: Memory, root: nat, level: nat, number: nat, i: nat, t: nat)
    requires TableAt(ps, m, root, level, number) == Some(t) && t in m && |m[t]| == Entries(ps) && i < Entries(ps)
    ensures EntryAt(ps, m, root, level, Child(ps, level, number, i)) == Some(Decode(m[t][i], level))
  {
    hide Decode, Child, TableOfEntry, IndexOfEntry;
    EntryOfChild(ps, level, number, i);
  }

  /** Which tables are found at a level depends only on the tables above it. */
  lemma {:induction false} TableAtFrame(ps: PageSize, m: Memory, m': Memory, places: map<nat, Place>, root: nat,
                                        level: nat, number: nat)
    requires TreeOk(ps, m, places, root)
    requires forall a :: a in m && places[a].level < level ==> a in m' && m'[a] == m[a]
    ensures TableAt(ps, m', root, level, number) == TableAt(ps, m, root, level, number)
    decreases level
  {
    hide Decode, TableOfEntry, IndexOfEntry;
    if level > 0 {
      var up := TableOfEntry(ps, level - 1, number);
      TableAtFrame(ps, m, m', places, root, level - 1, up);
      if TableAt(ps, m, root, level - 1, up).Some? { TableAtPlace(ps, m, places, root, level - 1, up); }
    }
  }

  /** A table that the numbers lead to is passed by every walk for an address that belongs to it. */
  lemma {:induction false} TableOfAt(ps: PageSize, m: Memory, root: nat, v: nat, level: nat)
    requires v < ADDRESS_LIMIT && level <= 3 && TableAt(ps, m, root, level, TableNumber(ps, v, level)).Some?
    ensures TableOf(ps, m, root, 0, v, level) == TableAt(ps, m, root, level, TableNumber(ps, v, level))
    decreases level
  {
    hide Decode, EntryBytes, IndexForLevel, Child, TableOf;
    if level == 0 {
      TableOfStart(ps, m, root, v);
    } else {
      var e, i := TableNumber(ps, v, level), IndexForLevel(ps, v, level - 1);
      EntrySplits(ps, v, level - 1);
      ChildIs(ps, level - 1, TableNumber(ps, v, level - 1), i);
      EntryOfChild(ps, level - 1, TableNumber(ps, v, level - 1), i);
      TableOfAt(ps, m, root, v, level - 1);
      TableOfStep(ps, m, root, 0, v, level - 1, TableAt(ps, m, root, level - 1, TableNumber(ps, v, level - 1)).value);
    }
  }

  lemma TableOfStart(ps: PageSize, m: Memory, root: nat, v: nat)
    ensures TableOf(ps, m, root, 0, v, 0) == Some(root)
  {}

  lemma ChildIs(ps: PageSize, level: nat, number: nat, i: nat)
    ensures Child(ps, level, number, i) == number * Radix(ps, level) + i
  {}

  lemma AtIsOnPath(ps: PageSize, m: Memory, root: nat, t: nat, place: Place)
    requires place.level <= 3 && TableAt(ps, m, root, place.level, place.number) == Some(t)
    ensures OnPath(ps, m, root, t, place)
  {
    hide TableAt, TableOf, TableNumber;
    forall v | 0 <= v < ADDRESS_LIMIT && TableNumber(ps, v, place.level) == place.number
      ensures TableOf(ps, m, root, 0, v, place.level) == Some(t)
    {
      TableOfAt(ps, m, root, v, place.level);
    }
  }

  // ---------------------------------------------------------------- growing

  /** A new table below entry `i` of `t` is found at its number, and every other table as before. */
  lemma {:induction false} AddTableAt(ps: PageSize, m: Memory, places: map<nat, Place>, root: nat, t: nat, i: nat,
                                      page: nat, level: nat, number: nat)
    requires TreeOk(ps, m, places, root) && t in m && t in places && i < Entries(ps) && |m[t]| == Entries(ps)
    requires page !in m && page % 0x1000 == 0 && page < ADDRESS_LIMIT && places[t].level <= 2
    requires TableAt(ps, m, root, places[t].level, places[t].number) == Some(t)
    requires Decode(m[t][i], places[t].level) == Empty
    ensures TableAt(ps, AddTable(ps, m, t, i, page), root, level, number)
            == if Place(level, number) == ChildPlace(ps, places[t], i) then Some(page)
               else TableAt(ps, m, root, level, number)
    decreases level
  {
    hide Decode, ForTable, TableOfEntry, IndexOfEntry, Child, TreeOk, EntryAt, AddTable;
    if level > 0 {
      var up := TableOfEntry(ps, level - 1, number);
      AddTableAt(ps, m, places, root, t, i, page, level - 1, up);
      AddEntry(ps, m, places, root, t, i, page, level - 1, number);
    }
  }

  /** The same for entries, given that it holds for their tables. */
  lemma AddEntry(ps: PageSize, m: Memory, places: map<nat, Place>, root: nat, t: nat, i: nat, page: nat, level: nat,
                 e: nat)
    requires TreeOk(ps, m, places, root) && t in m && t in places && i < Entries(ps) && |m[t]| == Entries(ps)
    requires page !in m && page % 0x1000 == 0 && page < ADDRESS_LIMIT && places[t].level <= 2
    requires TableAt(ps, m, root, places[t].level, places[t].number) == Some(t)
    requires Decode(m[t][i], places[t].level) == Empty
    requires var number := TableOfEntry(ps, level, e);
             TableAt(ps, AddTable(ps, m, t, i, page), root, level, number)
             == if Place(level, number) == ChildPlace(ps, places[t], i) then Some(page)
                else TableAt(ps, m, root, level, number)
    ensures var m', d := AddTable(ps, m, t, i, page), EntryAt(ps, m, root, level, e);
            EntryAt(ps, m', root, level, e)
            == if Place(level + 1, e) == ChildPlace(ps, places[t], i) then Some(Table(page))
               else if Place(level, TableOfEntry(ps, level, e)) == ChildPlace(ps, places[t], i)
                       && IndexOfEntry(ps, level, e) < Entries(ps) then Some(Empty)
               else d
    ensures Place(level + 1, e) == ChildPlace(ps, places[t], i) ==> EntryAt(ps, m, root, level, e) == Some(Empty)
    ensures Place(level, TableOfEntry(ps, level, e)) == ChildPlace(ps, places[t], i) ==>
            EntryAt(ps, m, root, level, e) == None
  {
    hide Decode, ForTable, TableOfEntry, IndexOfEntry, Child, TreeOk, EntryIn, AddTable;
    var l, number, j := places[t].level, TableOfEntry(ps, level, e), IndexOfEntry(ps, level, e);
    var child := Child(ps, l, places[t].number, i);
    RootNumber(ps, m, places, root, t);
    EntryOfChild(ps, l, places[t].number, i);
    ChildOfEntry(ps, level, e);
    EntryAtChild(ps, m, root, l, places[t].number, i, t);
    NoTableYet(ps, m, root, l, child);
    var at := TableAt(ps, m, root, level, number);
    if at.Some? { TableAtPlace(ps, m, places, root, level, number); }
    if Place(level, number) == ChildPlace(ps, places[t], i) {
      AddEntryIn(ps, m, t, i, page, Some(page), j, level);
      NoEntryIn(m, j, level);
    } else {
      AddEntryIn(ps, m, t, i, page, at, j, level);
    }
  }

  lemma NoEntryIn(m: Memory, i: nat, level: nat)
    ensures EntryIn(m, None, i, level) == None
  {}

  /** The rows after a table was added. */
  lemma AddEntryIn(ps: PageSize, m: Memory, t: nat, i: nat, page: nat, a: Option<nat>, j: nat, level: nat)
    requires t in m && i < |m[t]| && page !in m && page % 0x1000 == 0 && page < ADDRESS_LIMIT
    requires a.Some? ==> a.value in m || a.value == page
    ensures EntryIn(AddTable(ps, m, t, i, page), a, j, level)
            == if a == Some(page) then (if j < Entries(ps) then Some(Empty) else None)
               else if a == Some(t) && j == i then Some(Decode(ForTable(page), level))
               else EntryIn(m, a, j, level)
    ensures level <= 2 ==> Decode(ForTable(page), level) == Table(page)
  {
    ZeroDecodes(level);
    hide Decode, ForTable;
    if level <= 2 { TableRoundTrip(page, level); }
    assert page % ADDRESS_LIMIT == page;
  }

  lemma ZeroDecodes(level: nat)
    ensures Decode(0, level) == Empty
  {}

  lemma RootNumber(ps: PageSize, m: Memory, places: map<nat, Place>, root: nat, t: nat)
    requires TreeOk(ps, m, places, root) && t in m
    ensures places[t].level == 0 ==> places[t].number == 0
  {
    assert TableOk(ps, places, places[t], m[t]);
  }

  lemma NoTableYet(ps: PageSize, m: Memory, root: nat, level: nat, e: nat)
    requires EntryAt(ps, m, root, level, e) == Some(Empty)
    ensures TableAt(ps, m, root, level + 1, e) == None
  {}

  // ---------------------------------------------------------------- the path to an entry

  /** The number of the table at `level` on the path to end-level entry `n`. */
  function PathTable(ps: PageSize, size: MapBlockSize, level: nat, n: nat): nat {
    if level == 0 then 0 else Quot(n, TableBlocks(ps, size, level))
  }

  lemma PathStep(ps: PageSize, size: MapBlockSize, level: nat, n: nat)
    requires Supported(ps, size) && level < EndLevel(size)
    ensures TableOfEntry(ps, level, PathTable(ps, size, level + 1, n)) == PathTable(ps, size, level, n)
  {
    if level > 0 {
      var w, e := TableBlocks(ps, size, level + 1), Entries(ps);
      assert TableBlocks(ps, size, level) == e * w;
      hide TableBlocks, Entries;
      Digits(n, e, w, TableBlocks(ps, size, level));
    }
  }

  /** The entries below table `number` have it on their path. */
  lemma PathBetween(ps: PageSize, size: MapBlockSize, level: nat, number: nat, n: nat)
    requires First(ps, size, level, number) <= n < First(ps, size, level, number + 1) && level > 0
    ensures PathTable(ps, size, level, n) == number
  {
    var w := TableBlocks(ps, size, level);
    hide TableBlocks;
    assert (number + 1) * w == number * w + w;
    DivModUnique(n, w, number, n - number * w);
  }

  predicate Leaf(d: Option<Decoded>) { d.Some? && (d.value.Block? || d.value.Page?) }

  /** The pages a sequence of answers of the allocator gives before it fails. */
  function Avail(supply: seq<Option<nat>>): nat {
    if supply == [] || supply[0].None? then 0 else 1 + Avail(supply[1..])
  }

  /** The answers that are left after `k` allocations. */
  function Drawn(supply: seq<Option<nat>>, k: nat): seq<Option<nat>> { if k <= |supply| then supply[k..] else [] }

  lemma AvailRest(supply: seq<Option<nat>>)
    requires Avail(supply) > 0
    ensures Avail(supply[1..]) == Avail(supply) - 1 && supply[1..] == Drawn(supply, 1)
  {}

  lemma DrawnMore(supply: seq<Option<nat>>, k: nat)
    ensures Drawn(Drawn(supply, k), 1) == Drawn(supply, k + 1) && Drawn(supply, 0) == supply
  {}

  /** What a walk starts from: the tables, the answers of the allocator to come, and the tables cut off before. */
  datatype Setting = Setting(ps: PageSize, size: MapBlockSize, op: Operation, root: nat, m: Memory,
                             supply: seq<Option<nat>>, orphans: set<nat>) {
    /** The pages the allocator can give before it fails. */
    function Pages(): nat { Avail(supply) }

    /** The places of the tables down to `level` that the path to `n` lacks. */
    ghost function MissingTo(level: nat, n: nat): set<Place> {
      if level == 0 then {}
      else
        var number := PathTable(ps, size, level, n);
        MissingTo(level - 1, n) + if TableAt(ps, m, root, level, number).None? then {Place(level, number)} else {}
    }

    /** A block or page is mapped at an entry above `level` of the path. */
    ghost predicate BlockedTo(level: nat, n: nat) {
      && level > 0
      && (BlockedTo(level - 1, n) || Leaf(EntryAt(ps, m, root, level - 1, PathTable(ps, size, level, n))))
    }

    ghost function Missing(n: nat): set<Place> { MissingTo(EndLevel(size), n) }

    ghost predicate Blocked(n: nat) { BlockedTo(EndLevel(size), n) }

    ghost function MissingAll(ns: seq<nat>): set<Place> { set n, p | n in ns && p in Missing(n) :: p }

    /** The walk to entry `ns[k]` cannot reach its table, when those before did and `made` was there already. */
    ghost predicate Stops(made: set<Place>, ns: seq<nat>, k: nat)
      requires k < |ns|
    {
      || Blocked(ns[k])
      || match op
         case MapTo(_) => |made + MissingAll(ns[..k + 1])| > Pages()
         case Unmap => Missing(ns[k]) != {}
    }

    ghost predicate Passes(made: set<Place>, ns: seq<nat>, k: nat)
      requires k <= |ns|
    {
      forall i :: 0 <= i < k ==> !Stops(made, ns, i)
    }

    ghost function Problem(n: nat, address: nat): MapError {
      if Blocked(n) then AlreadyMapped(address)
      else match op case MapTo(_) => Allocator case Unmap => NotMapped(address)
    }

    /** The first of the walks that is stopped, or their number. */
    ghost function FirstStop(ns: seq<nat>, k: nat): (i: nat)
      requires k <= |ns|
      ensures k <= i <= |ns| && (i < |ns| ==> Stops({}, ns, i)) && forall j :: k <= j < i ==> !Stops({}, ns, j)
      decreases |ns| - k
    {
      if k == |ns| || Stops({}, ns, k) then k else FirstStop(ns, k + 1)
    }

    /** The outcome of the planned walk from address `at` on. */
    ghost function Verdict(plan: Plan, at: nat): Outcome {
      var ns := plan.Walks();
      var i := FirstStop(ns, 0);
      if i < |ns| then Err(Problem(ns[i], Skip(ps, size, at, i))) else if plan.panics then Panic else Ok
    }

    /** A walk that had `made` tables and now has `made'` ended as it must. */
    ghost predicate Judged(plan: Plan, at: nat, made: set<Place>, made': set<Place>, r: Outcome, done: nat) {
      var ns := plan.Walks();
      && (!r.Err? ==> made' == made + MissingAll(ns) && Passes(made, ns, |ns|))
      && match r
         case Ok => !plan.panics
         case Panic => plan.panics
         case Err(e) =>
           && done < |ns| && Passes(made, ns, done) && Stops(made, ns, done)
           && e == Problem(ns[done], Skip(ps, size, at, done))
           && made + MissingAll(ns[..done]) <= made' <= made + MissingAll(ns[..done + 1])
           && if e == Allocator then |made'| == Pages() else made' == made + MissingAll(ns[..done])
    }

    /** How many answers of the allocator the walks use: one for each table, and one for a failure. */
    ghost function Used(ns: seq<nat>): nat {
      var i := FirstStop(ns, 0);
      if i == |ns| then |MissingAll(ns)|
      else if Problem(ns[i], 0) == Allocator then Pages() + 1
      else |MissingAll(ns[..i])|
    }
  }

  /** Judging leaves one outcome. */
  lemma OneVerdict(s: Setting, plan: Plan, at: nat, made: set<Place>, r: Outcome, done: nat)
    requires s.Judged(plan, at, {}, made, r, done)
    ensures r == s.Verdict(plan, at) && (r.Err? ==> done == s.FirstStop(plan.Walks(), 0))
    ensures s.Used(plan.Walks()) == |made| + if r == Err(Allocator) then 1 else 0
  {
    hide Setting.Stops, Setting.MissingAll, Setting.Blocked, Setting.Pages, Skip;
    var ns := plan.Walks();
    assert {} + s.MissingAll(ns) == s.MissingAll(ns);
    if r.Err? { assert {} + s.MissingAll(ns[..done]) == s.MissingAll(ns[..done]); }
  }

  lemma {:induction false} ReachedPath(s: Setting, level: nat, n: nat)
    requires Supported(s.ps, s.size) && level <= EndLevel(s.size)
    requires TableAt(s.ps, s.m, s.root, level, PathTable(s.ps, s.size, level, n)).Some?
    ensures s.MissingTo(level, n) == {} && !s.BlockedTo(level, n)
  {
    hide PathTable;
    if level > 0 {
      PathStep(s.ps, s.size, level - 1, n);
      ReachedPath(s, level - 1, n);
    }
  }

  lemma {:induction false} InMissing(s: Setting, l: nat, level: nat, n: nat)
    requires 1 <= l <= level && TableAt(s.ps, s.m, s.root, l, PathTable(s.ps, s.size, l, n)).None?
    ensures Place(l, PathTable(s.ps, s.size, l, n)) in s.MissingTo(level, n)
  {
    hide PathTable, TableAt;
    if l < level { InMissing(s, l, level - 1, n); }
  }

  lemma {:induction false} StillBlocked(s: Setting, l: nat, level: nat, n: nat)
    requires l <= level && s.BlockedTo(l, n)
    ensures s.BlockedTo(level, n)
  {
    hide PathTable, EntryAt;
    if l < level { StillBlocked(s, l, level - 1, n); }
  }

  /** Below a missing table nothing is mapped. */
  lemma {:induction false} NothingBelow(s: Setting, l: nat, level: nat, n: nat)
    requires Supported(s.ps, s.size) && l <= level <= EndLevel(s.size) && !s.BlockedTo(l, n)
    requires TableAt(s.ps, s.m, s.root, l, PathTable(s.ps, s.size, l, n)).None?
    ensures !s.BlockedTo(level, n) && TableAt(s.ps, s.m, s.root, level, PathTable(s.ps, s.size, level, n)).None?
  {
    hide PathTable, EntryIn;
    if l < level {
      NothingBelow(s, l, level - 1, n);
      PathStep(s.ps, s.size, level - 1, n);
      NoEntryIn(s.m, IndexOfEntry(s.ps, level - 1, PathTable(s.ps, s.size, level, n)), level - 1);
    }
  }

  // ---------------------------------------------------------------- the tables a walk has made

  /** Entry `e` of a level, after tables were made in the places `made`. */
  ghost predicate GrewAt(s: Setting, m: Memory, made: set<Place>, l: nat, e: nat) {
    var d0, d := EntryAt(s.ps, s.m, s.root, l, e), EntryAt(s.ps, m, s.root, l, e);
    if Place(l + 1, e) in made then d.Some? && d.value.Table? && (d0 == None || d0 == Some(Empty))
    else d == d0 || (d0 == None && d == Some(Empty))
  }

  /** Above the end level, memory `m` differs from the start only by the tables in the places `made`. */
  ghost predicate Grew(s: Setting, m: Memory, made: set<Place>) {
    forall l: nat, e: nat :: l < EndLevel(s.size) ==> GrewAt(s, m, made, l, e)
  }

  lemma GrewNothing(s: Setting)
    ensures Grew(s, s.m, {})
  {}

  /** A table that is reached now was there or was made, and nothing was in the way. */
  lemma {:induction false} ReachedMade(s: Setting, m: Memory, made: set<Place>, level: nat, n: nat)
    requires Supported(s.ps, s.size) && level <= EndLevel(s.size) && Grew(s, m, made)
    requires TableAt(s.ps, m, s.root, level, PathTable(s.ps, s.size, level, n)).Some?
    ensures s.MissingTo(level, n) <= made && !s.BlockedTo(level, n)
  {
    hide PathTable;
    if level > 0 {
      PathStep(s.ps, s.size, level - 1, n);
      ReachedMade(s, m, made, level - 1, n);
      assert GrewAt(s, m, made, level - 1, PathTable(s.ps, s.size, level, n));
    }
  }

  /** A table made below entry `i` of `t`. */
  lemma GrewAdd(s: Setting, m: Memory, made: set<Place>, places: map<nat, Place>, t: nat, i: nat, page: nat)
    requires TreeOk(s.ps, m, places, s.root) && t in m && t in places && i < Entries(s.ps) && |m[t]| == Entries(s.ps)
    requires page !in m && page % 0x1000 == 0 && page < ADDRESS_LIMIT && places[t].level < EndLevel(s.size)
    requires TableAt(s.ps, m, s.root, places[t].level, places[t].number) == Some(t)
    requires Decode(m[t][i], places[t].level) == Empty && Grew(s, m, made)
    ensures var place := ChildPlace(s.ps, places[t], i);
            Grew(s, AddTable(s.ps, m, t, i, page), made + {place}) && place !in made
  {
    hide Decode, TreeOk, AddTable, TableAt, EntryAt, Child;
    var l, e := places[t].level, Child(s.ps, places[t].level, places[t].number, i);
    EntryAtChild(s.ps, m, s.root, l, places[t].number, i, t);
    assert GrewAt(s, m, made, l, e);
    forall k: nat, f: nat | k < EndLevel(s.size)
      ensures GrewAt(s, AddTable(s.ps, m, t, i, page), made + {ChildPlace(s.ps, places[t], i)}, k, f)
    {
      AddTableAt(s.ps, m, places, s.root, t, i, page, k, TableOfEntry(s.ps, k, f));
      AddEntry(s.ps, m, places, s.root, t, i, page, k, f);
      assert GrewAt(s, m, made, k, f);
    }
  }

  /** Changes at the end level and below do not count. */
  lemma GrewFrame(s: Setting, m: Memory, places: map<nat, Place>, m': Memory, places': map<nat, Place>,
                  made: set<Place>)
    requires TreeOk(s.ps, m, places, s.root) && m.Keys == places.Keys && m'.Keys == places'.Keys
    requires Above(m, places, m', places', EndLevel(s.size)) && Grew(s, m, made)
    ensures Grew(s, m', made)
  {
    hide TreeOk, TableAt, GrewAt, EntryIn;
    forall l: nat, e: nat | l < EndLevel(s.size) ensures GrewAt(s, m', made, l, e) {
      var number := TableOfEntry(s.ps, l, e);
      TableAtFrame(s.ps, m, m', places, s.root, l, number);
      var at := TableAt(s.ps, m, s.root, l, number);
      if at.Some? { TableAtPlace(s.ps, m, places, s.root, l, number); }
      EntryInFrame(m, m', at, IndexOfEntry(s.ps, l, e), l);
      assert GrewAt(s, m, made, l, e);
      SameGrown(s, m, m', made, l, e);
    }
  }

  lemma EntryInFrame(m: Memory, m': Memory, t: Option<nat>, i: nat, level: nat)
    requires t.Some? ==> t.value in m && t.value in m' && m'[t.value] == m[t.value]
    ensures EntryIn(m', t, i, level) == EntryIn(m, t, i, level)
  {}

  lemma SameGrown(s: Setting, m: Memory, m': Memory, made: set<Place>, l: nat, e: nat)
    requires GrewAt(s, m, made, l, e) && EntryAt(s.ps, m', s.root, l, e) == EntryAt(s.ps, m, s.root, l, e)
    ensures GrewAt(s, m', made, l, e)
  {
    hide EntryAt;
  }

  /** A walk that has made these tables, and can still get `free` pages. */
  ghost predicate Tracks(s: Setting, m: Memory, made: set<Place>, free: nat) {
    Grew(s, m, made) && |made| + free == s.Pages() && (s.op.Unmap? ==> made == {})
  }

  lemma TracksGrew(s: Setting, m: Memory, made: set<Place>, free: nat)
    requires Tracks(s, m, made, free)
    ensures Grew(s, m, made)
  {}

  // ---------------------------------------------------------------- judging a walk

  lemma FewMissing(s: Setting, ns: seq<nat>, k: nat, made: set<Place>)
    requires k < |ns| && s.MissingAll(ns) <= made
    ensures |made + s.MissingAll(ns[..k + 1])| == |made| && s.Missing(ns[k]) <= made
  {
    hide Setting.Missing;
    assert ns[k] in ns;
    assert s.MissingAll(ns[..k + 1]) <= s.MissingAll(ns);
    assert made + s.MissingAll(ns[..k + 1]) == made;
  }

  /** At the end level the table has been reached. */
  lemma LeafJudged(s: Setting, m: Memory, made: set<Place>, free: nat, number: nat, plan: Plan, at: nat, done: nat)
    requires Supported(s.ps, s.size) && Tracks(s, m, made, free)
    requires TableAt(s.ps, m, s.root, EndLevel(s.size), number).Some?
    requires Between(plan.Walks(), First(s.ps, s.size, EndLevel(s.size), number),
                     First(s.ps, s.size, EndLevel(s.size), number + 1))
    ensures s.Judged(plan, at, made, made, if plan.panics then Panic else Ok, done)
  {
    hide Grew, TableAt, First, PathTable, Setting.MissingTo, Setting.BlockedTo;
    var ns := plan.Walks();
    forall k | 0 <= k < |ns| ensures s.Missing(ns[k]) <= made && !s.Blocked(ns[k]) {
      PathBetween(s.ps, s.size, EndLevel(s.size), number, ns[k]);
      ReachedMade(s, m, made, EndLevel(s.size), ns[k]);
    }
    assert s.MissingAll(ns) <= made;
    assert made + s.MissingAll(ns) == made;
    forall k | 0 <= k < |ns| ensures !s.Stops(made, ns, k) { FewMissing(s, ns, k, made); }
  }

  /** What is known of the path at an entry that is no table. */
  lemma StopAt(s: Setting, m: Memory, made: set<Place>, level: nat, number: nat, i: nat, t: nat, n: nat)
    requires Supported(s.ps, s.size) && Grew(s, m, made) && level < EndLevel(s.size)
    requires TableAt(s.ps, m, s.root, level, number) == Some(t) && t in m && |m[t]| == Entries(s.ps)
             && i < Entries(s.ps)
    requires level == 0 ==> number == 0
    requires PathTable(s.ps, s.size, level + 1, n) == Child(s.ps, level, number, i)
    requires !Decode(m[t][i], level).Table? && !Decode(m[t][i], level).Invalid?
    ensures s.Blocked(n) <==> !Decode(m[t][i], level).Empty?
    ensures Decode(m[t][i], level).Empty? ==>
              var place := ChildPlace(s.ps, Place(level, number), i); place in s.Missing(n) && place !in made
  {
    hide Decode, PathTable, TableAt, EntryAt, Child;
    var e := Child(s.ps, level, number, i);
    EntryAtChild(s.ps, m, s.root, level, number, i, t);
    EntryOfChild(s.ps, level, number, i);
    PathStep(s.ps, s.size, level, n);
    ReachedMade(s, m, made, level, n);
    assert GrewAt(s, m, made, level, e);
    if Decode(m[t][i], level).Empty? {
      NoTableThere(s, level, e);
      NothingBelow(s, level + 1, EndLevel(s.size), n);
      InMissing(s, level + 1, EndLevel(s.size), n);
    } else {
      StillBlocked(s, level + 1, EndLevel(s.size), n);
    }
  }

  lemma NoTableThere(s: Setting, level: nat, e: nat)
    requires EntryAt(s.ps, s.m, s.root, level, e) == Some(Empty) || EntryAt(s.ps, s.m, s.root, level, e) == None
    ensures TableAt(s.ps, s.m, s.root, level + 1, e) == None
  {}

  /** A walk stopped at its first entry. */
  lemma StopJudged(s: Setting, m: Memory, made: set<Place>, free: nat, level: nat, number: nat, i: nat, t: nat,
                   plan: Plan, at: nat)
    requires Supported(s.ps, s.size) && Tracks(s, m, made, free) && level < EndLevel(s.size)
    requires TableAt(s.ps, m, s.root, level, number) == Some(t) && t in m && |m[t]| == Entries(s.ps)
             && i < Entries(s.ps)
    requires level == 0 ==> number == 0
    requires var n := Child(s.ps, level, number, i);
             Between(plan.Walks(), First(s.ps, s.size, level + 1, n), First(s.ps, s.size, level + 1, n + 1))
    requires !Decode(m[t][i], level).Table? && !Decode(m[t][i], level).Invalid? && plan.Walks() != []
    requires Decode(m[t][i], level).Empty? && s.op.MapTo? ==> free == 0
    ensures s.Judged(plan, at, made, made, Err(if !Decode(m[t][i], level).Empty? then AlreadyMapped(at)
                                               else if s.op.MapTo? then Allocator else NotMapped(at)), 0)
  {
    hide Grew, Decode, PathTable, TableAt, First, Child, Setting.Missing, Setting.Blocked;
    var ns := plan.Walks();
    assert s.MissingAll(ns[..0]) == {};
    PathBetween(s.ps, s.size, level + 1, Child(s.ps, level, number, i), ns[0]);
    StopAt(s, m, made, level, number, i, t, ns[0]);
    SkipNone(s.ps, s.size, at);
    if Decode(m[t][i], level).Empty? {
      var place := ChildPlace(s.ps, Place(level, number), i);
      assert ns[0] in ns[..1];
      assert place in s.MissingAll(ns[..1]);
      MoreThan(made, made + s.MissingAll(ns[..1]), place);
    }
  }

  lemma MoreThan(a: set<Place>, b: set<Place>, p: Place)
    requires a <= b && p in b && p !in a
    ensures |b| > |a|
  {
    assert b == a + (b - a) && p in b - a;
  }

  lemma MissingFirst(s: Setting, ns: seq<nat>, place: Place, made: set<Place>)
    requires ns != [] && place in s.Missing(ns[0])
    ensures made + {place} + s.MissingAll(ns) == made + s.MissingAll(ns)
  {
    hide Setting.Missing;
    assert ns[0] in ns;
    assert place in s.MissingAll(ns);
  }

  lemma SameStops(s: Setting, made: set<Place>, made': set<Place>, ns: seq<nat>, k: nat)
    requires k < |ns| && made + s.MissingAll(ns[..k + 1]) == made' + s.MissingAll(ns[..k + 1])
    ensures s.Stops(made, ns, k) == s.Stops(made', ns, k)
  {
    hide Setting.MissingAll, Setting.Missing, Setting.Blocked;
  }

  /** Making the first missing table of a walk is part of the walk. */
  lemma GrownJudged(s: Setting, plan: Plan, at: nat, made: set<Place>, place: Place, made': set<Place>, r: Outcome,
                    done: nat)
    requires plan.Walks() != [] && place in s.Missing(plan.Walks()[0]) && !s.Blocked(plan.Walks()[0]) && s.op.MapTo?
    requires s.Judged(plan, at, made + {place}, made', r, done)
    ensures s.Judged(plan, at, made, made', r, done)
  {
    hide Setting.Missing, Setting.MissingAll, Setting.Stops, Setting.Blocked, Setting.Pages;
    var ns := plan.Walks();
    MissingFirst(s, ns, place, made);
    forall k | 0 <= k < |ns| ensures s.Stops(made, ns, k) == s.Stops(made + {place}, ns, k) {
      assert ns[..k + 1][0] == ns[0];
      MissingFirst(s, ns[..k + 1], place, made);
      SameStops(s, made, made + {place}, ns, k);
    }
    if r.Err? {
      assert ns[..done + 1][0] == ns[0];
      MissingFirst(s, ns[..done + 1], place, made);
      if done > 0 {
        assert ns[..done][0] == ns[0];
        MissingFirst(s, ns[..done], place, made);
      }
    }
  }

  /** The walks to `pre` were not stopped, and left the tables `made'`. */
  ghost predicate Passed(s: Setting, made: set<Place>, pre: seq<nat>, made': set<Place>) {
    made' == made + s.MissingAll(pre) && s.Passes(made, pre, |pre|)
  }

  lemma PassedNone(s: Setting, made: set<Place>)
    ensures Passed(s, made, [], made)
  {
    hide Setting.Missing;
    assert s.MissingAll([]) == {};
  }

  lemma MissingAppend(s: Setting, a: seq<nat>, b: seq<nat>)
    ensures s.MissingAll(a + b) == s.MissingAll(a) + s.MissingAll(b)
  {
    hide Setting.Missing;
  }

  /** A walk is stopped after others as it is stopped alone. */
  lemma StopsAfter(s: Setting, made: set<Place>, pre: seq<nat>, made': set<Place>, ns: seq<nat>, more: seq<nat>, k: nat)
    requires Passed(s, made, pre, made') && k < |ns|
    ensures s.Stops(made, pre + ns + more, |pre| + k) == s.Stops(made', ns, k)
  {
    hide Setting.Missing, Setting.Blocked, Setting.MissingAll;
    assert (pre + ns + more)[..|pre| + k + 1] == pre + ns[..k + 1];
    MissingAppend(s, pre, ns[..k + 1]);
    assert made' + s.MissingAll(ns[..k + 1]) == made + (s.MissingAll(pre) + s.MissingAll(ns[..k + 1]));
  }

  lemma PassesAfter(s: Setting, made: set<Place>, pre: seq<nat>, made': set<Place>, ns: seq<nat>, more: seq<nat>,
                    k: nat)
    requires Passed(s, made, pre, made') && k <= |ns| && s.Passes(made', ns, k)
    ensures s.Passes(made, pre + ns + more, |pre| + k)
  {
    hide Setting.Stops, Setting.MissingAll;
    var all := pre + ns + more;
    forall i | 0 <= i < |pre| + k ensures !s.Stops(made, all, i) {
      if i >= |pre| {
        StopsAfter(s, made, pre, made', ns, more, i - |pre|);
      } else {
        PassedNone(s, made);
        assert [] + pre + (ns + more) == all;
        StopsAfter(s, made, [], made, pre, ns + more, i);
      }
    }
  }

  /** One entry's part of the plan, after the parts before it. */
  lemma NextJudged(s: Setting, plan: Plan, at: nat, pre: seq<nat>, here: Plan, made: set<Place>, made1: set<Place>,
                   made2: set<Place>, r: Outcome, done: nat)
    requires Passed(s, made, pre, made1) && pre + here.Walks() <= plan.Walks()
    requires here.panics ==> plan.panics && plan.Walks() == pre + here.Walks()
    requires s.Judged(here, Skip(s.ps, s.size, at, |pre|), made1, made2, r, done)
    ensures r.Ok? ==> Passed(s, made, pre + here.Walks(), made2)
    ensures !r.Ok? ==> s.Judged(plan, at, made, made2, r, |pre| + done)
  {
    hide Setting.Stops, Setting.Problem, Setting.MissingAll, Setting.Pages, Skip;
    var ns := here.Walks();
    var more := plan.Walks()[|pre + ns|..];
    assert plan.Walks() == pre + ns + more;
    assert pre + ns + [] == pre + ns;
    MissingAppend(s, pre, ns);
    if r.Err? {
      PassesAfter(s, made, pre, made1, ns, more, done);
      StopsAfter(s, made, pre, made1, ns, more, done);
      assert (pre + ns + more)[..|pre| + done] == pre + ns[..done];
      assert (pre + ns + more)[..|pre| + done + 1] == pre + ns[..done + 1];
      MissingAppend(s, pre, ns[..done]);
      MissingAppend(s, pre, ns[..done + 1]);
      SkipSkip(s.ps, s.size, at, |pre|, done);
    } else {
      PassesAfter(s, made, pre, made1, ns, [], |ns|);
    }
  }

  /** The first table a walk has to make. */
  lemma EnterTracks(s: Setting, m: Memory, made: set<Place>, free: nat, places: map<nat, Place>, t: nat, i: nat,
                    page: nat, n: nat)
    requires Supported(s.ps, s.size) && Tracks(s, m, made, free) && free > 0 && s.op.MapTo?
    requires TreeOk(s.ps, m, places, s.root) && t in m && t in places && i < Entries(s.ps) && |m[t]| == Entries(s.ps)
    requires page !in m && page % 0x1000 == 0 && page < ADDRESS_LIMIT && places[t].level < EndLevel(s.size)
    requires TableAt(s.ps, m, s.root, places[t].level, places[t].number) == Some(t)
    requires Decode(m[t][i], places[t].level) == Empty
    requires PathTable(s.ps, s.size, places[t].level + 1, n) == Child(s.ps, places[t].level, places[t].number, i)
    ensures var place := ChildPlace(s.ps, places[t], i);
            && Tracks(s, AddTable(s.ps, m, t, i, page), made + {place}, free - 1)
            && place in s.Missing(n) && !s.Blocked(n) && |made + {place}| == |made| + 1
  {
    hide Grew, TreeOk, Decode, PathTable, TableAt, AddTable, Child;
    RootNumber(s.ps, m, places, s.root, t);
    StopAt(s, m, made, places[t].level, places[t].number, i, t, n);
    GrewAdd(s, m, made, places, t, i, page);
  }

  lemma FirstPath(ps: PageSize, size: MapBlockSize, level: nat, number: nat, plan: Plan)
    requires plan.Walks() != [] && level > 0
    requires Between(plan.Walks(), First(ps, size, level, number), First(ps, size, level, number + 1))
    ensures PathTable(ps, size, level, plan.Walks()[0]) == number
  {
    hide First, PathTable;
    PathBetween(ps, size, level, number, plan.Walks()[0]);
  }

  lemma PanicJudged(s: Setting, plan: Plan, at: nat, pre: seq<nat>, made: set<Place>, now: set<Place>)
    requires plan.panics && plan.Walks() == pre && Passed(s, made, pre, now)
    ensures s.Judged(plan, at, made, now, Panic, |pre|)
  {
    hide Setting.Stops, Setting.MissingAll;
  }

  // ---------------------------------------------------------------- the tables after a walk

  /** A table that was there or was made is reached, unless something was in the way. */
  lemma {:induction false} MadeReached(s: Setting, m: Memory, made: set<Place>, level: nat, n: nat)
    requires Supported(s.ps, s.size) && level <= EndLevel(s.size) && Grew(s, m, made)
    requires s.MissingTo(level, n) <= made && !s.BlockedTo(level, n)
    ensures TableAt(s.ps, m, s.root, level, PathTable(s.ps, s.size, level, n)).Some?
  {
    hide Quot, TableBlocks;
    if level > 0 {
      MadeReached(s, m, made, level - 1, n);
      var e := PathTable(s.ps, s.size, level, n);
      assert GrewAt(s, m, made, level - 1, e);
    }
  }

  /** At most one table of every level is missing on a path. */
  lemma {:induction false} FewLevels(s: Setting, level: nat, n: nat)
    ensures |s.MissingTo(level, n)| <= level
  {
    hide PathTable, TableAt;
    if level > 0 {
      FewLevels(s, level - 1, n);
      var number := PathTable(s.ps, s.size, level, n);
      var here: set<Place> := if TableAt(s.ps, s.m, s.root, level, number).None? then {Place(level, number)} else {};
      assert s.MissingTo(level, n) == s.MissingTo(level - 1, n) + here;
    }
  }

  lemma {:induction false} FewTables(s: Setting, ns: seq<nat>)
    ensures |s.MissingAll(ns)| <= EndLevel(s.size) * |ns|
  {
    hide Setting.MissingAll, EndLevel;
    if ns == [] {
      PassedNone(s, {});
      assert {} + s.MissingAll([]) == s.MissingAll([]);
    } else {
      var rest, last := ns[..|ns| - 1], ns[|ns| - 1];
      FewTables(s, rest);
      assert ns == rest + [last];
      MissingAppend(s, rest, [last]);
      MissingOne(s, last);
      FewLevels(s, EndLevel(s.size), last);
      MulSub(EndLevel(s.size), |ns|, 1);
    }
  }

  lemma MissingOne(s: Setting, n: nat)
    ensures s.MissingAll([n]) == s.Missing(n)
  {
    hide Setting.Missing;
    assert [n][0] == n;
  }

  /**
   How a walk from `s` has left memory `m` and the allocator: the missing tables were made, each with one page, or
   those of the walks before the one that was stopped and, if the pages ran out, some of its own.
   */
  ghost predicate Made(s: Setting, m: Memory, supply: seq<Option<nat>>, ns: seq<nat>, r: Outcome, done: nat) {
    && supply == Drawn(s.supply, s.Used(ns))
    && if !r.Err? then Grew(s, m, s.MissingAll(ns))
       else && done < |ns|
            && if r == Err(Allocator)
               then exists now :: s.MissingAll(ns[..done]) <= now <= s.MissingAll(ns[..done + 1])
                                  && |now| == s.Pages() && Grew(s, m, now)
               else Grew(s, m, s.MissingAll(ns[..done]))
  }

  lemma MadeSo(s: Setting, m: Memory, supply: seq<Option<nat>>, plan: Plan, at: nat, r: Outcome, done: nat,
               now: set<Place>)
    requires s.Judged(plan, at, {}, now, r, done) && Grew(s, m, now)
    requires supply == Drawn(s.supply, |now| + if r == Err(Allocator) then 1 else 0)
    ensures Made(s, m, supply, plan.Walks(), r, done)
  {
    hide Setting.MissingAll, Setting.Stops, Setting.Problem, Setting.FirstStop, Setting.Verdict, Setting.Pages,
         Setting.Used, Grew, Drawn;
    var ns := plan.Walks();
    OneVerdict(s, plan, at, now, r, done);
    assert {} + s.MissingAll(ns) == s.MissingAll(ns);
    if r.Err? {
      assert {} + s.MissingAll(ns[..done]) == s.MissingAll(ns[..done]);
      assert {} + s.MissingAll(ns[..done + 1]) == s.MissingAll(ns[..done + 1]);
    }
  }
}
