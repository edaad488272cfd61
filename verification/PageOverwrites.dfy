/** Which tables a walk cuts off: those whose entry it overwrites with a block, or clears. */
module PageOverwrites {
  import opened Common
  import opened PageEntry
  import opened PageTree
  import opened PageWalker
  import opened PageObstacles

  function Seen(ns: seq<nat>): set<nat> { set n | n in ns }

  /** The table below end-level entry `e`, where the walk starts. */
  ghost function Below(s: Setting, e: nat): Option<nat> { TableAt(s.ps, s.m, s.root, EndLevel(s.size) + 1, e) }

  ghost function Overwritten(s: Setting, seen: set<nat>): set<nat> {
    set e | e in seen && Below(s, e).Some? :: Below(s, e).value
  }

  /** End-level entry `e`, after a walk that wrote the entries `seen`. */
  ghost predicate LeavesAt(s: Setting, m: Memory, seen: set<nat>, e: nat) {
    var l := EndLevel(s.size);
    var d0, d := EntryAt(s.ps, s.m, s.root, l, e), EntryAt(s.ps, m, s.root, l, e);
    if e in seen then d.Some? && !d.value.Table? else d == d0 || (d0 == None && d == Some(Empty))
  }

  /** The entries `seen` point to no table, and the other entries of the end level are as before or in new tables. */
  ghost predicate Leaves(s: Setting, m: Memory, seen: set<nat>) { forall e: nat :: LeavesAt(s, m, seen, e) }

  /** A walk from `s` has written the end-level entries `seen` and cut off the tables below them, and no others. */
  ghost predicate Overwrote(s: Setting, m: Memory, orphans: set<nat>, seen: set<nat>) {
    Leaves(s, m, seen) && orphans == s.orphans + Overwritten(s, seen)
  }

  lemma OverwroteNothing(s: Setting)
    ensures Overwrote(s, s.m, s.orphans, {}) && Overwritten(s, {}) == {}
  {
    hide EntryAt, Below;
    assert Overwritten(s, {}) == {};
  }

  lemma BelowEntry(s: Setting, e: nat)
    ensures Below(s, e) == match EntryAt(s.ps, s.m, s.root, EndLevel(s.size), e)
                           case Some(Table(c)) => Some(c)
                           case _ => None
  {}

  /** A new table does not change the end level, except that it may be there. */
  lemma LeavesAdd(s: Setting, m: Memory, places: map<nat, Place>, t: nat, i: nat, page: nat, seen: set<nat>)
    requires TreeOk(s.ps, m, places, s.root) && t in m && t in places && i < Entries(s.ps) && |m[t]| == Entries(s.ps)
    requires page !in m && page % 0x1000 == 0 && page < ADDRESS_LIMIT && places[t].level < EndLevel(s.size)
    requires TableAt(s.ps, m, s.root, places[t].level, places[t].number) == Some(t)
    requires Decode(m[t][i], places[t].level) == Empty && Leaves(s, m, seen)
    ensures Leaves(s, AddTable(s.ps, m, t, i, page), seen)
  {
    hide Decode, TreeOk, AddTable, TableAt, EntryAt, Child;
    var l := EndLevel(s.size);
    forall e: nat ensures LeavesAt(s, AddTable(s.ps, m, t, i, page), seen, e) {
      AddTableAt(s.ps, m, places, s.root, t, i, page, l, TableOfEntry(s.ps, l, e));
      AddEntry(s.ps, m, places, s.root, t, i, page, l, e);
      assert LeavesAt(s, m, seen, e);
    }
  }

  lemma OverwroteAdd(s: Setting, m: Memory, places: map<nat, Place>, orphans: set<nat>, t: nat, i: nat, page: nat,
                     seen: set<nat>)
    requires TreeOk(s.ps, m, places, s.root) && t in m && t in places && i < Entries(s.ps) && |m[t]| == Entries(s.ps)
    requires page !in m && page % 0x1000 == 0 && page < ADDRESS_LIMIT && places[t].level < EndLevel(s.size)
    requires TableAt(s.ps, m, s.root, places[t].level, places[t].number) == Some(t)
    requires Decode(m[t][i], places[t].level) == Empty && Overwrote(s, m, orphans, seen)
    ensures Overwrote(s, AddTable(s.ps, m, t, i, page), orphans, seen)
  {
    hide Decode, TreeOk, AddTable, TableAt, Leaves, Overwritten;
    LeavesAdd(s, m, places, t, i, page, seen);
  }

  /** The first table that a walk has to make on its way to `plan`. */
  lemma Enter(s: Setting, m: Memory, made: set<Place>, supply: seq<Option<nat>>, places: map<nat, Place>,
              orphans: set<nat>, t: nat, i: nat, page: nat, seen: set<nat>, plan: Plan)
    requires Supported(s.ps, s.size) && Tracks(s, m, made, Avail(supply)) && Avail(supply) > 0 && s.op.MapTo?
    requires TreeOk(s.ps, m, places, s.root) && t in m && t in places && i < Entries(s.ps) && |m[t]| == Entries(s.ps)
    requires page !in m && page % 0x1000 == 0 && page < ADDRESS_LIMIT && places[t].level < EndLevel(s.size)
    requires TableAt(s.ps, m, s.root, places[t].level, places[t].number) == Some(t)
    requires Decode(m[t][i], places[t].level) == Empty && Overwrote(s, m, orphans, seen)
    requires var l, n := places[t].level + 1, Child(s.ps, places[t].level, places[t].number, i);
             plan.Walks() != [] && Between(plan.Walks(), First(s.ps, s.size, l, n), First(s.ps, s.size, l, n + 1))
    requires supply == Drawn(s.supply, |made|)
    ensures var m', place := AddTable(s.ps, m, t, i, page), ChildPlace(s.ps, places[t], i);
            && Tracks(s, m', made + {place}, Avail(supply[1..])) && supply[1..] == Drawn(s.supply, |made + {place}|)
            && Overwrote(s, m', orphans, seen)
            && place in s.Missing(plan.Walks()[0]) && !s.Blocked(plan.Walks()[0])
  {
    hide Decode, TreeOk, AddTable, TableAt, Overwrote, Tracks, Avail, Child, First, Between, PathTable, Drawn,
         Setting.Missing, Setting.Blocked;
    AvailRest(supply);
    DrawnMore(s.supply, |made|);
    OverwroteAdd(s, m, places, orphans, t, i, page, seen);
    FirstPath(s.ps, s.size, places[t].level + 1, Child(s.ps, places[t].level, places[t].number, i), plan);
    EnterTracks(s, m, made, Avail(supply), places, t, i, page, plan.Walks()[0]);
  }

  /** What writing entry `i` of table `t` does to the entries of its level. */
  lemma WriteEntry(ps: PageSize, m: Memory, places: map<nat, Place>, root: nat, t: nat, i: nat, entry: nat, e: nat)
    requires TreeOk(ps, m, places, root) && t in m && t in places && i < Entries(ps) && |m[t]| == Entries(ps)
    requires TableAt(ps, m, root, places[t].level, places[t].number) == Some(t)
    ensures var l, m' := places[t].level, Write(m, t, i, entry);
            && TableAt(ps, m', root, l, places[t].number) == Some(t)
            && EntryAt(ps, m', root, l, e)
               == if e == Child(ps, l, places[t].number, i) then Some(Decode(entry, l)) else EntryAt(ps, m, root, l, e)
  {
    hide Decode, TreeOk, TableAt, Child, TableOfEntry, IndexOfEntry;
    var l, m', number := places[t].level, Write(m, t, i, entry), TableOfEntry(ps, places[t].level, e);
    RootNumber(ps, m, places, root, t);
    EntryOfChild(ps, l, places[t].number, i);
    ChildOfEntry(ps, l, e);
    TableAtFrame(ps, m, m', places, root, l, places[t].number);
    TableAtFrame(ps, m, m', places, root, l, number);
    if TableAt(ps, m, root, l, number).Some? { TableAtPlace(ps, m, places, root, l, number); }
  }

  /** A leaf or an empty entry in the place of entry `i` of table `t`. */
  lemma OverwroteLeaf(s: Setting, m: Memory, places: map<nat, Place>, orphans: set<nat>, t: nat, i: nat, entry: nat,
                      seen: set<nat>)
    requires TreeOk(s.ps, m, places, s.root) && t in m && t in places && i < Entries(s.ps) && |m[t]| == Entries(s.ps)
    requires places[t].level == EndLevel(s.size) && !Decode(entry, EndLevel(s.size)).Table?
    requires TableAt(s.ps, m, s.root, places[t].level, places[t].number) == Some(t)
    requires Overwrote(s, m, orphans, seen)
    ensures var l, d := places[t].level, Decode(m[t][i], places[t].level);
            var m', seen' := Write(m, t, i, entry), seen + {Child(s.ps, l, places[t].number, i)};
            && TableAt(s.ps, m', s.root, l, places[t].number) == Some(t)
            && Overwrote(s, m', if d.Table? then orphans + {d.address} else orphans, seen')
  {
    hide Decode, TreeOk, TableAt, EntryAt, Child, Write, EndLevel, Below;
    var l, m', n := places[t].level, Write(m, t, i, entry), Child(s.ps, places[t].level, places[t].number, i);
    forall e: nat ensures LeavesAt(s, m', seen + {n}, e) {
      WriteEntry(s.ps, m, places, s.root, t, i, entry, e);
      assert LeavesAt(s, m, seen, e);
    }
    WriteEntry(s.ps, m, places, s.root, t, i, entry, n);
    EntryAtChild(s.ps, m, s.root, l, places[t].number, i, t);
    assert LeavesAt(s, m, seen, n);
    BelowEntry(s, n);
    OverwrittenMore(s, seen, n);
  }

  lemma OverwrittenMore(s: Setting, seen: set<nat>, n: nat)
    ensures Overwritten(s, seen + {n})
            == Overwritten(s, seen) + if Below(s, n).Some? then {Below(s, n).value} else {}
  {
    hide Below;
  }

  /** Page entries point to no table. */
  lemma PagesOverwriteNothing(s: Setting, seen: set<nat>)
    requires s.size.SinglePage?
    ensures Overwritten(s, seen) == {}
  {
    hide TableAt;
    forall e: nat ensures Below(s, e).None? { BelowEntry(s, e); }
  }

  lemma SeenNone(seen: set<nat>, visits: seq<nat>)
    ensures seen + Seen(visits[..0]) == seen
  {}

  lemma SeenAll(visits: seq<nat>)
    ensures Seen(visits[..|visits|]) == Seen(visits)
  {
    assert visits[..|visits|] == visits;
  }

  lemma SeenOne(seen: set<nat>, visits: seq<nat>, i: nat)
    requires i < |visits|
    ensures seen + Seen(visits[..i]) + {visits[i]} == seen + Seen(visits[..i + 1])
  {
    assert visits[..i + 1] == visits[..i] + [visits[i]];
  }

  /** The entries written before and with one part of a walk. */
  lemma SeenParts(seen: set<nat>, visits: seq<nat>, pre: seq<nat>, here: seq<nat>, done: nat)
    requires pre + here <= visits && done <= |here|
    ensures seen + Seen(pre) + Seen(here[..done]) == seen + Seen(visits[..|pre| + done])
  {
    assert visits[..|pre| + done] == pre + here[..done];
  }
}
