/** Who points to which table: dropping the tree frees each once, unless an entry for it was overwritten. */
module PageOwnership {
  import opened PageEntry
  import opened PageTree
  import opened PageWalker

  /** Entry `i` of table `t` points to table `c`. */
  ghost predicate Points(m: Memory, places: map<nat, Place>, t: nat, i: nat, c: nat) {
    t in m && t in places && i < |m[t]| && Decode(m[t][i], places[t].level) == Table(c)
  }

  ghost predicate OneParent(m: Memory, places: map<nat, Place>) {
    forall t, i, t', i', c :: Points(m, places, t, i, c) && Points(m, places, t', i', c) ==> t == t' && i == i'
  }

  /** No entry points to the root; the other tables without an entry for them are `orphans`. */
  ghost predicate Links(m: Memory, places: map<nat, Place>, root: nat, orphans: set<nat>) {
    && OneParent(m, places)
    && (forall t, i :: !Points(m, places, t, i, root))
    && (forall c :: c in orphans ==> c in m && c != root && forall t, i :: !Points(m, places, t, i, c))
    && (forall c :: c in m && c != root && c !in orphans ==> exists t, i :: Points(m, places, t, i, c))
  }

  /** What writing entry `i` of table `t` does to the pointers. */
  lemma PointsWrite(m: Memory, places: map<nat, Place>, t: nat, i: nat, entry: nat, a: nat, j: nat, c: nat)
    requires t in m && t in places && i < |m[t]|
    ensures Points(Write(m, t, i, entry), places, a, j, c)
            <==> if a == t && j == i then Decode(entry, places[t].level) == Table(c) else Points(m, places, a, j, c)
  {
    hide Decode;
  }

  /** A leaf written over a table entry makes that table an orphan. */
  lemma LinksLeaf(m: Memory, places: map<nat, Place>, root: nat, orphans: set<nat>, t: nat, i: nat, entry: nat)
    requires Links(m, places, root, orphans) && t in m && t in places && i < |m[t]|
    requires !Decode(entry, places[t].level).Table?
    requires var d := Decode(m[t][i], places[t].level); d.Table? ==> d.address in m
    ensures var d := Decode(m[t][i], places[t].level);
            Links(Write(m, t, i, entry), places, root, if d.Table? then orphans + {d.address} else orphans)
  {
    hide Decode;
    var m', d := Write(m, t, i, entry), Decode(m[t][i], places[t].level);
    forall a, j, c ensures Points(m', places, a, j, c) <==> Points(m, places, a, j, c) && !(a == t && j == i) {
      PointsWrite(m, places, t, i, entry, a, j, c);
    }
    hide Write;
    assert d.Table? ==> Points(m, places, t, i, d.address);
    hide Points;
    forall c | c in m' && c != root && c !in (if d.Table? then orphans + {d.address} else orphans)
      ensures exists a, j :: Points(m', places, a, j, c)
    {
      var a, j :| Points(m, places, a, j, c);
      assert a == t && j == i ==> d == Table(c) by { assert Points(m, places, t, i, c) ==> d == Table(c); }
      assert Points(m', places, a, j, c);
    }
  }

  /** A new table has the one entry it was created for. */
  lemma LinksGrow(ps: PageSize, m: Memory, places: map<nat, Place>, root: nat, orphans: set<nat>,
                  t: nat, i: nat, page: nat)
    requires TreeOk(ps, m, places, root) && Links(m, places, root, orphans)
    requires t in m && i < |m[t]| && places[t].level <= 2 && page !in m && page % 0x1000 == 0 && page < ADDRESS_LIMIT
    requires Decode(m[t][i], places[t].level).Empty?
    ensures Links(AddTable(ps, m, t, i, page), places[page := ChildPlace(ps, places[t], i)], root, orphans)
  {
    hide Decode, ForTable, TreeOk, Points, AddTable, ZeroPage, ChildPlace;
    SameKeys(ps, m, places, root, t, i, page);
    var places' := places[page := ChildPlace(ps, places[t], i)];
    var m' := AddTable(ps, m, t, i, page);
    forall a, j, c
      ensures Points(m', places', a, j, c) <==> Points(m, places, a, j, c) || (a == t && j == i && c == page)
    {
      PointsGrow(ps, m, places, t, i, page, a, j, c);
    }
    forall a, j, c | Points(m, places, a, j, c) ensures c in m { PointsInside(ps, m, places, root, a, j, c); }
    forall c | c in m' && c != root && c !in orphans ensures exists a, j :: Points(m', places', a, j, c) {
      if c == page {
        assert Points(m', places', t, i, c);
      } else {
        var a, j :| Points(m, places, a, j, c);
        assert Points(m', places', a, j, c);
      }
    }
  }

  lemma SameKeys(ps: PageSize, m: Memory, places: map<nat, Place>, root: nat, t: nat, i: nat, page: nat)
    requires TreeOk(ps, m, places, root) && t in m && i < |m[t]| && page !in m && page % 0x1000 == 0
    ensures m.Keys == places.Keys && AddTable(ps, m, t, i, page).Keys == m.Keys + {page} && root in m
  {}

  lemma PointsGrow(ps: PageSize, m: Memory, places: map<nat, Place>, t: nat, i: nat, page: nat,
                   a: nat, j: nat, c: nat)
    requires t in m && t in places && i < |m[t]| && places[t].level <= 2
    requires page !in m && page % 0x1000 == 0 && page < ADDRESS_LIMIT
    requires Decode(m[t][i], places[t].level).Empty?
    ensures Points(AddTable(ps, m, t, i, page), places[page := ChildPlace(ps, places[t], i)], a, j, c)
            <==> Points(m, places, a, j, c) || (a == t && j == i && c == page)
  {
    var places', m1 := places[page := ChildPlace(ps, places[t], i)], m[page := ZeroPage(ps)];
    assert page % ADDRESS_LIMIT == page;
    hide Decode, ForTable;
    TableRoundTrip(page, places[t].level);
    PointsWrite(m1, places', t, i, ForTable(page), a, j, c);
    assert m1[t] == m[t];
    hide Write;
    if a == page { ZeroPoints(ps, m1, places', a, j, c); }
  }

  lemma ZeroPoints(ps: PageSize, m: Memory, places: map<nat, Place>, a: nat, j: nat, c: nat)
    requires a in m && m[a] == ZeroPage(ps)
    ensures !Points(m, places, a, j, c)
  {}

  /** Tables point to tables one level down. */
  lemma PointsInside(ps: PageSize, m: Memory, places: map<nat, Place>, root: nat, a: nat, j: nat, c: nat)
    requires TreeOk(ps, m, places, root) && Points(m, places, a, j, c)
    ensures c in m && places[c].level == places[a].level + 1 && places[a].level <= 2
  {
    hide Decode;
    assert TableOk(ps, places, places[a], m[a]);
    assert EntryOk(ps, places, places[a], j, m[a][j]);
    assert TableOk(ps, places, places[c], m[c]);
  }

  // ---------------------------------------------------------------- dropping

  /** The pages freed by `drop_table`, in order. */
  function Dropped(m: Memory, t: nat, level: nat): seq<nat>
    decreases 4 - level, 1, 0
  {
    if level > 3 || t !in m then [] else DroppedBelow(m, t, level, |m[t]|) + [t]
  }

  /** Those freed for the first `k` entries of a table. */
  function DroppedBelow(m: Memory, t: nat, level: nat, k: nat): seq<nat>
    requires level <= 3 && t in m && k <= |m[t]|
    decreases 4 - level, 0, k
  {
    if k == 0 then [] else
      var d := Decode(m[t][k - 1], level);
      DroppedBelow(m, t, level, k - 1) + if d.Table? then Dropped(m, d.address, level + 1) else []
  }

  lemma {:induction false} DroppedFrom(m: Memory, t: nat, level: nat, k: nat, x: nat) returns (i: nat)
    requires level <= 3 && t in m && k <= |m[t]| && x in DroppedBelow(m, t, level, k)
    ensures i < k
    ensures var d := Decode(m[t][i], level); d.Table? && x in Dropped(m, d.address, level + 1)
    decreases k
  {
    hide Decode, Dropped;
    if x in DroppedBelow(m, t, level, k - 1) { i := DroppedFrom(m, t, level, k - 1, x); } else { i := k - 1; }
  }

  /** What is freed with a table is at its level only that table. */
  lemma {:induction false} DroppedLevels(ps: PageSize, m: Memory, places: map<nat, Place>, root: nat,
                                         t: nat, level: nat, x: nat)
    requires TreeOk(ps, m, places, root) && t in m && places[t].level == level <= 3 && x in Dropped(m, t, level)
    ensures x in m && x in places && places[x].level >= level && (places[x].level == level ==> x == t)
    decreases 4 - level
  {
    if x != t {
      var i, c := DroppedChild(ps, m, places, root, t, level, x);
      DroppedLevels(ps, m, places, root, c, level + 1, x);
    }
  }

  /** The child through which a table is freed. */
  lemma DroppedChild(ps: PageSize, m: Memory, places: map<nat, Place>, root: nat, t: nat, level: nat, x: nat)
    returns (i: nat, c: nat)
    requires TreeOk(ps, m, places, root) && t in m && places[t].level == level <= 3
    requires x in Dropped(m, t, level) && x != t
    ensures Points(m, places, t, i, c) && c in m && places[c].level == level + 1 <= 3 && x in Dropped(m, c, level + 1)
  {
    hide Decode, DroppedBelow;
    i := DroppedFrom(m, t, level, |m[t]|, x);
    c := Decode(m[t][i], level).address;
    PointsInside(ps, m, places, root, t, i, c);
  }

  /** A table is freed through one table of each level only. */
  lemma {:induction false} DroppedOnce(ps: PageSize, m: Memory, places: map<nat, Place>, root: nat,
                                       t: nat, t': nat, level: nat, x: nat)
    requires TreeOk(ps, m, places, root) && OneParent(m, places) && level <= 3
    requires t in m && places[t].level == level && x in Dropped(m, t, level)
    requires t' in m && places[t'].level == level && x in Dropped(m, t', level)
    ensures t == t'
    decreases 4 - level
  {
    hide TreeOk, Dropped, Points;
    DroppedLevels(ps, m, places, root, t, level, x);
    DroppedLevels(ps, m, places, root, t', level, x);
    if places[x].level > level {
      var i, c := DroppedChild(ps, m, places, root, t, level, x);
      var i', c' := DroppedChild(ps, m, places, root, t', level, x);
      DroppedOnce(ps, m, places, root, c, c', level + 1, x);
    }
  }

  ghost predicate Distinct(s: seq<nat>) { forall i, j :: 0 <= i < j < |s| ==> s[i] != s[j] }

  lemma DistinctAppend(a: seq<nat>, b: seq<nat>)
    requires Distinct(a) && Distinct(b) && forall x :: x in a ==> x !in b
    ensures Distinct(a + b)
  {
    forall i, j | 0 <= i < j < |a + b| ensures (a + b)[i] != (a + b)[j] {
      if i < |a| <= j { assert (a + b)[i] in a && (a + b)[j] in b; }
    }
  }

  lemma {:induction false} DroppedDistinct(ps: PageSize, m: Memory, places: map<nat, Place>, root: nat, t: nat,
                                           level: nat)
    requires TreeOk(ps, m, places, root) && OneParent(m, places) && t in m && places[t].level == level <= 3
    ensures Distinct(Dropped(m, t, level))
    decreases 4 - level, 1, 0
  {
    DroppedBelowDistinct(ps, m, places, root, t, level, |m[t]|);
    forall x | x in DroppedBelow(m, t, level, |m[t]|) ensures x != t {
      hide Decode, DroppedBelow;
      var i := DroppedFrom(m, t, level, |m[t]|, x);
      var c := Decode(m[t][i], level).address;
      PointsInside(ps, m, places, root, t, i, c);
      DroppedLevels(ps, m, places, root, c, level + 1, x);
    }
    DistinctAppend(DroppedBelow(m, t, level, |m[t]|), [t]);
  }

  lemma {:induction false} DroppedBelowDistinct(ps: PageSize, m: Memory, places: map<nat, Place>, root: nat,
                                                t: nat, level: nat, k: nat)
    requires TreeOk(ps, m, places, root) && OneParent(m, places) && t in m && places[t].level == level <= 3
             && k <= |m[t]|
    ensures Distinct(DroppedBelow(m, t, level, k))
    decreases 4 - level, 0, k
  {
    if k > 0 {
      hide Decode, Dropped;
      DroppedBelowDistinct(ps, m, places, root, t, level, k - 1);
      var d := Decode(m[t][k - 1], level);
      if d.Table? {
        assert Points(m, places, t, k - 1, d.address);
        PointsInside(ps, m, places, root, t, k - 1, d.address);
        DroppedDistinct(ps, m, places, root, d.address, level + 1);
        var before, here := DroppedBelow(m, t, level, k - 1), Dropped(m, d.address, level + 1);
        forall x | x in before ensures x !in here { DroppedApart(ps, m, places, root, t, level, k - 1, x); }
        DistinctAppend(before, here);
      }
    }
  }

  /** Nothing is freed through two entries of a table. */
  lemma DroppedApart(ps: PageSize, m: Memory, places: map<nat, Place>, root: nat, t: nat, level: nat, k: nat, x: nat)
    requires TreeOk(ps, m, places, root) && OneParent(m, places) && t in m && places[t].level == level <= 3
             && k < |m[t]|
    requires x in DroppedBelow(m, t, level, k)
    requires Decode(m[t][k], level).Table?
    ensures x !in Dropped(m, Decode(m[t][k], level).address, level + 1)
  {
    hide Decode, Dropped, DroppedBelow;
    var i := DroppedFrom(m, t, level, k, x);
    var c, c' := Decode(m[t][i], level).address, Decode(m[t][k], level).address;
    PointsInside(ps, m, places, root, t, i, c);
    PointsInside(ps, m, places, root, t, k, c');
    assert Points(m, places, t, i, c) && Points(m, places, t, k, c');
    if x in Dropped(m, c', level + 1) {
      DroppedOnce(ps, m, places, root, c, c', level + 1, x);
    }
  }

  // ---------------------------------------------------------------- what is freed in all

  lemma {:induction false} DroppedContains(m: Memory, t: nat, level: nat, k: nat, i: nat, x: nat)
    requires level <= 3 && t in m && i < k <= |m[t]|
    requires var d := Decode(m[t][i], level); d.Table? && x in Dropped(m, d.address, level + 1)
    ensures x in DroppedBelow(m, t, level, k)
    decreases k
  {
    hide Decode, Dropped;
    if i < k - 1 { DroppedContains(m, t, level, k - 1, i, x); }
  }

  /** With a table the tables it points to are freed. */
  lemma {:induction false} DroppedClosed(ps: PageSize, m: Memory, places: map<nat, Place>, root: nat,
                                         t: nat, level: nat, p: nat, i: nat, c: nat)
    requires TreeOk(ps, m, places, root) && t in m && places[t].level == level <= 3
    requires p in Dropped(m, t, level) && Points(m, places, p, i, c)
    ensures c in Dropped(m, t, level)
    decreases 4 - level
  {
    PointsInside(ps, m, places, root, p, i, c);
    if p == t {
      hide Decode, DroppedBelow;
      assert c in Dropped(m, c, level + 1);
      DroppedContains(m, t, level, |m[t]|, i, c);
    } else {
      var j, d := DroppedChild(ps, m, places, root, t, level, p);
      DroppedClosed(ps, m, places, root, d, level + 1, p, i, c);
      hide Decode, DroppedBelow;
      DroppedContains(m, t, level, |m[t]|, j, c);
    }
  }

  /** Only the first table is freed without an entry for it. */
  lemma {:induction false} DroppedHasParent(ps: PageSize, m: Memory, places: map<nat, Place>, root: nat,
                                            t: nat, level: nat, x: nat)
    requires TreeOk(ps, m, places, root) && t in m && places[t].level == level <= 3
    requires x in Dropped(m, t, level) && x != t
    ensures exists p, i :: Points(m, places, p, i, x)
    decreases 4 - level
  {
    var j, d := DroppedChild(ps, m, places, root, t, level, x);
    if x != d { DroppedHasParent(ps, m, places, root, d, level + 1, x); }
  }

  lemma {:induction false} DroppedReaches(ps: PageSize, m: Memory, places: map<nat, Place>, root: nat, c: nat)
    requires TreeOk(ps, m, places, root) && Links(m, places, root, {}) && c in m
    ensures c in Dropped(m, root, 0)
    decreases places[c].level
  {
    if c != root {
      var p, i :| Points(m, places, p, i, c);
      PointsInside(ps, m, places, root, p, i, c);
      DroppedReaches(ps, m, places, root, p);
      DroppedClosed(ps, m, places, root, root, 0, p, i, c);
    }
  }

  /**
   Dropping the tree frees pages of the tree only, none twice, and all of them if and only if no
   entry for a table was ever overwritten.
   */
  lemma DropFreesOnce(ps: PageSize, m: Memory, places: map<nat, Place>, root: nat, orphans: set<nat>)
    requires TreeOk(ps, m, places, root) && Links(m, places, root, orphans)
    ensures Distinct(Dropped(m, root, 0))
    ensures forall c :: c in Dropped(m, root, 0) ==> c in m
    ensures (forall c :: c in m ==> c in Dropped(m, root, 0)) <==> orphans == {}
  {
    DroppedDistinct(ps, m, places, root, root, 0);
    forall c | c in Dropped(m, root, 0) ensures c in m { DroppedLevels(ps, m, places, root, root, 0, c); }
    if orphans == {} {
      forall c | c in m ensures c in Dropped(m, root, 0) { DroppedReaches(ps, m, places, root, c); }
    } else {
      var c :| c in orphans;
      if c in Dropped(m, root, 0) { DroppedHasParent(ps, m, places, root, root, 0, c); }
    }
  }
}
