/** `drop_children` of kernel_core/src/collections/handle_map.rs. */
module HandleDrop {
  import opened Common
  import opened Arithmetic
  import opened HandleTree
  import opened HandleMap
  import opened HandleWalk

  /** What is stored for `h` below table `t`. */
  ghost function Below<V>(d: nat, m: Tables<V>, t: nat, level: nat, h: nat): Option<V>
    requires level < d
    decreases d - level
  {
    if t !in m || |m[t]| != 256 then None
    else
      match m[t][Index(d, h, level)]
      case Empty => None
      case Value(v) => if level + 1 == d then Some(v) else None
      case Child(c) => if level + 1 < d then Below(d, m, c, level + 1, h) else None
  }

  /** The walk from the root down meets the table on the path at every level. */
  lemma {:induction false} BelowPath<V>(d: nat, m: Tables<V>, root: nat, h: nat, level: nat)
    requires level < d && PathTable(d, m, root, h, level).Some?
    ensures Stored(d, m, root, h) == Below(d, m, PathTable(d, m, root, h, level).value, level, h)
    decreases d - level
  {
    hide Index;
    var t := PathTable(d, m, root, h, level).value;
    if level + 1 < d {
      if t in m && |m[t]| == 256 && m[t][Index(d, h, level)].Child? {
        BelowPath(d, m, root, h, level + 1);
      } else {
        PathStops(d, m, root, h, level, d - 1);
      }
    }
  }

  /** The values released for table `t` with their handles, in order. */
  function Released<V>(d: nat, m: Tables<V>, t: nat, level: nat, prefix: nat): seq<(nat, V)>
    requires level < d
    decreases d - level, 1, 0
  {
    if t !in m || |m[t]| != 256 then [] else ReleasedBelow(d, m, t, level, prefix, 256)
  }

  /** Those of its first `k` entries. */
  function ReleasedBelow<V>(d: nat, m: Tables<V>, t: nat, level: nat, prefix: nat, k: nat): seq<(nat, V)>
    requires level < d && t in m && |m[t]| == 256 && k <= 256
    decreases d - level, 0, k
  {
    if k == 0 then [] else
      ReleasedBelow(d, m, t, level, prefix, k - 1) +
      match m[t][k - 1]
      case Empty => []
      case Value(v) => [(prefix * 256 + (k - 1), v)]
      case Child(c) => if level + 1 < d then Released(d, m, c, level + 1, prefix * 256 + (k - 1)) else []
  }

  /** A value of one entry. */
  ghost predicate FromEntry<V>(d: nat, m: Tables<V>, t: nat, level: nat, prefix: nat, i: nat, x: (nat, V))
    requires level < d && t in m && |m[t]| == 256 && i < 256
  {
    match m[t][i]
    case Empty => false
    case Value(v) => x == (prefix * 256 + i, v)
    case Child(c) => level + 1 < d && x in Released(d, m, c, level + 1, prefix * 256 + i)
  }

  lemma {:induction false} ReleasedFrom<V>(d: nat, m: Tables<V>, t: nat, level: nat, prefix: nat, k: nat, x: (nat, V))
    requires level < d && t in m && |m[t]| == 256 && k <= 256
    ensures x in ReleasedBelow(d, m, t, level, prefix, k)
            <==> exists i :: 0 <= i < k && FromEntry(d, m, t, level, prefix, i, x)
    decreases k
  {
    hide Released;
    if k > 0 {
      ReleasedFrom(d, m, t, level, prefix, k - 1, x);
      if x in ReleasedBelow(d, m, t, level, prefix, k) && x !in ReleasedBelow(d, m, t, level, prefix, k - 1) {
        assert FromEntry(d, m, t, level, prefix, k - 1, x);
      }
    }
  }

  /** Exactly the stored values below a table are released for it. */
  lemma {:induction false} ReleasedIs<V>(d: nat, m: Tables<V>, places: map<nat, Place>, root: nat,
                                         t: nat, level: nat, prefix: nat, h: nat, v: V)
    requires TreeOk(d, m, places, root) && t in m && places[t] == Place(level, prefix) && level < d
    ensures (h, v) in Released(d, m, t, level, prefix)
            <==> Prefix(d, h, level) == prefix && Below(d, m, t, level, h) == Some(v)
    decreases d - level, 1
  {
    hide Index, Prefix, Pow256, TreeOk, ReleasedBelow;
    assert |m[t]| == 256 by { Row(d, m, places, root, t); }
    ReleasedFrom(d, m, t, level, prefix, 256, (h, v));
    PrefixStep(d, h, level);
    forall i | 0 <= i < 256
      ensures FromEntry(d, m, t, level, prefix, i, (h, v))
              <==> Prefix(d, h, level) == prefix && Index(d, h, level) == i && Below(d, m, t, level, h) == Some(v)
    {
      EntryOk(d, m, places, root, t, i);
      EntryReleased(d, m, places, root, t, level, prefix, i, h, v);
    }
    var at := Index(d, h, level);
    assert FromEntry(d, m, t, level, prefix, at, (h, v))
           <==> Prefix(d, h, level) == prefix && Below(d, m, t, level, h) == Some(v);
  }

  lemma Row<V>(d: nat, m: Tables<V>, places: map<nat, Place>, root: nat, t: nat)
    requires TreeOk(d, m, places, root) && t in m
    ensures |m[t]| == 256
  {
    assert TableOk(d, places, places[t], m[t]);
  }

  lemma {:induction false} EntryReleased<V>(d: nat, m: Tables<V>, places: map<nat, Place>, root: nat,
                                            t: nat, level: nat, prefix: nat, i: nat, h: nat, v: V)
    requires TreeOk(d, m, places, root) && t in m && places[t] == Place(level, prefix) && level < d && |m[t]| == 256
             && i < 256
    requires SlotOk(d, places, places[t], i, m[t][i])
    ensures FromEntry(d, m, t, level, prefix, i, (h, v))
            <==> Prefix(d, h, level) == prefix && Index(d, h, level) == i && Below(d, m, t, level, h) == Some(v)
    decreases d - level, 0
  {
    hide Index, Prefix, Pow256, TreeOk, Released;
    PrefixStep(d, h, level);
    match m[t][i]
    case Empty =>
    case Value(w) => PrefixAll(d, h);
    case Child(c) =>
      TreeFacts(d, m, places, root);
      ReleasedIs(d, m, places, root, c, level + 1, prefix * 256 + i, h, v);
  }

  ghost predicate OnceEach<V>(xs: seq<(nat, V)>) {
    forall i, j :: 0 <= i < j < |xs| ==> xs[i].0 != xs[j].0
  }

  lemma OnceAppend<V>(a: seq<(nat, V)>, b: seq<(nat, V)>)
    requires OnceEach(a) && OnceEach(b) && forall x, y :: x in a && y in b ==> x.0 != y.0
    ensures OnceEach(a + b)
  {
    forall i, j | 0 <= i < j < |a + b| ensures (a + b)[i].0 != (a + b)[j].0 {
      if i < |a| <= j { assert (a + b)[i] in a && (a + b)[j] in b; }
    }
  }

  /** The byte of a handle released for one of the first `k` entries. */
  lemma ReleasedIndex<V>(d: nat, m: Tables<V>, places: map<nat, Place>, root: nat,
                         t: nat, level: nat, prefix: nat, k: nat, x: (nat, V))
    requires TreeOk(d, m, places, root) && t in m && places[t] == Place(level, prefix) && level < d && |m[t]| == 256
             && k <= 256
    requires x in ReleasedBelow(d, m, t, level, prefix, k)
    ensures Index(d, x.0, level) < k
  {
    hide Index, Prefix, Pow256, TreeOk, ReleasedBelow, FromEntry;
    ReleasedFrom(d, m, t, level, prefix, k, x);
    var i :| 0 <= i < k && FromEntry(d, m, t, level, prefix, i, x);
    EntryOk(d, m, places, root, t, i);
    EntryReleased(d, m, places, root, t, level, prefix, i, x.0, x.1);
  }

  /** No handle's value is released twice. */
  lemma {:induction false} ReleasedOnce<V>(d: nat, m: Tables<V>, places: map<nat, Place>, root: nat,
                                           t: nat, level: nat, prefix: nat, k: nat)
    requires TreeOk(d, m, places, root) && t in m && places[t] == Place(level, prefix) && level < d && |m[t]| == 256
             && k <= 256
    ensures OnceEach(ReleasedBelow(d, m, t, level, prefix, k))
    decreases d - level, k
  {
    if k > 0 {
      hide Index, Prefix, Pow256, TreeOk, Released;
      ReleasedOnce(d, m, places, root, t, level, prefix, k - 1);
      var before, all := ReleasedBelow(d, m, t, level, prefix, k - 1), ReleasedBelow(d, m, t, level, prefix, k);
      EntryOk(d, m, places, root, t, k - 1);
      match m[t][k - 1]
      case Empty =>
      case Value(v) =>
        var here := [(prefix * 256 + (k - 1), v)];
        EntryApart(d, m, places, root, t, level, prefix, k - 1, here);
        OnceAppend(before, here);
      case Child(c) =>
        TreeFacts(d, m, places, root);
        var here := Released(d, m, c, level + 1, prefix * 256 + (k - 1));
        ChildOnce(d, m, places, root, c, level + 1, prefix * 256 + (k - 1));
        EntryApart(d, m, places, root, t, level, prefix, k - 1, here);
        OnceAppend(before, here);
    }
  }

  lemma {:induction false} ChildOnce<V>(d: nat, m: Tables<V>, places: map<nat, Place>, root: nat, t: nat, level: nat,
                                        prefix: nat)
    requires TreeOk(d, m, places, root) && t in m && places[t] == Place(level, prefix) && level < d
    ensures OnceEach(Released(d, m, t, level, prefix))
    decreases d - level, 257
  {
    Row(d, m, places, root, t);
    ReleasedOnce(d, m, places, root, t, level, prefix, 256);
  }

  lemma EntryApart<V>(d: nat, m: Tables<V>, places: map<nat, Place>, root: nat,
                      t: nat, level: nat, prefix: nat, i: nat, here: seq<(nat, V)>)
    requires TreeOk(d, m, places, root) && t in m && places[t] == Place(level, prefix) && level < d && |m[t]| == 256
             && i < 256
    requires forall x :: x in here ==> FromEntry(d, m, t, level, prefix, i, x)
    ensures forall x, y :: x in ReleasedBelow(d, m, t, level, prefix, i) && y in here ==> x.0 != y.0
  {
    hide Index, Prefix, Pow256, TreeOk, ReleasedBelow, FromEntry;
    forall x | x in ReleasedBelow(d, m, t, level, prefix, i) ensures Index(d, x.0, level) < i {
      ReleasedIndex(d, m, places, root, t, level, prefix, i, x);
    }
    forall y | y in here ensures Index(d, y.0, level) == i {
      EntryOk(d, m, places, root, t, i);
      EntryReleased(d, m, places, root, t, level, prefix, i, y.0, y.1);
    }
  }

  ghost predicate ValuesOf<V>(values: seq<V>, xs: seq<(nat, V)>) {
    |values| == |xs| && forall i :: 0 <= i < |xs| ==> values[i] == xs[i].1
  }

  lemma ReleasedEnds<V>(d: nat, m: Tables<V>, t: nat, level: nat, prefix: nat)
    requires level < d && t in m && |m[t]| == 256
    ensures ReleasedBelow(d, m, t, level, prefix, 0) == []
    ensures Released(d, m, t, level, prefix) == ReleasedBelow(d, m, t, level, prefix, 256)
  {}

  lemma ReleasedStep<V>(d: nat, m: Tables<V>, t: nat, level: nat, prefix: nat, k: nat)
    requires level < d && t in m && |m[t]| == 256 && k < 256
    ensures ReleasedBelow(d, m, t, level, prefix, k + 1) == ReleasedBelow(d, m, t, level, prefix, k) +
              match m[t][k]
              case Empty => []
              case Value(v) => [(prefix * 256 + k, v)]
              case Child(c) => if level + 1 < d then Released(d, m, c, level + 1, prefix * 256 + k) else []
  {
    hide Released;
  }

  lemma ChildPlaced<V>(d: nat, m: Tables<V>, places: map<nat, Place>, root: nat, t: nat, i: nat, c: nat)
    requires TreeOk(d, m, places, root) && t in m && i < 256 && |m[t]| == 256 && m[t][i] == Child(c)
    ensures c in m && places[c] == Place(places[t].level + 1, places[t].prefix * 256 + i) && places[t].level + 1 < d
  {
    EntryOk(d, m, places, root, t, i);
  }

  // ---------------------------------------------------------------- the entries are cleared

  /** The assertion when a table is dropped: all its entries are zero. */
  predicate Cleared<V>(row: seq<Slot<V>>) { |row| == 256 && forall i :: 0 <= i < 256 ==> row[i].Empty? }

  /** A place at or below the table at `level` with this prefix. */
  predicate Under(place: Place, level: nat, prefix: nat) {
    place.level >= level && Quot(place.prefix, Pow256(place.level - level)) == prefix
  }

  lemma UnderSelf(place: Place)
    ensures Under(place, place.level, place.prefix)
  {}

  lemma UnderChild(place: Place, level: nat, prefix: nat, i: nat)
    requires i < 256 && Under(place, level + 1, prefix * 256 + i)
    ensures Under(place, level, prefix)
  {
    var w := Pow256(place.level - level - 1);
    assert Pow256(place.level - level) == 256 * w;
    hide Pow256;
    Digits(place.prefix, 256, w, 256 * w);
    DivModUnique(prefix * 256 + i, 256, prefix, i);
  }

  /** The tables at or below a place are as they were. */
  ghost predicate Untouched<V>(now: Tables<V>, m: Tables<V>, places: map<nat, Place>, level: nat, prefix: nat)
    requires now.Keys == m.Keys == places.Keys
  {
    forall x :: x in m && Under(places[x], level, prefix) ==> now[x] == m[x]
  }

  /** The same below one entry. */
  ghost predicate UntouchedAt<V>(now: Tables<V>, m: Tables<V>, places: map<nat, Place>, level: nat, prefix: nat, i: nat)
    requires now.Keys == m.Keys == places.Keys
  {
    Untouched(now, m, places, level + 1, prefix * 256 + i)
  }

  /** Nothing outside the table has changed. */
  ghost predicate OnlyUnder<V>(before: Tables<V>, now: Tables<V>, places: map<nat, Place>, level: nat, prefix: nat)
    requires now.Keys == before.Keys == places.Keys
  {
    forall x :: x in now && !Under(places[x], level, prefix) ==> now[x] == before[x]
  }

  /** The state of the loop before entry `i` of table `t`. */
  ghost predicate Dropping<V>(before: Tables<V>, now: Tables<V>, m: Tables<V>, places: map<nat, Place>,
                              t: nat, level: nat, prefix: nat, i: nat)
    requires i <= 256 && t in m
  {
    && before.Keys == now.Keys == m.Keys == places.Keys && |now[t]| == |m[t]| == 256
    && (forall k :: 0 <= k < i ==> now[t][k].Empty?) && (forall k :: i <= k < 256 ==> now[t][k] == m[t][k])
    && (forall k :: i <= k < 256 ==> UntouchedAt(now, m, places, level, prefix, k))
    && OnlyUnder(before, now, places, level, prefix)
  }

  lemma DropStarts<V>(now: Tables<V>, m: Tables<V>, places: map<nat, Place>, t: nat, level: nat, prefix: nat)
    requires now.Keys == m.Keys == places.Keys && t in m && places[t] == Place(level, prefix) && |m[t]| == 256
    requires Untouched(now, m, places, level, prefix)
    ensures Dropping(now, now, m, places, t, level, prefix, 0)
  {
    hide Under;
    UnderSelf(places[t]);
    forall k | 0 <= k < 256 ensures UntouchedAt(now, m, places, level, prefix, k) {
      forall x | x in m && Under(places[x], level + 1, prefix * 256 + k) ensures now[x] == m[x] {
        UnderChild(places[x], level, prefix, k);
      }
    }
  }

  /** An entry is swapped for zero. */
  lemma DropEntry<V>(before: Tables<V>, now: Tables<V>, m: Tables<V>, places: map<nat, Place>,
                     t: nat, level: nat, prefix: nat, i: nat)
    requires i < 256 && t in m && Dropping(before, now, m, places, t, level, prefix, i)
             && places[t] == Place(level, prefix)
    ensures Dropping(before, Written(now, t, i, Empty), m, places, t, level, prefix, i + 1)
    ensures UntouchedAt(Written(now, t, i, Empty), m, places, level, prefix, i)
  {
    UnderSelf(places[t]);
    var next := Written(now, t, i, Empty);
    assert next[t] == now[t][i := Empty] && next.Keys == now.Keys;
    forall k | i <= k < 256 ensures UntouchedAt(next, m, places, level, prefix, k) {
      assert UntouchedAt(now, m, places, level, prefix, k);
      forall x | x in m && Under(places[x], level + 1, prefix * 256 + k) ensures next[x] == m[x] { assert x != t; }
    }
    hide Under;
  }

  /** What is below an entry is dropped. */
  lemma DropChild<V>(before: Tables<V>, now: Tables<V>, next: Tables<V>, m: Tables<V>, places: map<nat, Place>,
                     t: nat, level: nat, prefix: nat, i: nat)
    requires i < 256 && t in m && Dropping(before, now, m, places, t, level, prefix, i + 1)
             && places[t] == Place(level, prefix)
    requires next.Keys == now.Keys && OnlyUnder(now, next, places, level + 1, prefix * 256 + i)
    ensures Dropping(before, next, m, places, t, level, prefix, i + 1)
  {
    assert !Under(places[t], level + 1, prefix * 256 + i);
    forall k | i + 1 <= k < 256 ensures UntouchedAt(next, m, places, level, prefix, k) {
      assert UntouchedAt(now, m, places, level, prefix, k);
    }
    forall x | x in next && !Under(places[x], level, prefix) ensures next[x] == before[x] {
      if Under(places[x], level + 1, prefix * 256 + i) { UnderChild(places[x], level, prefix, i); }
    }
  }

  /**
   `drop_children`: the values released for a table, whose tables were as in `m` before. False if the assertion on
   the entries of a table that is dropped fails.
   */
  method DropChildren<V>(hm: Map<V>, t: nat, level: nat, ghost prefix: nat, ghost m: Tables<V>)
    returns (values: seq<V>, ok: bool)
    requires TreeOk(hm.depth, m, hm.places, hm.root) && hm.tables.Keys == m.Keys == hm.places.Keys
    requires t in m && hm.places[t] == Place(level, prefix) && level < hm.depth
    requires Untouched(hm.tables, m, hm.places, level, prefix)
    modifies hm`tables
    ensures ok && ValuesOf(values, Released(hm.depth, m, t, level, prefix))
    ensures hm.tables.Keys == m.Keys && Cleared(hm.tables[t])
            && OnlyUnder(old(hm.tables), hm.tables, hm.places, level, prefix)
    decreases hm.depth - level
  {
    hide Index, Pow256, TreeOk, Released, ReleasedBelow, SlotOk, Untouched, OnlyUnder, Written, Under;
    values, ok := [], true;
    Row(hm.depth, m, hm.places, hm.root, t);
    ReleasedEnds(hm.depth, m, t, level, prefix);
    DropStarts(hm.tables, m, hm.places, t, level, prefix);
    for i := 0 to 256
      invariant ok && ValuesOf(values, ReleasedBelow(hm.depth, m, t, level, prefix, i))
      invariant Dropping(old(hm.tables), hm.tables, m, hm.places, t, level, prefix, i)
    {
      ReleasedStep(hm.depth, m, t, level, prefix, i);
      var slot := hm.tables[t][i];
      DropEntry(old(hm.tables), hm.tables, m, hm.places, t, level, prefix, i);
      hm.tables := Written(hm.tables, t, i, Empty);
      match slot {
        case Empty =>
        case Value(v) => values := values + [v];
        case Child(c) =>
          ghost var now := hm.tables;
          ChildPlaced(hm.depth, m, hm.places, hm.root, t, i, c);
          var more, fine := DropChildren(hm, c, level + 1, prefix * 256 + i, m);
          values := values + more;
          ok := fine && Cleared(hm.tables[c]);
          DropChild(old(hm.tables), now, hm.tables, m, hm.places, t, level, prefix, i);
      }
    }
  }

  /** Dropping the map releases the value of every handle it holds exactly once, and no table is dropped in use. */
  method Drop<V>(hm: Map<V>) returns (values: seq<V>, ok: bool, ghost handles: seq<nat>)
    requires hm.Valid()
    modifies hm`tables
    ensures ok && |values| == |handles| && forall i, j :: 0 <= i < j < |handles| ==> handles[i] != handles[j]
    ensures forall h :: h in handles <==> h in hm.contents
    ensures forall i :: 0 <= i < |handles| ==> handles[i] in hm.contents && values[i] == hm.contents[handles[i]]
  {
    hide Index, Pow256, PathTable, Released, Prefix, Below, Stored, TreeOk;
    DepthIs(hm.allocator.max);
    ghost var d, m := hm.depth, hm.tables;
    RootPlace(d, m, hm.places, hm.root);
    ghost var all := Released(d, m, hm.root, 0, 0);
    ChildOnce(d, m, hm.places, hm.root, hm.root, 0, 0);
    AllReleased(hm, all);
    values, ok := DropChildren(hm, hm.root, 0, 0, m);
    ok := ok && Cleared(hm.tables[hm.root]);
    handles := seq(|all|, i requires 0 <= i < |all| => all[i].0);
    EachHandle(all, hm.contents, values, handles);
  }

  lemma AllReleased<V>(hm: Map<V>, all: seq<(nat, V)>)
    requires hm.Valid() && hm.depth > 0 && all == Released(hm.depth, hm.tables, hm.root, 0, 0)
    ensures forall i :: 0 <= i < |all| ==> all[i].0 in hm.contents && hm.contents[all[i].0] == all[i].1
    ensures forall h :: h in hm.contents ==> (h, hm.contents[h]) in all
  {
    hide Map.Valid, Released;
    forall i | 0 <= i < |all| ensures all[i].0 in hm.contents && hm.contents[all[i].0] == all[i].1 {
      assert all[i] in all && all[i] == (all[i].0, all[i].1);
      ReleasedContents(hm, all[i].0, all[i].1);
    }
    forall h | h in hm.contents ensures (h, hm.contents[h]) in all { ReleasedContents(hm, h, hm.contents[h]); }
  }

  lemma EachHandle<V>(all: seq<(nat, V)>, contents: map<nat, V>, values: seq<V>, handles: seq<nat>)
    requires OnceEach(all) && ValuesOf(values, all) && |handles| == |all|
    requires forall i :: 0 <= i < |all| ==> handles[i] == all[i].0
    requires forall i :: 0 <= i < |all| ==> all[i].0 in contents && contents[all[i].0] == all[i].1
    requires forall h :: h in contents ==> (h, contents[h]) in all
    ensures forall i, j :: 0 <= i < j < |handles| ==> handles[i] != handles[j]
    ensures forall h :: h in handles <==> h in contents
    ensures forall i :: 0 <= i < |handles| ==> handles[i] in contents && values[i] == contents[handles[i]]
  {
    forall h | h in contents ensures h in handles {
      assert (h, contents[h]) in all;
      var i :| 0 <= i < |all| && all[i] == (h, contents[h]);
      assert handles[i] == h;
    }
  }

  lemma RootPlace<V>(d: nat, m: Tables<V>, places: map<nat, Place>, root: nat)
    requires TreeOk(d, m, places, root)
    ensures root in m && places[root] == Place(0, 0) && d > 0 && m.Keys == places.Keys
  {}

  lemma ReleasedContents<V>(hm: Map<V>, h: nat, v: V)
    requires hm.Valid() && hm.depth > 0
    ensures (h, v) in Released(hm.depth, hm.tables, hm.root, 0, 0)
            <==> h in hm.contents && hm.contents[h] == v
  {
    hide Index, Pow256, Released, Below, Stored, TreeOk, PathTable;
    var d, m := hm.depth, hm.tables;
    DepthIs(hm.allocator.max);
    RootPlace(d, m, hm.places, hm.root);
    ReleasedIs(d, m, hm.places, hm.root, hm.root, 0, 0, h, v);
    RootPath(d, m, hm.root, h);
    BelowPath(d, m, hm.root, h, 0);
    PrefixZero(d, h);
    assert h < Pow256(d) ==> hm.Kept(h);
  }

  lemma PrefixZero(d: nat, h: nat)
    ensures Prefix(d, h, 0) == 0 <==> h < Pow256(d)
  {
    hide Pow256;
    var p := Pow256(d);
    assert h == p * (h / p) + h % p;
    if h < p { PrefixNone(d, h); }
  }
}
