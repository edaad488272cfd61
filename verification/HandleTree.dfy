/** The radix tree of kernel_core/src/collections/handle_map.rs: 256-way tables addressed by the bytes of a handle. */
module HandleTree {
  import opened Common
  import opened Arithmetic

  /** `256^k`. */
  function Pow256(k: nat): (p: nat)
    ensures p > 0
  {
    if k == 0 then 1 else 256 * Pow256(k - 1)
  }

  /** The byte of the handle that selects the entry at a level of a tree of depth `d`. */
  function Index(d: nat, h: nat, level: nat): (i: nat)
    requires level < d
    ensures i < 256
  {
    Quot(h, Pow256(d - 1 - level)) % 256
  }

  /** The bytes of the handle above a level. */
  function Prefix(d: nat, h: nat, level: nat): nat
    requires level <= d
  {
    Quot(h, Pow256(d - level))
  }

  /** One more byte. */
  lemma PrefixStep(d: nat, h: nat, level: nat)
    requires level < d
    ensures Prefix(d, h, level + 1) == Prefix(d, h, level) * 256 + Index(d, h, level)
  {
    var p := Pow256(d - 1 - level);
    assert Pow256(d - level) == 256 * p;
    hide Pow256;
    Digits(h, 256, p, 256 * p);
    assert h / p == 256 * (h / p / 256) + h / p % 256;
  }

  lemma PrefixAll(d: nat, h: nat)
    ensures Prefix(d, h, d) == h
  {}

  lemma PrefixNone(d: nat, h: nat)
    requires h < Pow256(d)
    ensures Prefix(d, h, 0) == 0
  {
    hide Pow256;
    DivModUnique(h, Pow256(d), 0, h);
  }

  datatype Slot<+V> = Empty | Child(table: nat) | Value(value: V)

  /** The tables by identity. */
  type Tables<V> = map<nat, seq<Slot<V>>>

  datatype Place = Place(level: nat, prefix: nat)

  /** An entry of the table at `place` in a tree of depth `d`. */
  ghost predicate SlotOk<V>(d: nat, places: map<nat, Place>, place: Place, i: nat, s: Slot<V>) {
    match s
    case Empty => true
    case Value(_) => place.level + 1 == d
    case Child(c) => place.level + 1 < d && c in places && places[c] == Place(place.level + 1, place.prefix * 256 + i)
  }

  ghost predicate TableOk<V>(d: nat, places: map<nat, Place>, place: Place, slots: seq<Slot<V>>) {
    && place.level < d && |slots| == 256
    && forall i :: 0 <= i < 256 ==> SlotOk(d, places, place, i, slots[i])
  }

  ghost predicate TreeOk<V>(d: nat, m: Tables<V>, places: map<nat, Place>, root: nat) {
    && d > 0 && m.Keys == places.Keys && root in m && places[root] == Place(0, 0)
    && forall t :: t in m ==> TableOk(d, places, places[t], m[t])
  }

  /** The table at `level` on the path of the handle, as far as the path exists. */
  ghost function PathTable<V>(d: nat, m: Tables<V>, root: nat, h: nat, level: nat): Option<nat>
    requires level <= d
  {
    if level == 0 then Some(root)
    else
      var up := PathTable(d, m, root, h, level - 1);
      if up.None? || up.value !in m || |m[up.value]| != 256 then None
      else
        match m[up.value][Index(d, h, level - 1)]
        case Child(c) => Some(c)
        case _ => None
  }

  /** The value stored for a handle. */
  ghost function Stored<V>(d: nat, m: Tables<V>, root: nat, h: nat): Option<V>
    requires d > 0
  {
    var t := PathTable(d, m, root, h, d - 1);
    if t.None? || t.value !in m || |m[t.value]| != 256 then None
    else
      match m[t.value][Index(d, h, d - 1)]
      case Value(v) => Some(v)
      case _ => None
  }

  lemma {:induction false} PathPlace<V>(d: nat, m: Tables<V>, places: map<nat, Place>, root: nat, h: nat, level: nat)
    requires TreeOk(d, m, places, root) && h < Pow256(d) && level < d && PathTable(d, m, root, h, level).Some?
    ensures var t := PathTable(d, m, root, h, level).value;
            t in m && places[t] == Place(level, Prefix(d, h, level)) && |m[t]| == 256
  {
    hide Pow256, Prefix, Index;
    if level == 0 {
      PrefixNone(d, h);
      assert TableOk(d, places, places[root], m[root]);
    } else {
      PathPlace(d, m, places, root, h, level - 1);
      PrefixStep(d, h, level - 1);
      var up, i := PathTable(d, m, root, h, level - 1).value, Index(d, h, level - 1);
      assert TableOk(d, places, places[up], m[up]);
      assert SlotOk(d, places, places[up], i, m[up][i]);
      var t := PathTable(d, m, root, h, level).value;
      assert TableOk(d, places, places[t], m[t]);
    }
  }

  /** Handles on the same leaf entry are equal. */
  lemma SameLeaf<V>(d: nat, m: Tables<V>, places: map<nat, Place>, root: nat, h: nat, h': nat)
    requires TreeOk(d, m, places, root) && h < Pow256(d) && h' < Pow256(d)
    requires PathTable(d, m, root, h, d - 1).Some?
             && PathTable(d, m, root, h, d - 1) == PathTable(d, m, root, h', d - 1)
    requires Index(d, h, d - 1) == Index(d, h', d - 1)
    ensures h == h'
  {
    hide Pow256, Prefix, Index, PathTable;
    PathPlace(d, m, places, root, h, d - 1);
    PathPlace(d, m, places, root, h', d - 1);
    PrefixStep(d, h, d - 1);
    PrefixStep(d, h', d - 1);
    PrefixAll(d, h);
    PrefixAll(d, h');
  }

  function Written<V>(m: Tables<V>, t: nat, i: nat, s: Slot<V>): Tables<V>
    requires t in m && i < |m[t]|
  {
    var row: seq<Slot<V>> := m[t][i := s];
    m[t := row]
  }

  lemma WrittenOk<V>(d: nat, m: Tables<V>, places: map<nat, Place>, root: nat, t: nat, i: nat, s: Slot<V>)
    requires TreeOk(d, m, places, root) && t in m && i < |m[t]| && SlotOk(d, places, places[t], i, s)
    ensures TreeOk(d, Written(m, t, i, s), places, root)
  {
    hide SlotOk;
    forall a | a in m ensures TableOk(d, places, places[a], Written(m, t, i, s)[a]) {
      assert TableOk(d, places, places[a], m[a]);
    }
  }

  /** Writing a leaf entry changes no path. */
  lemma {:induction false} LeafPath<V>(d: nat, m: Tables<V>, places: map<nat, Place>, root: nat, t: nat, i: nat,
                                       s: Slot<V>, h: nat, level: nat)
    requires TreeOk(d, m, places, root) && h < Pow256(d) && level < d
    requires t in m && places[t].level == d - 1 && i < |m[t]|
    ensures PathTable(d, Written(m, t, i, s), root, h, level) == PathTable(d, m, root, h, level)
  {
    hide Pow256, Prefix, Index;
    if level > 0 {
      LeafPath(d, m, places, root, t, i, s, h, level - 1);
      if PathTable(d, m, root, h, level - 1).Some? { PathPlace(d, m, places, root, h, level - 1); }
    }
  }

  /** Writing a handle's leaf entry changes what is stored for it only. */
  lemma LeafStored<V>(d: nat, m: Tables<V>, places: map<nat, Place>, root: nat, h: nat, s: Slot<V>, h': nat)
    requires TreeOk(d, m, places, root) && h < Pow256(d) && h' < Pow256(d) && !s.Child?
    requires PathTable(d, m, root, h, d - 1).Some?
    ensures var t := PathTable(d, m, root, h, d - 1).value;
            && t in m && |m[t]| == 256
            && Stored(d, Written(m, t, Index(d, h, d - 1), s), root, h')
               == if h' == h then (if s.Value? then Some(s.value) else None) else Stored(d, m, root, h')
  {
    hide Pow256, Prefix, Index, PathTable;
    PathPlace(d, m, places, root, h, d - 1);
    var t := PathTable(d, m, root, h, d - 1).value;
    LeafPath(d, m, places, root, t, Index(d, h, d - 1), s, h', d - 1);
    if h' != h && PathTable(d, m, root, h', d - 1) == Some(t) && Index(d, h', d - 1) == Index(d, h, d - 1) {
      SameLeaf(d, m, places, root, h, h');
    }
  }

  // ---------------------------------------------------------------- new tables

  function NewTable<V>(): seq<Slot<V>> { seq(256, _ => Empty) }

  /** Hang a new table `c` into entry `i` of `t`. */
  function Grown<V>(m: Tables<V>, t: nat, i: nat, c: nat): Tables<V>
    requires t in m && i < |m[t]| && c != t
  {
    Written(m[c := NewTable()], t, i, Child(c))
  }

  function ChildPlace(place: Place, i: nat): Place { Place(place.level + 1, place.prefix * 256 + i) }

  lemma GrownOk<V>(d: nat, m: Tables<V>, places: map<nat, Place>, root: nat, t: nat, i: nat, c: nat)
    requires TreeOk(d, m, places, root) && t in m && places[t].level + 1 < d && i < 256 && c !in m
    ensures |m[t]| == 256 && TreeOk(d, Grown(m, t, i, c), places[c := ChildPlace(places[t], i)], root)
  {
    var m1, places' := m[c := NewTable()], places[c := ChildPlace(places[t], i)];
    assert TableOk(d, places, places[t], m[t]);
    forall a | a in m1 ensures TableOk(d, places', places'[a], m1[a]) {
      if a != c { MorePlaces(d, places, c, places'[c], places[a], m[a]); }
    }
    WrittenOk(d, m1, places', root, t, i, Child(c));
  }

  lemma MorePlaces<V>(d: nat, places: map<nat, Place>, c: nat, at: Place, place: Place, slots: seq<Slot<V>>)
    requires TableOk(d, places, place, slots) && c !in places
    ensures TableOk(d, places[c := at], place, slots)
  {
    forall i | 0 <= i < 256 ensures SlotOk(d, places[c := at], place, i, slots[i]) {
      assert SlotOk(d, places, place, i, slots[i]);
    }
  }

  /** A new table extends paths and keeps those there are. */
  lemma {:induction false} GrownPath<V>(d: nat, m: Tables<V>, places: map<nat, Place>, root: nat, t: nat, i: nat,
                                        c: nat, h: nat, level: nat)
    requires TreeOk(d, m, places, root) && h < Pow256(d) && level < d
    requires t in m && places[t].level + 1 < d && i < 256 && c !in m && |m[t]| == 256 && m[t][i].Empty?
    ensures var new', old' := PathTable(d, Grown(m, t, i, c), root, h, level), PathTable(d, m, root, h, level);
            new' == old' || (old'.None? && (new' == None || new' == Some(c)))
    ensures var up := PathTable(d, m, root, h, level);
            PathTable(d, Grown(m, t, i, c), root, h, level) == Some(c) ==> up.None?
  {
    hide Pow256, Prefix, Index;
    if level > 0 {
      GrownPath(d, m, places, root, t, i, c, h, level - 1);
      if PathTable(d, m, root, h, level - 1).Some? { PathPlace(d, m, places, root, h, level - 1); }
      if PathTable(d, m, root, h, level).Some? { PathPlace(d, m, places, root, h, level); }
    }
  }

  lemma GrownStored<V>(d: nat, m: Tables<V>, places: map<nat, Place>, root: nat, t: nat, i: nat, c: nat, h: nat)
    requires TreeOk(d, m, places, root) && h < Pow256(d)
    requires t in m && places[t].level + 1 < d && i < 256 && c !in m && |m[t]| == 256 && m[t][i].Empty?
    ensures Stored(d, Grown(m, t, i, c), root, h) == Stored(d, m, root, h)
  {
    hide Pow256, Prefix, Index, PathTable;
    GrownPath(d, m, places, root, t, i, c, h, d - 1);
    if PathTable(d, m, root, h, d - 1).Some? { PathPlace(d, m, places, root, h, d - 1); }
  }

  // ---------------------------------------------------------------- paths that end

  /** Where a path stops, it does not go on. */
  lemma {:induction false} PathStops<V>(d: nat, m: Tables<V>, root: nat, h: nat, level: nat, target: nat)
    requires level < target < d && PathTable(d, m, root, h, level).Some?
    requires var t := PathTable(d, m, root, h, level).value;
             t !in m || |m[t]| != 256 || !m[t][Index(d, h, level)].Child?
    ensures PathTable(d, m, root, h, target).None?
    decreases target
  {
    hide Index;
    if level + 1 < target { PathStops(d, m, root, h, level, target - 1); }
  }

  /** Nothing is stored in an empty tree. */
  lemma {:induction false} NothingStored<V>(d: nat, root: nat, m: Tables<V>, h: nat, level: nat)
    requires m == map[root := NewTable()] && level + 1 == d
    ensures Stored(d, m, root, h).None?
  {
    hide Pow256, Index;
    if level > 0 { NoPath(d, root, m, h, level); }
  }

  lemma {:induction false} NoPath<V>(d: nat, root: nat, m: Tables<V>, h: nat, level: nat)
    requires m == map[root := NewTable()] && 0 < level < d
    ensures PathTable(d, m, root, h, level).None?
  {
    hide Pow256, Index;
    if level > 1 { NoPath(d, root, m, h, level - 1); }
  }
}
