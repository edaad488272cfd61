/** `HandleMap` of kernel_core/src/collections/handle_map.rs, used by one thread, against a finite map. */
module HandleMap {
  import opened Common
  import opened Arithmetic
  import opened HandleBits
  import opened HandleTree
  import opened HandleWalk

  class Map<V> {
    const allocator: Allocator
    const depth: nat
    const extra: nat
    const root: nat
    var tables: Tables<V>
    var nextTable: nat
    ghost var places: map<nat, Place>
    ghost var contents: map<nat, V>

    ghost predicate Valid()
      reads this, allocator
    {
      Core() && (forall h :: h in contents ==> h < allocator.max) && forall h: nat :: h < Pow256(depth) ==> Kept(h)
    }

    ghost predicate Core()
      reads this, allocator
    {
      && Fixed() && allocator.Valid() && TreeOk(depth, tables, places, root)
      && forall t :: t in tables ==> t < nextTable
    }

    ghost predicate Fixed()
      reads this
    {
      0 < allocator.max < U32_LIMIT && depth == Depth(allocator.max) && extra == ExtraBits(allocator.max)
    }

    /** What the tree and the bits say of a handle. */
    ghost predicate Kept(h: nat)
      requires Fixed()
      reads this, allocator
    {
      DepthIs(allocator.max);
      && Stored(depth, tables, root, h) == (if h in contents then Some(contents[h]) else None)
      && (h in contents ==> Bit(allocator.words, h))
      && (Bit(allocator.words, h) ==> h < allocator.max && PathTable(depth, tables, root, h, depth - 1).Some?)
    }

    /** `HandleMap::new`. A map for no handles has no level: its prefix is the whole word. */
    constructor (max: nat)
      requires max < U32_LIMIT
      ensures allocator.Valid() && allocator.max == max && fresh(allocator) && contents == map[]
      ensures forall h: nat :: !Bit(allocator.words, h)
      ensures if max > 0 then Valid() else depth == 0 && extra == 32
    {
      if max > 0 { DepthIs(max); }
      var bits := new Allocator(max);
      allocator := bits;
      depth, extra, root := Depth(max), ExtraBits(max), 0;
      tables, nextTable := map[0 := NewTable()], 1;
      places, contents := map[0 := Place(0, 0)], map[];
      new;
      forall h: nat | max > 0 && h < Pow256(depth) ensures Stored(depth, tables, root, h).None? {
        NothingStored(depth, root, tables, h, depth - 1);
      }
    }

    /** The part of `leaf_table_for_handle` and of the insert that they share: the word to start with. */
    method StartWord(h: nat) returns (word: nat)
      requires Fixed() && h < U32_LIMIT
      ensures 1 <= depth <= 4 && word == WalkWord(depth, h % Pow256(depth), 1)
      ensures word % 256 == Index(depth, h % Pow256(depth), 0)
    {
      hide WalkWord, Index, Pow256, ShiftLeft, RotateLeft8;
      DepthIs(allocator.max);
      WalkStarts(depth, h);
      WalkStep(depth, h % Pow256(depth), 0);
      word := RotateLeft8(ShiftLeft(h, extra));
    }

    /** `leaf_table_for_handle`: the leaf table and the index of the handle, without its bytes above the depth. */
    method LeafTable(h: nat) returns (r: Option<nat>, index: nat)
      requires Valid() && h < U32_LIMIT
      ensures 1 <= depth && r == PathTable(depth, tables, root, h % Pow256(depth), depth - 1)
      ensures r.Some? ==> index == Index(depth, h % Pow256(depth), depth - 1)
    {
      hide WalkWord, Index, Pow256, Kept, RotateLeft8;
      ghost var g := h % Pow256(depth);
      var word := StartWord(h);
      var table, level := root, 0;
      while level < depth - 1
        invariant 0 <= level < depth && word == WalkWord(depth, g, level + 1) && word % 256 == Index(depth, g, level)
        invariant PathTable(depth, tables, root, g, level) == Some(table)
      {
        PathPlace(depth, tables, places, root, g, level);
        var slot := tables[table][word % 256];
        if !slot.Child? {
          PathStops(depth, tables, root, g, level, depth - 1);
          return None, 0;
        }
        table := slot.table;
        WalkStep(depth, g, level + 1);
        word := RotateLeft8(word);
        level := level + 1;
      }
      r, index := Some(table), word % 256;
    }

    /** `get`: handles that agree in the bytes of the depth are not told apart. */
    method Get(h: nat) returns (r: Option<V>)
      requires Valid() && h < U32_LIMIT
      ensures var g := h % Pow256(depth); r == if g in contents then Some(contents[g]) else None
    {
      hide Index, Pow256, PathTable, TreeOk;
      ghost var g := h % Pow256(depth);
      var leaf, index := LeafTable(h);
      assert Kept(g);
      if leaf.None? { return None; }
      assert TreeOk(depth, tables, places, root);
      PathPlace(depth, tables, places, root, g, depth - 1);
      match tables[leaf.value][index] {
        case Value(v) => r := Some(v);
        case _ => r := None;
      }
    }

    /** The child table at an entry on the path of `h`, made if there is none. */
    method ChildTable(ghost h: nat, ghost level: nat, table: nat, index: nat) returns (next: nat)
      requires Core() && h < Pow256(depth) && level + 1 < depth && index == Index(depth, h, level)
      requires PathTable(depth, tables, root, h, level) == Some(table)
      modifies this`tables, this`places, this`nextTable
      ensures Core() && PathTable(depth, tables, root, h, level + 1) == Some(next)
      ensures SamePaths(old(tables), tables)
    {
      hide Index, Pow256, Stored, TableOk, Grown;
      PathPlace(depth, tables, places, root, h, level);
      assert SlotOk(depth, places, places[table], index, tables[table][index]) by {
        assert TableOk(depth, places, places[table], tables[table]);
        EntryOk(depth, tables, places, root, table, index);
      }
      match tables[table][index] {
        case Child(t) => next := t;
        case Empty =>
          next := nextTable;
          GrowKeeps(table, index, next);
          GrownNext(depth, tables, places, root, h, level, table, next);
          GrownOk(depth, tables, places, root, table, index, next);
          places := places[next := ChildPlace(places[table], index)];
          tables := Grown(tables, table, index, next);
          nextTable := nextTable + 1;
        case Value(_) => assert false;
      }
    }

    /** Paths only get longer, and what is stored stays. */
    ghost predicate SamePaths(m: Tables<V>, m': Tables<V>)
      requires depth > 0
    {
      forall k: nat :: k < Pow256(depth) ==>
        && Stored(depth, m', root, k) == Stored(depth, m, root, k)
        && (PathTable(depth, m, root, k, depth - 1).Some? ==> PathTable(depth, m', root, k, depth - 1).Some?)
    }

    lemma GrowKeeps(t: nat, i: nat, c: nat)
      requires Core() && t in tables && places[t].level + 1 < depth && i < 256 && c !in tables
      requires |tables[t]| == 256 && tables[t][i].Empty?
      ensures SamePaths(tables, Grown(tables, t, i, c))
    {
      hide Index, Pow256, Stored, PathTable, TreeOk, Grown;
      forall k: nat | k < Pow256(depth)
        ensures Stored(depth, Grown(tables, t, i, c), root, k) == Stored(depth, tables, root, k)
        ensures PathTable(depth, tables, root, k, depth - 1).Some? ==>
                  PathTable(depth, Grown(tables, t, i, c), root, k, depth - 1).Some?
      {
        TreeFacts(depth, tables, places, root);
        GrownStored(depth, tables, places, root, t, i, c, k);
        GrownPath(depth, tables, places, root, t, i, c, k, depth - 1);
      }
    }

    /** The tables on the path of `h`, and the word when they are passed. */
    method MakePath(h: nat) returns (table: nat, word: nat)
      requires Core() && h < Pow256(depth) && h < U32_LIMIT
      modifies this`tables, this`places, this`nextTable
      ensures Core() && SamePaths(old(tables), tables)
      ensures PathTable(depth, tables, root, h, depth - 1) == Some(table)
      ensures word == h && word % 256 == Index(depth, h, depth - 1)
    {
      hide Index, Pow256, Stored, TreeOk, WalkWord, RotateLeft8, PathTable;
      DepthIs(allocator.max);
      SmallMod(h, Pow256(depth));
      word := StartWord(h);
      RootPath(depth, tables, root, h);
      table := root;
      var level := 0;
      while level < depth - 1
        invariant 0 <= level < depth && word == WalkWord(depth, h, level + 1) && word % 256 == Index(depth, h, level)
        invariant Core() && SamePaths(old(tables), tables)
        invariant PathTable(depth, tables, root, h, level) == Some(table)
      {
        table := ChildTable(h, level, table, word % 256);
        WalkStep(depth, h, level + 1);
        word := RotateLeft8(word);
        level := level + 1;
      }
      WalkEnds(depth, h);
    }

    /** `insert`: the least free handle refers to the value from now on. */
    method Insert(value: V) returns (r: Option<nat>)
      requires Valid()
      modifies this`tables, this`places, this`nextTable, this`contents, allocator`words
      ensures Valid()
      ensures r.None? <==> forall h :: 0 <= h < allocator.max ==> Bit(old(allocator.words), h)
      ensures r.None? ==> contents == old(contents) && allocator.words == old(allocator.words)
      ensures r.Some? ==>
                && r.value < allocator.max && !Bit(old(allocator.words), r.value)
                && (forall h :: 0 <= h < r.value ==> Bit(old(allocator.words), h))
                && r.value !in old(contents) && contents == old(contents)[r.value := value]
                && forall h: nat :: Bit(allocator.words, h) == (h == r.value || Bit(old(allocator.words), h))
    {
      hide Index, Pow256, Stored, TreeOk, PathTable, Bit, Written, SamePaths;
      DepthIs(allocator.max);
      var handle := allocator.NextHandle();
      if handle.None? { return None; }
      ghost var h := handle.value;
      assert old(Kept(h));
      ghost var m0 := tables;
      var table, word := MakePath(handle.value);
      SamePathsAt(m0, tables, h);
      LeafIs(depth, tables, places, root, h, table);
      var index := word % 256;
      assert tables[table][index].Empty?;
      ghost var m1 := tables;
      tables := Written(tables, table, index, Value(value));
      contents := contents[h := value];
      PutKeeps(depth, m1, places, root, h, table, Value(value));
      SameKeys(m1, table, index, Value(value));
      forall k: nat | k < Pow256(depth) ensures Kept(k) {
        assert old(Kept(k));
        SamePathsAt(m0, m1, k);
        PutAt(depth, m1, places, root, h, table, Value(value), k);
      }
      r := Some(word);
    }

    lemma SamePathsAt(m: Tables<V>, m': Tables<V>, k: nat)
      requires depth > 0 && SamePaths(m, m') && k < Pow256(depth)
      ensures Stored(depth, m', root, k) == Stored(depth, m, root, k)
      ensures PathTable(depth, m, root, k, depth - 1).Some? ==> PathTable(depth, m', root, k, depth - 1).Some?
    {
      hide Pow256, Stored, PathTable;
    }

    /** `take_value` at the leaf entry of a handle. */
    method TakeValue(ghost g: nat, table: nat, index: nat) returns (r: Option<V>)
      requires Valid() && g < Pow256(depth) && depth > 0 && index == Index(depth, g, depth - 1)
      requires PathTable(depth, tables, root, g, depth - 1) == Some(table)
      modifies this`tables, this`contents
      ensures Valid() && contents == old(contents) - {g}
      ensures r == if g in old(contents) then Some(old(contents)[g]) else None
    {
      hide Index, Pow256, Stored, TreeOk, PathTable, Bit, Written;
      assert Kept(g);
      LeafIs(depth, tables, places, root, g, table);
      var slot := tables[table][index];
      r := if slot.Value? then Some(slot.value) else None;
      ghost var m := tables;
      PutKeeps(depth, m, places, root, g, table, Empty);
      tables := Written(tables, table, index, Empty);
      contents := contents - {g};
      SameKeys(m, table, index, Empty);
      forall k: nat | k < Pow256(depth) ensures Kept(k) {
        assert old(Kept(k));
        PutAt(depth, m, places, root, g, table, Empty, k);
      }
    }

    lemma SameKeys(m: Tables<V>, t: nat, i: nat, s: Slot<V>)
      requires t in m && i < |m[t]|
      ensures Written(m, t, i, s).Keys == m.Keys
    {}

    /** `remove`: as coded, a handle above the depth takes the value of the handle it aliases, and returns nothing. */
    method Remove(h: nat) returns (r: Option<V>)
      requires Valid() && h < U32_LIMIT
      modifies this`tables, this`contents, allocator`words
      ensures Valid() && contents == old(contents) - {h % Pow256(depth)}
      ensures r == if h in old(contents) then Some(old(contents)[h]) else None
      ensures forall k: nat ::
                Bit(allocator.words, k) == (Bit(old(allocator.words), k) && !(k == h && h < allocator.max))
    {
      hide Index, Pow256, Stored, TreeOk, PathTable, Bit, Written;
      DepthIs(allocator.max);
      ghost var g := h % Pow256(depth);
      if h < Pow256(depth) { SmallMod(h, Pow256(depth)); }
      assert Kept(g);
      assert h < allocator.max ==> h < Pow256(depth);
      var leaf, index := LeafTable(h);
      if leaf.None? {
        NoLeaf(depth, tables, root, g);
        assert h < allocator.max ==> !Bit(allocator.words, h);
        return None;
      }
      r := TakeValue(g, leaf.value, index);
      label taken:
      var e := allocator.FreeHandle(h);
      forall k: nat | k < Pow256(depth) ensures Kept(k) { assert old@taken(Kept(k)); }
      if e.Some? { r := None; }
    }
  }

  lemma SmallMod(h: nat, p: nat)
    requires h < p
    ensures h % p == h
  {
    DivModUnique(h, p, 0, h);
  }

  lemma RootPath<V>(d: nat, m: Tables<V>, root: nat, h: nat)
    ensures PathTable(d, m, root, h, 0) == Some(root)
  {}

  lemma TreeFacts<V>(d: nat, m: Tables<V>, places: map<nat, Place>, root: nat)
    requires TreeOk(d, m, places, root)
    ensures d > 0 && m.Keys == places.Keys
  {}

  lemma EntryOk<V>(d: nat, m: Tables<V>, places: map<nat, Place>, root: nat, t: nat, i: nat)
    requires TreeOk(d, m, places, root) && t in m && i < 256
    ensures |m[t]| == 256 && SlotOk(d, places, places[t], i, m[t][i])
  {
    assert TableOk(d, places, places[t], m[t]);
  }

  lemma GrownNext<V>(d: nat, m: Tables<V>, places: map<nat, Place>, root: nat, h: nat, level: nat, table: nat, c: nat)
    requires TreeOk(d, m, places, root) && h < Pow256(d) && level + 1 < d && c !in m
    requires PathTable(d, m, root, h, level) == Some(table) && table in m && |m[table]| == 256
    requires places[table].level == level && m[table][Index(d, h, level)].Empty?
    ensures PathTable(d, Grown(m, table, Index(d, h, level), c), root, h, level + 1) == Some(c)
  {
    hide Pow256, Index, TreeOk;
    TreeFacts(d, m, places, root);
    GrownPath(d, m, places, root, table, Index(d, h, level), c, h, level);
  }

  /** Without a leaf table nothing is stored. */
  lemma NoLeaf<V>(d: nat, m: Tables<V>, root: nat, h: nat)
    requires d > 0 && PathTable(d, m, root, h, d - 1).None?
    ensures Stored(d, m, root, h).None?
  {}

  /** What is read at the leaf entry of a handle. */
  lemma LeafIs<V>(d: nat, m: Tables<V>, places: map<nat, Place>, root: nat, h: nat, table: nat)
    requires TreeOk(d, m, places, root) && h < Pow256(d) && PathTable(d, m, root, h, d - 1) == Some(table)
    ensures table in m && |m[table]| == 256 && places[table].level == d - 1
    ensures m[table][Index(d, h, d - 1)] == match Stored(d, m, root, h) case Some(v) => Value(v) case None => Empty
  {
    hide Pow256, Index, PathTable, TreeOk;
    TreeFacts(d, m, places, root);
    PathPlace(d, m, places, root, h, d - 1);
    EntryOk(d, m, places, root, table, Index(d, h, d - 1));
  }

  lemma PutKeeps<V>(d: nat, m: Tables<V>, places: map<nat, Place>, root: nat, h: nat, table: nat, s: Slot<V>)
    requires TreeOk(d, m, places, root) && h < Pow256(d) && PathTable(d, m, root, h, d - 1) == Some(table) && !s.Child?
    ensures table in m && |m[table]| == 256 && TreeOk(d, Written(m, table, Index(d, h, d - 1), s), places, root)
  {
    hide Pow256, Index, PathTable, TreeOk;
    TreeFacts(d, m, places, root);
    PathPlace(d, m, places, root, h, d - 1);
    WrittenOk(d, m, places, root, table, Index(d, h, d - 1), s);
  }

  lemma PutAt<V>(d: nat, m: Tables<V>, places: map<nat, Place>, root: nat, h: nat, table: nat, s: Slot<V>, k: nat)
    requires TreeOk(d, m, places, root) && h < Pow256(d) && k < Pow256(d) && !s.Child?
    requires PathTable(d, m, root, h, d - 1) == Some(table) && table in m && |m[table]| == 256
    ensures var m' := Written(m, table, Index(d, h, d - 1), s);
            && Stored(d, m', root, k)
               == (if k == h then (if s.Value? then Some(s.value) else None) else Stored(d, m, root, k))
            && PathTable(d, m', root, k, d - 1) == PathTable(d, m, root, k, d - 1)
  {
    hide Pow256, Index, PathTable, TreeOk, Stored, Written;
    TreeFacts(d, m, places, root);
    PathPlace(d, m, places, root, h, d - 1);
    LeafStored(d, m, places, root, h, s, k);
    LeafPath(d, m, places, root, table, Index(d, h, d - 1), s, k, d - 1);
  }

  /**
   In a map for 100 handles, one value is inserted. Handle 256, which was never issued, gets it; removing that
   handle reports nothing and loses the value.
   */
  method AliasedHandle<V>(value: V, alias: nat)
    returns (h: Option<nat>, seen: Option<V>, removed: Option<V>, left: Option<V>)
    requires alias == 256
    ensures h == Some(0) && seen == Some(value) && removed == None && left == None
  {
    hide Pow256, Bit;
    var m := new Map<V>(100);
    assert !Bit(m.allocator.words, 0);
    h := m.Insert(value);
    SmallDepth(m, alias);
    seen := m.Get(alias);
    removed := m.Remove(alias);
    left := m.Get(0);
  }

  lemma SmallDepth<V>(m: Map<V>, alias: nat)
    requires m.Fixed() && m.allocator.max == 100 && alias == 256
    ensures Pow256(m.depth) == 256 && alias % Pow256(m.depth) == 0 && 0 % Pow256(m.depth) == 0
  {
    DepthIs(100);
    Powers();
  }
}
