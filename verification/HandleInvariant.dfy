/** What every step of every thread keeps. */
module HandleInvariant {
  import opened Common
  import opened HandleBits
  import opened HandleTree
  import opened HandleProtocol

  /** The thread stands at the table on the path of its handle. */
  ghost predicate OnPath<V>(s: State<V>, h: nat, level: nat, table: nat) {
    && 0 < s.d && level < s.d && h < Pow256(s.d)
    && PathTable(s.d, s.tables, s.root, h, level) == Some(table)
  }

  ghost predicate PcOk<V>(s: State<V>, pc: Pc<V>) {
    match pc
    case Idle => true
    case Crashed => false
    case Scan(_, _) => true
    case Claim(_, word, current) => word < |s.words| && |current| == 64
    case Walk(_, h, level, table) => level + 1 < s.d && OnPath(s, h, level, table)
    case Create(_, h, level, table) => level + 1 < s.d && OnPath(s, h, level, table)
    case Put(_, h, table) => s.d > 0 && OnPath(s, h, s.d - 1, table)
    case Find(_, h, level, table) => level + 1 < s.d && OnPath(s, h, level, table)
    case Take(_, h, table) => s.d > 0 && OnPath(s, h, s.d - 1, table)
    case FreeLoad(_) => true
    case FreeTry(h, current) => |current| == 64 && current[h % 64]
    case Look(h, level, table) => level + 1 < s.d && OnPath(s, h, level, table)
    case Peek(h, table) => s.d > 0 && OnPath(s, h, s.d - 1, table)
    case Got(_, _) => true
  }

  /** The thread's state is consistent, and it is on record for its handle. */
  ghost predicate ThreadOk<V>(s: State<V>, i: nat)
    requires i < |s.pcs|
  {
    && PcOk(s, s.pcs[i])
    && (s.pcs[i].Held().Some? ==> s.pcs[i].Held().value in s.owner && s.owner[s.pcs[i].Held().value] == i)
  }

  /** What should be stored for a handle: its value from the end of the insert to the take of its remove. */
  ghost function Expected<V>(s: State<V>, h: nat): Option<V> {
    if h in s.owned then Some(s.owned[h])
    else if h in s.owner && s.owner[h] < |s.pcs| then s.pcs[s.owner[h]].Wanted()
    else None
  }

  /** A set bit has one keeper: the client, or the thread at work on the handle. */
  ghost predicate HandleOk<V>(s: State<V>, h: nat)
    requires s.d > 0
  {
    && (Bit(s.words, h) <==> h in s.owned || h in s.owner)
    && !(h in s.owned && h in s.owner)
    && (h in s.owned || h in s.owner ==> h < s.max)
    && (h in s.owner ==> s.owner[h] < |s.pcs| && s.pcs[s.owner[h]].Held() == Some(h))
    && (h < Pow256(s.d) ==> Stored(s.d, s.tables, s.root, h) == Expected(s, h))
  }

  ghost predicate Shape<V>(s: State<V>) {
    && s.d > 0 && 0 < s.max <= Pow256(s.d) && Shaped(s.words, s.max) && TreeOk(s.d, s.tables, s.places, s.root)
  }

  ghost predicate Inv<V>(s: State<V>) {
    && Shape(s)
    && (forall i :: 0 <= i < |s.pcs| ==> ThreadOk(s, i))
    && (forall h: nat :: HandleOk(s, h))
  }

  /** Paths only grow. */
  ghost predicate PathsKept<V>(s: State<V>, s': State<V>) {
    && s'.d == s.d && s'.max == s.max && s'.root == s.root && |s'.pcs| == |s.pcs| && |s'.words| == |s.words|
    && forall h, level ::
         0 <= h < Pow256(s.d) && 0 <= level < s.d && PathTable(s.d, s.tables, s.root, h, level).Some? ==>
         PathTable(s'.d, s'.tables, s'.root, h, level) == PathTable(s.d, s.tables, s.root, h, level)
  }

  lemma PcKept<V>(s: State<V>, s': State<V>, pc: Pc<V>)
    requires PathsKept(s, s') && PcOk(s, pc)
    ensures PcOk(s', pc)
  {
    hide Pow256, PathTable;
  }

  // ---------------------------------------------------------------- steps that change only the thread

  /** A thread goes on with the same handle and nothing shared changes. */
  lemma QuietStep<V>(s: State<V>, i: nat, pc: Pc<V>)
    requires Inv(s) && i < |s.pcs| && PcOk(s, pc)
    requires pc.Held() == s.pcs[i].Held() && pc.Wanted() == s.pcs[i].Wanted()
    ensures Inv(At(s, i, pc)) && PathsKept(s, At(s, i, pc))
  {
    hide PcOk, Stored, PathTable, Pow256, Bit, TreeOk, Shaped;
    var s' := At(s, i, pc);
    assert Shape(s');
    forall j | 0 <= j < |s'.pcs| ensures ThreadOk(s', j) {
      assert ThreadOk(s, j);
      SamePc(s, s', s'.pcs[j]);
    }
    forall h: nat ensures HandleOk(s', h) { assert HandleOk(s, h); }
  }

  lemma SamePc<V>(s: State<V>, s': State<V>, pc: Pc<V>)
    requires s'.d == s.d && s'.root == s.root && s'.tables == s.tables && |s'.words| == |s.words| && PcOk(s, pc)
    ensures PcOk(s', pc)
  {
    hide Pow256, PathTable;
  }

  /** One level further down. */
  lemma ChildOnPath<V>(s: State<V>, h: nat, level: nat, table: nat, t: nat)
    requires OnPath(s, h, level, table) && level + 1 < s.d && Entry(s, h, level, table) == Child(t)
    ensures OnPath(s, h, level + 1, t)
  {
    hide Pow256, Index;
  }

  lemma RootOnPath<V>(s: State<V>, h: nat)
    requires s.d > 0 && h < Pow256(s.d)
    ensures OnPath(s, h, 0, s.root)
  {
    hide Pow256;
  }

  /** The table a thread stands at is there. */
  lemma TablePresent<V>(s: State<V>, h: nat, level: nat, table: nat)
    requires Shape(s) && OnPath(s, h, level, table)
    ensures Present(s, table) && table in s.places && s.places[table].level == level
    ensures TableOk(s.d, s.places, s.places[table], s.tables[table])
  {
    hide Pow256, Index, PathTable;
    PathPlace(s.d, s.tables, s.places, s.root, h, level);
  }

  /** The path of a stored value is complete. */
  lemma {:induction false} StoredPath<V>(d: nat, m: Tables<V>, root: nat, h: nat, level: nat)
    requires level < d && Stored(d, m, root, h).Some?
    ensures PathTable(d, m, root, h, level).Some?
    decreases d - level
  {
    hide Index;
    if level + 1 < d { StoredPath(d, m, root, h, level + 1); }
  }

  // ---------------------------------------------------------------- the steps on shared memory

  lemma ClaimSucceeds<V>(s: State<V>, i: nat, v: V, h: nat)
    requires Inv(s) && i < |s.pcs| && s.pcs[i].Held().None? && h < s.max && !Bit(s.words, h) && h / 64 < |s.words|
    ensures var claimed := s.(words := SetBit(s.words, h, true), owner := s.owner[h := i]);
            var s' := At(claimed, i, Inserting(s, v, h, 0, s.root));
            Inv(s') && PathsKept(s, s')
  {
    hide PcOk, Stored, PathTable, Pow256, Bit, TreeOk, SetBit, Shaped, OnPath;
    ShapedWord(s.words, s.max, h / 64);
    var s' := At(s.(words := SetBit(s.words, h, true), owner := s.owner[h := i]), i, Inserting(s, v, h, 0, s.root));
    SetBitShaped(s.words, s.max, h, true);
    SetBitLength(s.words, h, true);
    RootOnPath(s, h);
    InsertingOk(s, v, h, 0, s.root);
    assert HandleOk(s, h);
    forall j | 0 <= j < |s'.pcs| ensures ThreadOk(s', j) {
      assert ThreadOk(s, j);
      SamePc(s, s', s'.pcs[j]);
    }
    forall k: nat ensures HandleOk(s', k) {
      assert HandleOk(s, k);
      SetBitIs(s.words, h, true, k);
    }
  }

  lemma ShapedWord(words: seq<Word>, max: nat, w: nat)
    requires Shaped(words, max) && w < |words|
    ensures |words[w]| == 64
  {}

  lemma SetBitLength(words: seq<Word>, h: nat, b: bool)
    requires h / 64 < |words| && h % 64 < |words[h / 64]|
    ensures |SetBit(words, h, b)| == |words|
  {}

  lemma InsertingOk<V>(s: State<V>, v: V, h: nat, level: nat, table: nat)
    requires OnPath(s, h, level, table)
    ensures PcOk(s, Inserting(s, v, h, level, table))
  {}

  lemma RemovingOk<V>(s: State<V>, v: V, h: nat, level: nat, table: nat)
    requires OnPath(s, h, level, table)
    ensures PcOk(s, Removing(s, v, h, level, table))
  {}

  lemma GettingOk<V>(s: State<V>, h: nat, level: nat, table: nat)
    requires OnPath(s, h, level, table)
    ensures PcOk(s, Getting(s, h, level, table))
  {}

  lemma FreeSucceeds<V>(s: State<V>, i: nat, h: nat)
    requires Inv(s) && i < |s.pcs| && s.pcs[i].Held() == Some(h) && s.pcs[i].Wanted().None? && h / 64 < |s.words|
    ensures var s' := At(s.(words := SetBit(s.words, h, false), owner := s.owner - {h}), i, Idle);
            Inv(s') && PathsKept(s, s')
  {
    hide PcOk, Stored, PathTable, Pow256, Bit, TreeOk, SetBit, Shaped;
    ShapedWord(s.words, s.max, h / 64);
    var s' := At(s.(words := SetBit(s.words, h, false), owner := s.owner - {h}), i, Idle);
    assert ThreadOk(s, i) && HandleOk(s, h);
    SetBitShaped(s.words, s.max, h, false);
    SetBitLength(s.words, h, false);
    IdleOk(s');
    forall j | 0 <= j < |s'.pcs| ensures ThreadOk(s', j) {
      assert ThreadOk(s, j);
      if j != i { SamePc(s, s', s'.pcs[j]); }
    }
    forall k: nat ensures HandleOk(s', k) {
      assert HandleOk(s, k);
      SetBitIs(s.words, h, false, k);
    }
  }

  lemma IdleOk<V>(s: State<V>)
    ensures PcOk(s, Idle)
  {}

  lemma RemoveStarts<V>(s: State<V>, i: nat, h: nat)
    requires Inv(s) && i < |s.pcs| && s.pcs[i].Idle? && h in s.owned
    ensures var given := s.(owned := s.owned - {h}, owner := s.owner[h := i]);
            var s' := At(given, i, Removing(s, s.owned[h], h, 0, s.root));
            Inv(s') && PathsKept(s, s')
  {
    hide PcOk, Stored, PathTable, Pow256, Bit, TreeOk, Shaped, OnPath;
    var s' := At(s.(owned := s.owned - {h}, owner := s.owner[h := i]), i, Removing(s, s.owned[h], h, 0, s.root));
    assert HandleOk(s, h);
    RootOnPath(s, h);
    RemovingOk(s, s.owned[h], h, 0, s.root);
    forall j | 0 <= j < |s'.pcs| ensures ThreadOk(s', j) {
      assert ThreadOk(s, j);
      SamePc(s, s', s'.pcs[j]);
    }
    forall k: nat ensures HandleOk(s', k) { assert HandleOk(s, k); }
  }

  // ---------------------------------------------------------------- the steps on the tree

  /** A thread hangs in a new table. */
  lemma CreateSucceeds<V>(s: State<V>, i: nat, v: V, h: nat, level: nat, table: nat, c: nat)
    requires Inv(s) && i < |s.pcs| && s.pcs[i] == Create(v, h, level, table) && c !in s.tables
    requires level < s.d && Present(s, table) && s.tables[table][Index(s.d, h, level)].Empty?
    ensures Inv(CreateStep(s, i, v, h, level, table, c)) && PathsKept(s, CreateStep(s, i, v, h, level, table, c))
  {
    hide Stored, Pow256, Index, Bit, TreeOk, Shaped, TableOk, PathTable, Grown;
    assert ThreadOk(s, i);
    TablePresent(s, h, level, table);
    var at := Index(s.d, h, level);
    GrownOk(s.d, s.tables, s.places, s.root, table, at, c);
    forall k, l | 0 <= k < Pow256(s.d) && 0 <= l < s.d && PathTable(s.d, s.tables, s.root, k, l).Some?
      ensures PathTable(s.d, Grown(s.tables, table, at, c), s.root, k, l) == PathTable(s.d, s.tables, s.root, k, l)
    {
      GrownPath(s.d, s.tables, s.places, s.root, table, at, c, k, l);
    }
    forall k | 0 <= k < Pow256(s.d)
      ensures Stored(s.d, Grown(s.tables, table, at, c), s.root, k) == Stored(s.d, s.tables, s.root, k)
    {
      GrownStored(s.d, s.tables, s.places, s.root, table, at, c, k);
    }
    var s' := s.(tables := Grown(s.tables, table, at, c), places := s.places[c := ChildPlace(s.places[table], at)]);
    GrownChild(s, h, level, table, c);
    hide OnPath;
    InsertingOk(s', v, h, level + 1, c);
    TreeChanges(s, s', i, Inserting(s, v, h, level + 1, c));
  }

  lemma GrownChild<V>(s: State<V>, h: nat, level: nat, table: nat, c: nat)
    requires OnPath(s, h, level, table) && level + 1 < s.d && Present(s, table) && c != table
    requires PathTable(s.d, Grown(s.tables, table, Index(s.d, h, level), c), s.root, h, level) == Some(table)
    ensures OnPath(s.(tables := Grown(s.tables, table, Index(s.d, h, level), c)), h, level + 1, c)
  {
    hide Pow256, Index;
  }

  /** The tree changes, what is stored does not, and the thread goes on. */
  lemma TreeChanges<V>(s: State<V>, s': State<V>, i: nat, pc: Pc<V>)
    requires Inv(s) && i < |s.pcs| && pc.Held() == s.pcs[i].Held() && pc.Wanted() == s.pcs[i].Wanted()
    requires s' == s.(tables := s'.tables, places := s'.places) && TreeOk(s.d, s'.tables, s'.places, s.root)
    requires PathsKept(s, s') && PcOk(s', pc)
    requires forall k :: 0 <= k < Pow256(s.d) ==> Stored(s.d, s'.tables, s.root, k) == Stored(s.d, s.tables, s.root, k)
    ensures Inv(At(s', i, pc)) && PathsKept(s, At(s', i, pc))
  {
    hide Stored, Pow256, Bit, TreeOk, Shaped, PathTable, PcOk;
    var s'' := At(s', i, pc);
    forall j | 0 <= j < |s''.pcs| ensures ThreadOk(s'', j) {
      assert ThreadOk(s, j);
      if j != i { PcKept(s, s'', s.pcs[j]); } else { SamePc(s', s'', pc); }
    }
    forall k: nat ensures HandleOk(s'', k) { assert HandleOk(s, k); }
  }

  /** The entry of a handle that a thread inserts is empty, of one it removes holds the value. */
  lemma LeafEntry<V>(s: State<V>, i: nat, h: nat, table: nat)
    requires Inv(s) && i < |s.pcs| && s.pcs[i].Held() == Some(h) && OnPath(s, h, s.d - 1, table)
    ensures Present(s, table)
    ensures s.tables[table][Index(s.d, h, s.d - 1)]
            == match s.pcs[i].Wanted() case Some(v) => Value(v) case None => Empty
  {
    hide Pow256, Index, Bit, TreeOk, Shaped, PathTable, PcOk;
    assert ThreadOk(s, i) && HandleOk(s, h);
    TablePresent(s, h, s.d - 1, table);
    var at := Index(s.d, h, s.d - 1);
    assert SlotOk(s.d, s.places, s.places[table], at, s.tables[table][at]);
  }

  /** Writing the entry of a thread's handle. */
  lemma LeafChanges<V>(s: State<V>, i: nat, h: nat, table: nat, slot: Slot<V>, s': State<V>, pc: Pc<V>)
    requires Inv(s) && i < |s.pcs| && s.pcs[i].Held() == Some(h) && OnPath(s, h, s.d - 1, table)
    requires Present(s, table) && !slot.Child? && PcOk(s, pc)
    requires s' == s.(tables := Written(s.tables, table, Index(s.d, h, s.d - 1), slot),
                      owned := s'.owned, owner := s'.owner, issued := s'.issued)
    requires if slot.Value? then pc.Idle? && s'.owned == s.owned[h := slot.value] && s'.owner == s.owner - {h}
             else pc.Held() == Some(h) && pc.Wanted().None? && s'.owned == s.owned && s'.owner == s.owner
    ensures Inv(At(s', i, pc)) && PathsKept(s, At(s', i, pc))
  {
    hide Pow256, Index, Bit, Shaped, PathTable, PcOk, Written, OnPath, Stored, TableOk;
    TablePresent(s, h, s.d - 1, table);
    var at, s'' := Index(s.d, h, s.d - 1), At(s', i, pc);
    WrittenOk(s.d, s.tables, s.places, s.root, table, at, slot);
    PathIs(s, h, s.d - 1, table);
    forall k, l | 0 <= k < Pow256(s.d) && 0 <= l < s.d
      ensures PathTable(s.d, s'.tables, s.root, k, l) == PathTable(s.d, s.tables, s.root, k, l)
    {
      LeafPath(s.d, s.tables, s.places, s.root, table, at, slot, k, l);
    }
    hide TreeOk;
    LeafThreads(s, i, h, s'', pc);
    forall k: nat ensures HandleOk(s'', k) {
      assert HandleOk(s, k) && HandleOk(s, h) && ThreadOk(s, i);
      if k < Pow256(s.d) { LeafStored(s.d, s.tables, s.places, s.root, h, slot, k); }
    }
  }

  lemma PathIs<V>(s: State<V>, h: nat, level: nat, table: nat)
    requires OnPath(s, h, level, table)
    ensures level < s.d && h < Pow256(s.d) && PathTable(s.d, s.tables, s.root, h, level) == Some(table)
  {}

  lemma LeafThreads<V>(s: State<V>, i: nat, h: nat, s'': State<V>, pc: Pc<V>)
    requires Inv(s) && i < |s.pcs| && s.pcs[i].Held() == Some(h)
    requires PathsKept(s, s'') && s''.pcs == s.pcs[i := pc] && PcOk(s, pc)
    requires if pc.Held().None? then s''.owner == s.owner - {h} else pc.Held() == Some(h) && s''.owner == s.owner
    ensures forall j :: 0 <= j < |s''.pcs| ==> ThreadOk(s'', j)
  {
    hide Pow256, Bit, Shaped, PcOk, TreeOk, PathsKept, HandleOk;
    assert |s''.pcs| == |s.pcs|;
    forall j | 0 <= j < |s''.pcs| ensures ThreadOk(s'', j) {
      assert ThreadOk(s, j) && ThreadOk(s, i);
      PcKept(s, s'', s''.pcs[j]);
    }
  }

  // ---------------------------------------------------------------- every step

  lemma ClaimInv<V>(s: State<V>, i: nat, spurious: bool)
    requires Inv(s) && i < |s.pcs| && s.pcs[i].Claim?
    ensures var s' := ClaimStep(s, i, s.pcs[i].v, s.pcs[i].word, s.pcs[i].current, spurious);
            Inv(s') && PathsKept(s, s')
  {
    hide Pow256, Index, PathTable, Bit, TreeOk, HandleOk, SetBit, PathsKept, Shaped;
    var pc := s.pcs[i];
    assert ThreadOk(s, i);
    ShapedWord(s.words, s.max, pc.word);
    var zero := FirstZero(pc.current);
    var h := pc.word * 64 + zero;
    if zero >= 64 || h >= s.max {
      QuietStep(s, i, Scan(pc.v, pc.word + 1));
    } else if spurious || s.words[pc.word] != pc.current {
      QuietStep(s, i, Claim(pc.v, pc.word, s.words[pc.word]));
    } else {
      ZeroBit(s.words, pc.word, zero);
      ClaimSucceeds(s, i, pc.v, h);
    }
  }

  lemma ZeroBit(words: seq<Word>, word: nat, zero: nat)
    requires word < |words| && |words[word]| == 64 && zero < 64 && !words[word][zero]
    ensures var h := word * 64 + zero; h / 64 == word && h % 64 == zero && !Bit(words, h)
  {}

  lemma CreateInv<V>(s: State<V>, i: nat, c: nat)
    requires Inv(s) && i < |s.pcs| && s.pcs[i].Create? && c !in s.tables
    ensures var s' := CreateStep(s, i, s.pcs[i].v, s.pcs[i].h, s.pcs[i].level, s.pcs[i].table, c);
            Inv(s') && PathsKept(s, s')
  {
    hide Pow256, Index, PathTable, Bit, TreeOk, HandleOk, PathsKept, Shaped, OnPath, Grown;
    var pc := s.pcs[i];
    assert ThreadOk(s, i);
    TablePresent(s, pc.h, pc.level, pc.table);
    var at := Index(s.d, pc.h, pc.level);
    assert SlotOk(s.d, s.places, s.places[pc.table], at, s.tables[pc.table][at]);
    match s.tables[pc.table][at]
    case Child(t) =>
      ChildOnPath(s, pc.h, pc.level, pc.table, t);
      InsertingOk(s, pc.v, pc.h, pc.level + 1, t);
      QuietStep(s, i, Inserting(s, pc.v, pc.h, pc.level + 1, t));
    case Empty => CreateSucceeds(s, i, pc.v, pc.h, pc.level, pc.table, c);
    case Value(_) =>
  }

  lemma PutInv<V>(s: State<V>, i: nat)
    requires Inv(s) && i < |s.pcs| && s.pcs[i].Put?
    ensures var s' := PutStep(s, i, s.pcs[i].v, s.pcs[i].h, s.pcs[i].table);
            Inv(s') && PathsKept(s, s') && s'.pcs[i].Idle?
  {
    hide Pow256, Index, PathTable, Bit, TreeOk, HandleOk, PathsKept, Shaped, OnPath, Written, Inv;
    var pc := s.pcs[i];
    PutPath(s, i);
    LeafEntry(s, i, pc.h, pc.table);
    IdleOk(s);
    var next := s.(tables := Written(s.tables, pc.table, Index(s.d, pc.h, s.d - 1), Value(pc.v)),
                   owned := s.owned[pc.h := pc.v], owner := s.owner - {pc.h}, issued := s.issued + [(pc.h, pc.v)]);
    LeafChanges(s, i, pc.h, pc.table, Value(pc.v), next, Idle);
  }

  lemma PutPath<V>(s: State<V>, i: nat)
    requires Inv(s) && i < |s.pcs| && (s.pcs[i].Put? || s.pcs[i].Take?)
    ensures s.d > 0 && OnPath(s, s.pcs[i].h, s.d - 1, s.pcs[i].table)
  {
    hide HandleOk;
    assert ThreadOk(s, i);
  }

  lemma TakeInv<V>(s: State<V>, i: nat)
    requires Inv(s) && i < |s.pcs| && s.pcs[i].Take?
    ensures var s' := TakeStep(s, i, s.pcs[i].h, s.pcs[i].table);
            Inv(s') && PathsKept(s, s')
  {
    hide Pow256, Index, PathTable, Bit, TreeOk, HandleOk, PathsKept, Shaped, OnPath, Written, Inv;
    var pc := s.pcs[i];
    PutPath(s, i);
    LeafEntry(s, i, pc.h, pc.table);
    var next := s.(tables := Written(s.tables, pc.table, Index(s.d, pc.h, s.d - 1), Empty));
    LeafChanges(s, i, pc.h, pc.table, Empty, next, FreeLoad(pc.h));
  }

  /** A thread that frees its handle finds the bit set, in every word it has loaded. */
  lemma FreeWord<V>(s: State<V>, i: nat)
    requires Inv(s) && i < |s.pcs| && (s.pcs[i].FreeLoad? || s.pcs[i].FreeTry?)
    ensures var h := s.pcs[i].h;
            h < s.max && h / 64 < |s.words| && |s.words[h / 64]| == 64 && s.words[h / 64][h % 64]
    ensures s.pcs[i].FreeTry? ==> |s.pcs[i].current| == 64 && s.pcs[i].current[s.pcs[i].h % 64]
  {
    hide Pow256, PathTable, TreeOk, Stored, OnPath;
    assert ThreadOk(s, i) && HandleOk(s, s.pcs[i].h);
  }

  lemma FreeInv<V>(s: State<V>, i: nat, spurious: bool)
    requires Inv(s) && i < |s.pcs| && s.pcs[i].FreeTry?
    ensures var s' := FreeStep(s, i, s.pcs[i].h, s.pcs[i].current, spurious);
            Inv(s') && PathsKept(s, s')
  {
    hide Pow256, PathTable, Bit, TreeOk, HandleOk, PathsKept, Shaped, OnPath, Inv, SetBit;
    var pc := s.pcs[i];
    FreeWord(s, i);
    if spurious || s.words[pc.h / 64] != pc.current { QuietStep(s, i, FreeTry(pc.h, s.words[pc.h / 64])); }
    else { FreeSucceeds(s, i, pc.h); }
  }

  lemma WalkInv<V>(s: State<V>, i: nat, c: nat, spurious: bool)
    requires Inv(s) && i < |s.pcs| && s.pcs[i].Walk?
    ensures Inv(GoStep(s, i, c, spurious)) && PathsKept(s, GoStep(s, i, c, spurious))
  {
    hide Pow256, Index, PathTable, Bit, TreeOk, HandleOk, PathsKept, Shaped, OnPath;
    var pc := s.pcs[i];
    assert ThreadOk(s, i);
    match Entry(s, pc.h, pc.level, pc.table)
    case Child(t) =>
      ChildOnPath(s, pc.h, pc.level, pc.table, t);
      InsertingOk(s, pc.v, pc.h, pc.level + 1, t);
      QuietStep(s, i, Inserting(s, pc.v, pc.h, pc.level + 1, t));
    case _ => QuietStep(s, i, Create(pc.v, pc.h, pc.level, pc.table));
  }

  lemma LookInv<V>(s: State<V>, i: nat, c: nat, spurious: bool)
    requires Inv(s) && i < |s.pcs| && s.pcs[i].Look?
    ensures Inv(GoStep(s, i, c, spurious)) && PathsKept(s, GoStep(s, i, c, spurious))
  {
    hide Pow256, Index, PathTable, Bit, TreeOk, HandleOk, PathsKept, Shaped, OnPath;
    var pc := s.pcs[i];
    assert ThreadOk(s, i);
    match Entry(s, pc.h, pc.level, pc.table)
    case Child(t) =>
      ChildOnPath(s, pc.h, pc.level, pc.table, t);
      GettingOk(s, pc.h, pc.level + 1, t);
      QuietStep(s, i, Getting(s, pc.h, pc.level + 1, t));
    case _ => QuietStep(s, i, Got(pc.h, None));
  }

  /** The path of a handle to be removed is there. */
  lemma FindEntry<V>(s: State<V>, i: nat)
    requires Inv(s) && i < |s.pcs| && s.pcs[i].Find?
    ensures var pc := s.pcs[i];
            && pc.level + 1 < s.d && OnPath(s, pc.h, pc.level, pc.table)
            && Entry(s, pc.h, pc.level, pc.table).Child?
  {
    hide Pow256, Index, Bit, TreeOk, Shaped, Stored;
    var pc := s.pcs[i];
    assert ThreadOk(s, i) && HandleOk(s, pc.h);
    StoredPath(s.d, s.tables, s.root, pc.h, pc.level + 1);
  }

  lemma FindInv<V>(s: State<V>, i: nat, c: nat, spurious: bool)
    requires Inv(s) && i < |s.pcs| && s.pcs[i].Find?
    ensures Inv(GoStep(s, i, c, spurious)) && PathsKept(s, GoStep(s, i, c, spurious))
    ensures !GoStep(s, i, c, spurious).pcs[i].Idle?
  {
    hide Pow256, Index, PathTable, Bit, TreeOk, HandleOk, PathsKept, Shaped, OnPath, Inv;
    var pc := s.pcs[i];
    FindEntry(s, i);
    var t := Entry(s, pc.h, pc.level, pc.table).table;
    ChildOnPath(s, pc.h, pc.level, pc.table, t);
    RemovingOk(s, pc.v, pc.h, pc.level + 1, t);
    QuietStep(s, i, Removing(s, pc.v, pc.h, pc.level + 1, t));
  }

  lemma GoInv<V>(s: State<V>, i: nat, c: nat, spurious: bool)
    requires Inv(s) && i < |s.pcs| && !s.pcs[i].Idle? && c !in s.tables
    ensures Inv(GoStep(s, i, c, spurious)) && PathsKept(s, GoStep(s, i, c, spurious))
  {
    hide Pow256, Index, PathTable, Bit, TreeOk, HandleOk, PathsKept, OnPath, Stored, ThreadOk, Shaped,
         ClaimStep, CreateStep, PutStep, TakeStep, FreeStep;
    match s.pcs[i]
    case Scan(v, word) =>
      if word < |s.words| {
        ShapedWord(s.words, s.max, word);
        QuietStep(s, i, Claim(v, word, s.words[word]));
      } else {
        QuietStep(s, i, Idle);
      }
    case Claim(_, _, _) => ClaimInv(s, i, spurious);
    case Walk(_, _, _, _) => WalkInv(s, i, c, spurious);
    case Create(_, _, _, _) => CreateInv(s, i, c);
    case Put(_, _, _) => PutInv(s, i);
    case Find(_, _, _, _) => FindInv(s, i, c, spurious);
    case Take(_, _, _) => TakeInv(s, i);
    case FreeLoad(h) =>
      FreeWord(s, i);
      QuietStep(s, i, FreeTry(h, s.words[h / 64]));
    case FreeTry(_, _) => FreeInv(s, i, spurious);
    case Look(_, _, _) => LookInv(s, i, c, spurious);
    case Peek(h, table) =>
      QuietStep(s, i, Got(h, if s.d == 0 then None else Seen(Entry(s, h, s.d - 1, table))));
    case Got(_, _) => QuietStep(s, i, Idle);
    case Crashed => NotCrashed(s, i);
  }

  lemma NotCrashed<V>(s: State<V>, i: nat)
    requires Inv(s) && i < |s.pcs|
    ensures !s.pcs[i].Crashed?
  {
    hide HandleOk;
    assert ThreadOk(s, i);
  }

  /** Every move keeps the invariant, and the paths that exist. */
  lemma StepInv<V>(s: State<V>, i: nat, move: Move<V>)
    requires Inv(s) && Enabled(s, i, move)
    ensures Inv(Apply(s, i, move)) && PathsKept(s, Apply(s, i, move))
  {
    hide Pow256, Index, PathTable, Bit, TreeOk, HandleOk, PathsKept, OnPath, Stored, ThreadOk, Shaped, GoStep;
    match move
    case Insert(v) => QuietStep(s, i, Scan(v, 0));
    case Remove(h) => RemoveStarts(s, i, h);
    case Get(h) =>
      RootOnPath(s, h);
      GettingOk(s, h, 0, s.root);
      QuietStep(s, i, Getting(s, h, 0, s.root));
    case Go(c, spurious) => GoInv(s, i, c, spurious);
  }
}
