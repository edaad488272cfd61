/** What holds in every run of any number of threads on one `HandleMap`. */
module HandleTheorems {
  import opened Common
  import opened HandleBits
  import opened HandleTree
  import opened HandleProtocol
  import opened HandleInvariant

  ghost predicate Reachable<V(!new)>(s: State<V>) {
    exists s0: State<V>, moves :: Initial(s0) && Runs(s0, moves, s)
  }

  lemma InitInv<V>(s: State<V>)
    requires Initial(s)
    ensures Inv(s)
  {
    hide Pow256;
    assert TreeOk(s.d, s.tables, s.places, s.root);
    forall h: nat ensures HandleOk(s, h) { NothingStored(s.d, s.root, s.tables, h, s.d - 1); }
  }

  lemma {:induction false} RunInv<V>(s: State<V>, moves: seq<(nat, Move<V>)>, s': State<V>)
    requires Inv(s) && Runs(s, moves, s')
    ensures Inv(s') && PathsKept(s, s')
    decreases |moves|
  {
    hide Inv, Apply, Enabled;
    if moves != [] {
      var next := Apply(s, moves[0].0, moves[0].1);
      StepInv(s, moves[0].0, moves[0].1);
      RunInv(next, moves[1..], s');
    }
  }

  lemma ReachableInv<V(!new)>(s: State<V>)
    requires Reachable(s)
    ensures Inv(s)
  {
    var s0: State<V>, moves :| Initial(s0) && Runs(s0, moves, s);
    InitInv(s0);
    RunInv(s0, moves, s);
  }

  /** The assertion that a fresh handle's entry is empty never fails. */
  lemma AssertionHolds<V(!new)>(s: State<V>, i: nat)
    requires Reachable(s) && i < |s.pcs|
    ensures !s.pcs[i].Crashed?
  {
    ReachableInv(s);
    NotCrashed(s, i);
  }

  /** A free bit has an empty entry. */
  lemma FreeBitMeansEmpty<V(!new)>(s: State<V>, h: nat)
    requires Reachable(s) && s.d > 0 && h < Pow256(s.d) && !Bit(s.words, h)
    ensures Stored(s.d, s.tables, s.root, h).None?
  {
    ReachableInv(s);
    hide Stored, Bit, Pow256;
    assert HandleOk(s, h);
  }

  /** The step `s'` of thread `i` issues handle `h`. */
  ghost predicate Issues<V>(s: State<V>, i: nat, s': State<V>, h: nat) {
    && i < |s.pcs| && !Bit(s.words, h) && Bit(s'.words, h)
    && exists c: nat, spurious: bool :: Enabled(s, i, Go(c, spurious)) && s' == GoStep(s, i, c, spurious)
  }

  /**
   A handle is issued only while nobody has it: no client, and no thread. It is below the maximum,
   and its computation does not overflow 32 bits.
   */
  lemma IssuedOnce<V(!new)>(s: State<V>, i: nat, s': State<V>, h: nat)
    requires Reachable(s) && Issues(s, i, s', h)
    ensures h < s.max < U32_LIMIT && h !in s.owned && h !in s.owner
    ensures forall j :: 0 <= j < |s.pcs| ==> s.pcs[j].Held() != Some(h)
    ensures i < |s'.pcs| && s'.pcs[i].Held() == Some(h)
  {
    hide Stored, Pow256, PathTable, Reachable, TreeOk, OnPath, GoStep, Bit;
    ReachableInv(s);
    var c: nat, spurious: bool :| Enabled(s, i, Go(c, spurious)) && s' == GoStep(s, i, c, spurious);
    assert HandleOk(s, h) && ThreadOk(s, i);
    forall j | 0 <= j < |s.pcs| ensures s.pcs[j].Held() != Some(h) { assert ThreadOk(s, j); }
    IssuedBit(s, i, c, spurious, s', h);
  }

  lemma IssuedBit<V>(s: State<V>, i: nat, c: nat, spurious: bool, s': State<V>, h: nat)
    requires i < |s.pcs| && Shaped(s.words, s.max) && PcOk(s, s.pcs[i]) && s' == GoStep(s, i, c, spurious)
    requires !Bit(s.words, h) && Bit(s'.words, h)
    ensures h < s.max && i < |s'.pcs| && s'.pcs[i].Held() == Some(h)
  {
    hide GoStep, ClaimStep, FreeStep, Bit, OnPath, Shaped;
    GoWords(s, i, c, spurious);
    match s.pcs[i]
    case Claim(v, word, current) => ClaimBit(s, i, v, word, current, spurious, h);
    case FreeTry(k, current) => FreeBit(s, i, k, current, spurious, h);
    case _ =>
  }

  /** Only two kinds of step change a bit. */
  lemma GoWords<V>(s: State<V>, i: nat, c: nat, spurious: bool)
    requires i < |s.pcs|
    ensures match s.pcs[i]
            case Claim(v, word, current) => GoStep(s, i, c, spurious) == ClaimStep(s, i, v, word, current, spurious)
            case FreeTry(k, current) => GoStep(s, i, c, spurious) == FreeStep(s, i, k, current, spurious)
            case _ => GoStep(s, i, c, spurious).words == s.words
  {
    hide ClaimStep, FreeStep, Entry, Grown, Written, Index;
  }

  lemma ClaimBit<V>(s: State<V>, i: nat, v: V, word: nat, current: Word, spurious: bool, h: nat)
    requires i < |s.pcs| && Shaped(s.words, s.max) && word < |s.words| && |current| == 64
    requires var s' := ClaimStep(s, i, v, word, current, spurious); !Bit(s.words, h) && Bit(s'.words, h)
    ensures var s' := ClaimStep(s, i, v, word, current, spurious);
            h < s.max && |s'.pcs| == |s.pcs| && s'.pcs[i].Held() == Some(h)
  {
    hide SetBit, Bit;
    var zero := FirstZero(current);
    if zero < 64 {
      HandleWord(s.max, word, zero);
      if s.words[word] == current { SetBitIs(s.words, word * 64 + zero, true, h); }
    }
  }

  lemma FreeBit<V>(s: State<V>, i: nat, k: nat, current: Word, spurious: bool, h: nat)
    requires i < |s.pcs| && !Bit(s.words, h)
    ensures !Bit(FreeStep(s, i, k, current, spurious).words, h)
  {
    hide SetBit, Bit;
    if k / 64 < |s.words| && |s.words[k / 64]| == 64 { SetBitIs(s.words, k, false, h); }
  }

  /** Only the remover of a handle clears its bit, with the value taken before. */
  lemma FreedByRemover<V(!new)>(s: State<V>, i: nat, h: nat)
    requires Reachable(s) && i < |s.pcs| && (s.pcs[i] == FreeLoad(h) || (s.pcs[i].FreeTry? && s.pcs[i].h == h))
    ensures Bit(s.words, h) && h < s.max && (h < Pow256(s.d) ==> s.d > 0 && Stored(s.d, s.tables, s.root, h).None?)
  {
    ReachableInv(s);
    hide Stored, Pow256, PathTable, Reachable, TreeOk, OnPath;
    assert ThreadOk(s, i) && HandleOk(s, h);
  }

  /** A remover takes exactly the value its handle was issued for. */
  lemma RemoveReturnsInserted<V(!new)>(s: State<V>, i: nat, v: V, h: nat, table: nat)
    requires Reachable(s) && i < |s.pcs| && s.pcs[i] == Take(v, h, table)
    ensures s.d > 0 && Present(s, table) && s.tables[table][Index(s.d, h, s.d - 1)] == Value(v)
  {
    ReachableInv(s);
    hide Inv, Reachable, OnPath, Index;
    PutPath(s, i);
    LeafEntry(s, i, h, table);
  }

  /** A handle a client has keeps its value. */
  lemma OwnedIsStored<V(!new)>(s: State<V>, h: nat)
    requires Reachable(s) && h in s.owned
    ensures s.d > 0 && h < s.max <= Pow256(s.d) && Bit(s.words, h)
    ensures Stored(s.d, s.tables, s.root, h) == Some(s.owned[h])
  {
    ReachableInv(s);
    hide Stored, Pow256, PathTable, Reachable, TreeOk, OnPath;
    assert HandleOk(s, h);
  }

  /** The handle, level and table of a thread that walks the tree or is at its leaf. */
  function Standing<V>(s: State<V>, pc: Pc<V>): Option<(nat, nat, nat)> {
    match pc
    case Walk(_, h, level, table) => Some((h, level, table))
    case Create(_, h, level, table) => Some((h, level, table))
    case Find(_, h, level, table) => Some((h, level, table))
    case Look(h, level, table) => Some((h, level, table))
    case Put(_, h, table) => if s.d > 0 then Some((h, s.d - 1, table)) else None
    case Take(_, h, table) => if s.d > 0 then Some((h, s.d - 1, table)) else None
    case Peek(h, table) => if s.d > 0 then Some((h, s.d - 1, table)) else None
    case _ => None
  }

  /** Threads whose handles agree above a level stand at the same table there. */
  lemma OneTablePerEntry<V(!new)>(s: State<V>, i: nat, j: nat)
    requires Reachable(s) && i < |s.pcs| && j < |s.pcs|
    requires Standing(s, s.pcs[i]).Some? && Standing(s, s.pcs[j]).Some?
    ensures var x, y := Standing(s, s.pcs[i]).value, Standing(s, s.pcs[j]).value;
            && x.1 < s.d && y.1 < s.d
            && (x.1 == y.1 && (forall l :: 0 <= l < x.1 ==> Index(s.d, x.0, l) == Index(s.d, y.0, l)) ==> x.2 == y.2)
  {
    ReachableInv(s);
    hide Reachable, HandleOk, Index;
    assert ThreadOk(s, i) && ThreadOk(s, j);
    var x, y := Standing(s, s.pcs[i]).value, Standing(s, s.pcs[j]).value;
    if x.1 == y.1 && forall l :: 0 <= l < x.1 ==> Index(s.d, x.0, l) == Index(s.d, y.0, l) {
      SamePath(s.d, s.tables, s.root, x.0, y.0, x.1);
    }
  }

  lemma {:induction false} SamePath<V>(d: nat, m: Tables<V>, root: nat, h: nat, k: nat, level: nat)
    requires level <= d && forall l :: 0 <= l < level ==> Index(d, h, l) == Index(d, k, l)
    ensures PathTable(d, m, root, h, level) == PathTable(d, m, root, k, level)
  {
    hide Index;
    if level > 0 { SamePath(d, m, root, h, k, level - 1); }
  }

  /** Once there is a table on a path, it stays for the rest of every run. */
  lemma TablesArePermanent<V(!new)>(s: State<V>, moves: seq<(nat, Move<V>)>, s': State<V>, h: nat, level: nat)
    requires Reachable(s) && Runs(s, moves, s') && level < s.d && h < Pow256(s.d)
    requires PathTable(s.d, s.tables, s.root, h, level).Some?
    ensures s'.d == s.d && s'.root == s.root
    ensures PathTable(s.d, s'.tables, s.root, h, level) == PathTable(s.d, s.tables, s.root, h, level)
  {
    ReachableInv(s);
    RunInv(s, moves, s');
  }

  // ---------------------------------------------------------------- what a get returns

  /** The values that are stored, being removed or being returned were issued for their handles. */
  ghost predicate Recorded<V>(s: State<V>) {
    && (forall h :: h in s.owned ==> (h, s.owned[h]) in s.issued)
    && (forall i :: 0 <= i < |s.pcs| ==> PcRecorded(s.pcs[i], s.issued))
  }

  ghost predicate PcRecorded<V>(pc: Pc<V>, issued: seq<(nat, V)>) {
    && (pc.Find? || pc.Take? ==> (pc.h, pc.v) in issued)
    && (pc.Got? && pc.found.Some? ==> (pc.h, pc.found.value) in issued)
  }

  /** The value that a get reads at the leaf was issued for its handle. */
  lemma PeekRecorded<V>(s: State<V>, i: nat, h: nat, table: nat, v: V)
    requires Inv(s) && Recorded(s) && i < |s.pcs| && s.pcs[i] == Peek(h, table) && s.d > 0
    requires Entry(s, h, s.d - 1, table) == Value(v)
    ensures (h, v) in s.issued
  {
    hide Pow256, Index, Bit, TreeOk, Shaped, PathTable;
    assert ThreadOk(s, i) && HandleOk(s, h);
    if h !in s.owned {
      assert s.pcs[s.owner[h]].Wanted() == Some(v) && PcRecorded(s.pcs[s.owner[h]], s.issued);
    }
  }

  /** A step of thread `i` that keeps its own record and issues at most one handle. */
  ghost predicate Records<V>(s: State<V>, i: nat, s': State<V>)
    requires i < |s.pcs|
  {
    && |s'.pcs| == |s.pcs| && s'.pcs == s.pcs[i := s'.pcs[i]] && PcRecorded(s'.pcs[i], s'.issued)
    && (|| (&& s'.owned.Keys <= s.owned.Keys && (forall h :: h in s'.owned ==> s'.owned[h] == s.owned[h])
            && s'.issued == s.issued)
        || (&& |s'.issued| == |s.issued| + 1
            && var last := s'.issued[|s.issued|];
               s'.issued == s.issued + [last] && s'.owned == s.owned[last.0 := last.1]))
  }

  lemma RecordsKept<V>(s: State<V>, i: nat, s': State<V>)
    requires i < |s.pcs| && Recorded(s) && Records(s, i, s')
    ensures Recorded(s')
  {
    assert s.issued <= s'.issued;
    forall j | 0 <= j < |s'.pcs| ensures PcRecorded(s'.pcs[j], s'.issued) {
      if j != i { assert PcRecorded(s.pcs[j], s.issued); }
    }
  }

  lemma AtRecords<V>(s: State<V>, i: nat, pc: Pc<V>)
    requires i < |s.pcs| && PcRecorded(pc, s.issued)
    ensures Records(s, i, At(s, i, pc))
  {}

  lemma GoRecords<V>(s: State<V>, i: nat, c: nat, spurious: bool)
    requires Inv(s) && Recorded(s) && i < |s.pcs|
    ensures Records(s, i, GoStep(s, i, c, spurious))
  {
    hide Index, Inv, ClaimStep, CreateStep, PutStep, TakeStep, FreeStep, Entry, Records, Inserting, Removing, Getting;
    assert PcRecorded(s.pcs[i], s.issued);
    match s.pcs[i]
    case Claim(v, word, current) => ClaimRecords(s, i, v, word, current, spurious);
    case Create(v, h, level, table) => CreateRecords(s, i, v, h, level, table, c);
    case Put(v, h, table) => PutRecords(s, i, v, h, table);
    case Take(_, h, table) => TakeRecords(s, i, h, table);
    case FreeTry(h, current) => FreeRecords(s, i, h, current, spurious);
    case Peek(h, table) =>
      if s.d > 0 && Entry(s, h, s.d - 1, table).Value? {
        PeekRecorded(s, i, h, table, Entry(s, h, s.d - 1, table).value);
      }
      AtRecords(s, i, GoStep(s, i, c, spurious).pcs[i]);
    case Walk(_, _, _, _) => WalkRecords(s, i, c, spurious);
    case Find(_, _, _, _) => WalkRecords(s, i, c, spurious);
    case Look(_, _, _) => WalkRecords(s, i, c, spurious);
    case _ => QuietRecords(s, i, c, spurious);
  }

  lemma QuietRecords<V>(s: State<V>, i: nat, c: nat, spurious: bool)
    requires i < |s.pcs| && PcRecorded(s.pcs[i], s.issued)
    requires var pc := s.pcs[i]; pc.Idle? || pc.Crashed? || pc.Scan? || pc.FreeLoad? || pc.Got?
    ensures Records(s, i, GoStep(s, i, c, spurious))
  {
    hide Records;
    AtRecords(s, i, GoStep(s, i, c, spurious).pcs[i]);
    assert s.pcs[i := s.pcs[i]] == s.pcs;
  }

  lemma WalkRecords<V>(s: State<V>, i: nat, c: nat, spurious: bool)
    requires i < |s.pcs| && PcRecorded(s.pcs[i], s.issued)
    requires s.pcs[i].Walk? || s.pcs[i].Find? || s.pcs[i].Look?
    ensures Records(s, i, GoStep(s, i, c, spurious))
  {
    hide Records, Entry;
    AtRecords(s, i, GoStep(s, i, c, spurious).pcs[i]);
  }

  lemma ClaimRecords<V>(s: State<V>, i: nat, v: V, word: nat, current: Word, spurious: bool)
    requires i < |s.pcs|
    ensures Records(s, i, ClaimStep(s, i, v, word, current, spurious))
  {
    hide FirstZero, SetBit;
  }

  lemma CreateRecords<V>(s: State<V>, i: nat, v: V, h: nat, level: nat, table: nat, c: nat)
    requires i < |s.pcs|
    ensures Records(s, i, CreateStep(s, i, v, h, level, table, c))
  {
    hide Index, Grown;
  }

  lemma PutRecords<V>(s: State<V>, i: nat, v: V, h: nat, table: nat)
    requires i < |s.pcs|
    ensures Records(s, i, PutStep(s, i, v, h, table))
  {
    hide Index, Written;
  }

  lemma TakeRecords<V>(s: State<V>, i: nat, h: nat, table: nat)
    requires i < |s.pcs|
    ensures Records(s, i, TakeStep(s, i, h, table))
  {
    hide Index, Written;
  }

  lemma FreeRecords<V>(s: State<V>, i: nat, h: nat, current: Word, spurious: bool)
    requires i < |s.pcs|
    ensures Records(s, i, FreeStep(s, i, h, current, spurious))
  {
    hide SetBit;
  }

  lemma StepRecorded<V>(s: State<V>, i: nat, move: Move<V>)
    requires Inv(s) && Recorded(s) && Enabled(s, i, move)
    ensures Recorded(Apply(s, i, move))
  {
    hide Inv, GoStep;
    if move.Go? { GoRecords(s, i, move.newTable, move.spurious); }
    RecordsKept(s, i, Apply(s, i, move));
  }

  lemma {:induction false} RunRecorded<V>(s: State<V>, moves: seq<(nat, Move<V>)>, s': State<V>)
    requires Inv(s) && Recorded(s) && Runs(s, moves, s')
    ensures Recorded(s')
    decreases |moves|
  {
    hide Inv, Apply, Enabled, Recorded;
    if moves != [] {
      StepInv(s, moves[0].0, moves[0].1);
      StepRecorded(s, moves[0].0, moves[0].1);
      RunRecorded(Apply(s, moves[0].0, moves[0].1), moves[1..], s');
    }
  }

  /** A get that runs at any time, beside any other operations, returns only a value its handle was issued for. */
  lemma GetReturnsIssued<V(!new)>(s: State<V>, i: nat, h: nat, v: V)
    requires Reachable(s) && i < |s.pcs| && s.pcs[i] == Got(h, Some(v))
    ensures (h, v) in s.issued
  {
    var s0: State<V>, moves :| Initial(s0) && Runs(s0, moves, s);
    InitInv(s0);
    RunRecorded(s0, moves, s);
    assert PcRecorded(s.pcs[i], s.issued);
  }
}
