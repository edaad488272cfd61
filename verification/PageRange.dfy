/** Exactly which ranges the walker visits entry by entry, as coded. */
module PageRange {
  import opened Common
  import opened Arithmetic
  import opened Bits
  import opened PageEntry
  import opened PageTree
  import opened PageWalker

  /** How many blocks an entry at `level` really covers. */
  function Cover(ps: PageSize, size: MapBlockSize, level: nat): (n: nat)
    requires level <= EndLevel(size)
    ensures n > 0
  {
    var e := Entries(ps);
    match EndLevel(size) - level case 0 => 1 case 1 => e case 2 => e * e case _ => e * e * e
  }

  /** Above the level before the last, a chunk is right if it starts or ends within one entry. */
  predicate EntryFits(ps: PageSize, size: MapBlockSize, level: nat, b: nat, count: nat)
    requires Supported(ps, size) && level < EndLevel(size)
  {
    var u := Cover(ps, size, level);
    var o := b % u;
    if ps.SixteenKiB? && level == 0 then
      var all := CodedBlocks(ps, size, 0);
      var room := all - b / Cover(ps, size, 1) % Entries(ps);
      || (count <= room && o + count <= u)
      || (o + room == u && count <= room + all)
    else o == 0 || o + count <= u
  }

  /** The ranges of `count` blocks from block `b` on that `map` and `unmap` treat as documented. */
  predicate Fits(ps: PageSize, size: MapBlockSize, b: nat, count: nat)
    requires Supported(ps, size)
  {
    && b + count <= Radix(ps, 0) * Cover(ps, size, 0)
    && FitsFrom(ps, size, 0, b, count)
  }

  predicate FitsFrom(ps: PageSize, size: MapBlockSize, level: nat, b: nat, count: nat)
    requires Supported(ps, size)
  {
    forall l :: level <= l < EndLevel(size) - 1 ==> EntryFits(ps, size, l, b, count)
  }

  // ---------------------------------------------------------------- indices of blocks

  lemma MulDivCancel(b: nat, u: nat, w: nat, uw: nat)
    requires u > 0 && w > 0 && uw == u * w
    ensures uw > 0 && (b * w) / uw == b / u
  {
    assert b == u * (b / u) + b % u;
    MulAtLeast(w, u);
    assert b * w == uw * (b / u) + (b % u) * w by { assert (u * (b / u)) * w == uw * (b / u); }
    assert (b % u) * w < uw by { MulSub(w, u, b % u); MulAtLeast(w, u - b % u); }
    DivModUnique(b * w, uw, b / u, (b % u) * w);
  }

  /** The index of a block's address at a level. */
  lemma IndexOfBlock(ps: PageSize, size: MapBlockSize, b: nat, level: nat)
    requires Supported(ps, size) && level <= EndLevel(size)
    ensures IndexForLevel(ps, Skip(ps, size, 0, b), level) == b / Cover(ps, size, level) % Radix(ps, level)
  {
    MulDivCancel(b, Cover(ps, size, level), BlockBytes(ps, size), EntryBytes(ps, level));
  }

  // ---------------------------------------------------------------- one entry's chunk

  predicate Special(ps: PageSize, level: nat) { ps.SixteenKiB? && level == 0 }

  lemma CoverStep(ps: PageSize, size: MapBlockSize, level: nat)
    requires Supported(ps, size) && level < EndLevel(size)
    ensures Cover(ps, size, level) == Entries(ps) * Cover(ps, size, level + 1) == TableBlocks(ps, size, level + 1)
    ensures !Special(ps, level) ==> CodedBlocks(ps, size, level) == Cover(ps, size, level)
    ensures Special(ps, level) ==> CodedBlocks(ps, size, level) < Cover(ps, size, level)
    ensures level + 1 == EndLevel(size) ==> Cover(ps, size, level + 1) == 1
    ensures level + 1 < EndLevel(size) ==> Cover(ps, size, level + 1) >= 2
  {}

  /** The part of `rem` blocks from `b` on that belongs to the entry of `b`. */
  ghost predicate ChunkRight(ps: PageSize, size: MapBlockSize, level: nat, b: nat, rem: nat, c: nat)
    requires Supported(ps, size) && level < EndLevel(size)
  {
    var u := Cover(ps, size, level);
    b % u + c <= u && (c < rem ==> b % u + c == u)
  }

  function BlockChunk(ps: PageSize, size: MapBlockSize, level: nat, b: nat, rem: nat): (c: nat)
    requires Supported(ps, size) && level < EndLevel(size) && rem > 0
    ensures 0 < c <= rem
  {
    Chunk(ps, size, level, Skip(ps, size, 0, b), rem)
  }

  /** The coded chunk in terms of block numbers. */
  lemma BlockChunkIs(ps: PageSize, size: MapBlockSize, level: nat, b: nat, rem: nat)
    requires Supported(ps, size) && level < EndLevel(size) && rem > 0
    ensures var u, u' := Cover(ps, size, level), Cover(ps, size, level + 1);
            var i := b % u / u';
            var room := CodedBlocks(ps, size, level) - i;
            && i == b / u' % Entries(ps) < Entries(ps)
            && BlockChunk(ps, size, level, b, rem) == if rem < room then rem else room
  {
    hide Cover, CodedBlocks, Skip, EntryBytes;
    CoverStep(ps, size, level);
    IndexOfBlock(ps, size, b, level + 1);
    Digits(b, Entries(ps), Cover(ps, size, level + 1), Cover(ps, size, level));
  }

  lemma QuotientIsSame(o: nat, u': nat)
    requires u' >= 2 && o / u' == o
    ensures o == 0
  {
    assert o == u' * (o / u') + o % u';
    if o > 0 { MulSub(o, u', 1); MulAtLeast(o, u' - 1); }
  }

  lemma ChunkFits(ps: PageSize, size: MapBlockSize, level: nat, b: nat, rem: nat)
    requires Supported(ps, size) && level < EndLevel(size) && rem > 0
    requires level + 1 < EndLevel(size) ==> EntryFits(ps, size, level, b, rem)
    ensures ChunkRight(ps, size, level, b, rem, BlockChunk(ps, size, level, b, rem))
  {
    hide Cover, CodedBlocks, BlockChunk;
    CoverStep(ps, size, level);
    BlockChunkIs(ps, size, level, b, rem);
  }

  lemma FitsChunk(ps: PageSize, size: MapBlockSize, level: nat, b: nat, rem: nat)
    requires Supported(ps, size) && level + 1 < EndLevel(size) && rem > 0
    requires var c := BlockChunk(ps, size, level, b, rem);
             && ChunkRight(ps, size, level, b, rem, c)
             && (Special(ps, level) && c < rem ==> rem <= c + CodedBlocks(ps, size, level))
    ensures EntryFits(ps, size, level, b, rem)
    ensures !Special(ps, level) && BlockChunk(ps, size, level, b, rem) < rem ==> b % Cover(ps, size, level) == 0
  {
    hide Cover, CodedBlocks, BlockChunk;
    CoverStep(ps, size, level);
    BlockChunkIs(ps, size, level, b, rem);
    var u, u' := Cover(ps, size, level), Cover(ps, size, level + 1);
    var o := b % u;
    if !Special(ps, level) && BlockChunk(ps, size, level, b, rem) < rem {
      assert o / u' == o;
      QuotientIsSame(o, u');
    }
  }

  // ---------------------------------------------------------------- chunk after chunk

  lemma AfterChunk(b: nat, u: nat, c: nat)
    requires u > 0 && b % u + c == u
    ensures (b + c) / u == b / u + 1 && (b + c) % u == 0
  {
    assert b == u * (b / u) + b % u;
    assert u * (b / u) + u == u * (b / u + 1);
    DivModUnique(b + c, u, b / u + 1, 0);
  }

  /** A block number divisible by an entry's blocks is so at every level below. */
  lemma {:induction false} AlignedBelow(ps: PageSize, size: MapBlockSize, level: nat, b: nat, l: nat)
    requires Supported(ps, size) && level <= l < EndLevel(size) && b % Cover(ps, size, level) == 0
    ensures b % Cover(ps, size, l) == 0
    decreases l - level
  {
    if level < l {
      hide Cover;
      CoverStep(ps, size, level);
      Digits(b, Entries(ps), Cover(ps, size, level + 1), Cover(ps, size, level));
      AlignedBelow(ps, size, level + 1, b, l);
    }
  }

  /** Aligned at a level, a range of any length fits below it. */
  lemma AlignedFits(ps: PageSize, size: MapBlockSize, level: nat, b: nat, count: nat)
    requires Supported(ps, size) && level < EndLevel(size) && b % Cover(ps, size, level) == 0
    ensures FitsFrom(ps, size, level + 1, b, count)
    ensures !Special(ps, level) ==> FitsFrom(ps, size, level, b, count)
  {
    hide Cover;
    forall l | level <= l < EndLevel(size) - 1 ensures b % Cover(ps, size, l) == 0 {
      AlignedBelow(ps, size, level, b, l);
    }
  }

  lemma FewerFit(ps: PageSize, size: MapBlockSize, level: nat, b: nat, count: nat, c: nat)
    requires Supported(ps, size) && 1 <= level && c <= count && FitsFrom(ps, size, level, b, count)
    ensures FitsFrom(ps, size, level, b, c)
  {
    hide Cover;
    forall l | level <= l < EndLevel(size) - 1 ensures EntryFits(ps, size, l, b, c) {
      assert EntryFits(ps, size, l, b, count);
    }
  }

  /** What is left after a right chunk fits again. */
  lemma RestFits(ps: PageSize, size: MapBlockSize, level: nat, b: nat, rem: nat)
    requires Supported(ps, size) && level < EndLevel(size) && rem > 0 && FitsFrom(ps, size, level, b, rem)
    ensures var c := BlockChunk(ps, size, level, b, rem);
            && ChunkRight(ps, size, level, b, rem, c)
            && FitsFrom(ps, size, level + 1, b, c)
            && (c < rem ==> FitsFrom(ps, size, level, b + c, rem - c))
  {
    hide Cover, CodedBlocks, BlockChunk;
    var c, u := BlockChunk(ps, size, level, b, rem), Cover(ps, size, level);
    assert level + 1 < EndLevel(size) ==> EntryFits(ps, size, level, b, rem);
    ChunkFits(ps, size, level, b, rem);
    FewerFit(ps, size, level + 1, b, rem, c);
    if c < rem {
      AfterChunk(b, u, c);
      AlignedFits(ps, size, level, b + c, rem - c);
      if Special(ps, level) { SpecialRest(ps, size, b, rem); }
    }
  }

  lemma SpecialRest(ps: PageSize, size: MapBlockSize, b: nat, rem: nat)
    requires Supported(ps, size) && ps.SixteenKiB? && rem > 0 && EntryFits(ps, size, 0, b, rem)
    requires var c := BlockChunk(ps, size, 0, b, rem);
             c < rem && ChunkRight(ps, size, 0, b, rem, c) && (b + c) % Cover(ps, size, 0) == 0
    ensures var c := BlockChunk(ps, size, 0, b, rem);
            EntryFits(ps, size, 0, b + c, rem - c)
  {
    hide Cover, CodedBlocks, BlockChunk;
    var c, u := BlockChunk(ps, size, 0, b, rem), Cover(ps, size, 0);
    CoverStep(ps, size, 0);
    BlockChunkIs(ps, size, 0, b, rem);
    Digits(b + c, Entries(ps), Cover(ps, size, 1), u);
    assert (b + c) / Cover(ps, size, 1) % Entries(ps) == 0;
  }

  // ---------------------------------------------------------------- ranges that fit

  /** The blocks of table `number`. */
  ghost predicate Inside(ps: PageSize, size: MapBlockSize, level: nat, number: nat, b: nat, count: nat)
    requires Supported(ps, size) && level <= EndLevel(size)
  {
    var u := Cover(ps, size, level);
    Child(ps, level, number, 0) * u <= b && b + count <= Child(ps, level, number, Radix(ps, level)) * u
  }

  function Exact(b: nat, count: nat): Plan { Plan(Consecutive(b, count), false, []) }

  lemma ConsecutiveSplit(b: nat, c: nat, d: nat)
    ensures Consecutive(b, c) + Consecutive(b + c, d) == Consecutive(b, c + d)
  {}

  /** A block inside a table belongs to the entry at its index. */
  lemma InsideIndex(ps: PageSize, size: MapBlockSize, level: nat, number: nat, b: nat, count: nat)
    requires Supported(ps, size) && level <= EndLevel(size) && count > 0 && Inside(ps, size, level, number, b, count)
    ensures b / Cover(ps, size, level) == Child(ps, level, number, IndexForLevel(ps, Skip(ps, size, 0, b), level))
  {
    hide Cover, Skip, IndexForLevel, Radix;
    var u, r := Cover(ps, size, level), Radix(ps, level);
    IndexOfBlock(ps, size, b, level);
    QuotientBetween(b, u, number * r, number * r + r);
    DivModUnique(b / u, r, number, b / u - number * r);
  }

  lemma QuotientBetween(b: nat, u: nat, lo: nat, hi: nat)
    requires u > 0 && lo * u <= b < hi * u
    ensures lo <= b / u < hi
  {
    var q := b / u;
    assert b == u * q + b % u;
    if q < lo { MulSub(u, lo, q); MulAtLeast(u, lo - q); }
    if q >= hi { MulGrows(hi, q, u); }
  }

  /** The part of an entry lies in the table below it. */
  lemma InsideChild(ps: PageSize, size: MapBlockSize, level: nat, n: nat, b: nat, c: nat)
    requires Supported(ps, size) && level < EndLevel(size)
    requires b / Cover(ps, size, level) == n && b % Cover(ps, size, level) + c <= Cover(ps, size, level)
    ensures Inside(ps, size, level + 1, n, b, c)
  {
    hide Cover, Radix, Entries;
    CoverStep(ps, size, level);
    RadixBelow(ps, level);
    var e, u, u' := Entries(ps), Cover(ps, size, level), Cover(ps, size, level + 1);
    assert b == u * n + b % u;
    SpanOf(n, e, u', u);
  }

  lemma RadixBelow(ps: PageSize, level: nat)
    ensures Radix(ps, level + 1) == Entries(ps)
  {}

  lemma SpanOf(n: nat, e: nat, w: nat, u: nat)
    requires u == e * w
    ensures n * e * w == u * n && (n * e + e) * w == u * n + u
  {
    assert n * e * w == n * (e * w);
  }

  /** The state of the walk before an entry: `rem` blocks from `b` on, which start in that entry. */
  ghost predicate AtEntry(ps: PageSize, size: MapBlockSize, level: nat, number: nat, index: nat, b: nat, rem: nat)
    requires Supported(ps, size) && level < EndLevel(size)
  {
    var n, u := Child(ps, level, number, index), Cover(ps, size, level);
    n * u <= b < n * u + u && b + rem <= Child(ps, level, number, Radix(ps, level)) * u
  }

  lemma AtQuotient(ps: PageSize, size: MapBlockSize, level: nat, number: nat, index: nat, b: nat, rem: nat)
    requires Supported(ps, size) && level < EndLevel(size)
    ensures AtEntry(ps, size, level, number, index, b, rem)
            <==> && b / Cover(ps, size, level) == Child(ps, level, number, index)
                 && b + rem <= Child(ps, level, number, Radix(ps, level)) * Cover(ps, size, level)
  {
    hide Cover, Radix, Child;
    var n, u := Child(ps, level, number, index), Cover(ps, size, level);
    assert b == u * (b / u) + b % u;
    if n * u <= b < n * u + u { DivModUnique(b, u, n, b - n * u); }
  }

  lemma AtEntryIndex(ps: PageSize, size: MapBlockSize, level: nat, number: nat, index: nat, b: nat, rem: nat)
    requires Supported(ps, size) && level < EndLevel(size) && rem > 0
    requires AtEntry(ps, size, level, number, index, b, rem)
    ensures index < Radix(ps, level) <= Entries(ps)
  {
    hide Cover;
    var u, r := Cover(ps, size, level), Radix(ps, level);
    AtQuotient(ps, size, level, number, index, b, rem);
    hide Radix, AtEntry;
    QuotientBetween(b, u, 0, number * r + r);
  }

  lemma NextEntry(ps: PageSize, size: MapBlockSize, level: nat, number: nat, index: nat, b: nat, rem: nat, c: nat)
    requires Supported(ps, size) && level < EndLevel(size) && c <= rem
    requires AtEntry(ps, size, level, number, index, b, rem)
    requires b % Cover(ps, size, level) + c == Cover(ps, size, level)
    ensures AtEntry(ps, size, level, number, index + 1, b + c, rem - c)
  {
    hide Cover, Radix, AtEntry;
    AtQuotient(ps, size, level, number, index, b, rem);
    AtQuotient(ps, size, level, number, index + 1, b + c, rem - c);
    AfterChunk(b, Cover(ps, size, level), c);
  }

  lemma {:induction false} PlanTableExact(ps: PageSize, size: MapBlockSize, level: nat, number: nat, b: nat, count: nat)
    requires Supported(ps, size) && level <= EndLevel(size) && count > 0
    requires Inside(ps, size, level, number, b, count) && FitsFrom(ps, size, level, b, count)
    ensures PlanTable(ps, size, level, number, Skip(ps, size, 0, b), count) == Exact(b, count)
    decreases EndLevel(size) - level, 1, 0
  {
    var i := IndexForLevel(ps, Skip(ps, size, 0, b), level);
    InsideIndex(ps, size, level, number, b, count);
    if level < EndLevel(size) {
      hide Cover, Skip, Radix, IndexForLevel, FitsFrom, PlanEntries, AtEntry;
      AtQuotient(ps, size, level, number, i, b, count);
      PlanEntriesExact(ps, size, level, number, i, b, count);
    } else {
      assert b == Child(ps, level, number, i) && i + count <= Entries(ps);
    }
  }

  lemma {:induction false} PlanEntriesExact(ps: PageSize, size: MapBlockSize, level: nat, number: nat, index: nat,
                                            b: nat, rem: nat)
    requires Supported(ps, size) && level < EndLevel(size) && rem > 0
    requires AtEntry(ps, size, level, number, index, b, rem) && FitsFrom(ps, size, level, b, rem)
    ensures PlanEntries(ps, size, level, number, index, Skip(ps, size, 0, b), rem) == Exact(b, rem)
    decreases EndLevel(size) - level, 0, rem
  {
    hide Cover, Skip, Radix, IndexForLevel, FitsFrom, EntryFits, PlanTable, PlanEntries, Chunk, Child, AtEntry;
    AtQuotient(ps, size, level, number, index, b, rem);
    AtEntryIndex(ps, size, level, number, index, b, rem);
    var c, n := BlockChunk(ps, size, level, b, rem), Child(ps, level, number, index);
    PlanUnfold(ps, size, level, number, index, Skip(ps, size, 0, b), rem);
    RestFits(ps, size, level, b, rem);
    InsideChild(ps, size, level, n, b, c);
    PlanTableExact(ps, size, level + 1, n, b, c);
    SkipSkip(ps, size, 0, b, c);
    ConsecutiveSplit(b, c, rem - c);
    if c < rem {
      NextEntry(ps, size, level, number, index, b, rem, c);
      PlanEntriesExact(ps, size, level, number, index + 1, b + c, rem - c);
    } else {
      PlanDone(ps, size, level, number, index + 1, Skip(ps, size, 0, b + c));
    }
  }

  // ---------------------------------------------------------------- and only those

  lemma {:induction false} ExactTableFits(ps: PageSize, size: MapBlockSize, level: nat, number: nat, b: nat, count: nat)
    requires Supported(ps, size) && level <= EndLevel(size) && count > 0
    requires Inside(ps, size, level, number, b, count)
    requires PlanTable(ps, size, level, number, Skip(ps, size, 0, b), count) == Exact(b, count)
    ensures FitsFrom(ps, size, level, b, count)
    decreases EndLevel(size) - level, 1, 0
  {
    if level < EndLevel(size) {
      InsideIndex(ps, size, level, number, b, count);
      hide Cover, Skip, Radix, IndexForLevel, FitsFrom, PlanEntries, AtEntry;
      AtQuotient(ps, size, level, number, IndexForLevel(ps, Skip(ps, size, 0, b), level), b, count);
      ExactEntriesFit(ps, size, level, number, IndexForLevel(ps, Skip(ps, size, 0, b), level), b, count);
    }
  }

  /** In an exact plan the entry's part and the rest are exact, and the part ends with the entry or the range. */
  lemma ExactSplits(ps: PageSize, size: MapBlockSize, level: nat, number: nat, index: nat, b: nat, rem: nat)
    requires Supported(ps, size) && level < EndLevel(size) && rem > 0
    requires AtEntry(ps, size, level, number, index, b, rem)
    requires PlanEntries(ps, size, level, number, index, Skip(ps, size, 0, b), rem) == Exact(b, rem)
    ensures var c, n := BlockChunk(ps, size, level, b, rem), Child(ps, level, number, index);
            && PlanTable(ps, size, level + 1, n, Skip(ps, size, 0, b), c) == Exact(b, c)
            && PlanEntries(ps, size, level, number, index + 1, Skip(ps, size, 0, b + c), rem - c)
               == Exact(b + c, rem - c)
            && ChunkRight(ps, size, level, b, rem, c)
  {
    hide Cover, Skip, Radix, IndexForLevel, PlanTable, PlanEntries, Chunk, Child, First, Between, AtEntry;
    AtQuotient(ps, size, level, number, index, b, rem);
    AtEntryIndex(ps, size, level, number, index, b, rem);
    var c, n := BlockChunk(ps, size, level, b, rem), Child(ps, level, number, index);
    PlanUnfold(ps, size, level, number, index, Skip(ps, size, 0, b), rem);
    SkipSkip(ps, size, 0, b, c);
    PlanTableBounds(ps, size, level + 1, n, Skip(ps, size, 0, b), c);
    PlanEntriesBounds(ps, size, level, number, index + 1, Skip(ps, size, 0, b + c), rem - c);
    ChildGrows(ps, level, number, index, Entries(ps));
    var here := PlanTable(ps, size, level + 1, n, Skip(ps, size, 0, b), c);
    var later := PlanEntries(ps, size, level, number, index + 1, Skip(ps, size, 0, b + c), rem - c);
    ConsecutiveSplit(b, c, rem - c);
    assert here.visits == (here.visits + later.visits)[..c] == Consecutive(b, c);
    assert later.visits == (here.visits + later.visits)[c..] == Consecutive(b + c, rem - c);
    BetweenExact(b, c, First(ps, size, level + 1, n), First(ps, size, level + 1, n + 1));
    if c < rem {
      var end := First(ps, size, level + 1, Child(ps, level, number, Entries(ps)));
      BetweenExact(b + c, rem - c, First(ps, size, level + 1, n + 1), end);
    }
    RightFromFirst(ps, size, level, n, b, rem, c);
  }

  lemma BetweenExact(b: nat, c: nat, lo: nat, hi: nat)
    requires c > 0 && Between(Consecutive(b, c), lo, hi)
    ensures lo <= b && b + c <= hi
  {
    var xs := Consecutive(b, c);
    assert xs[0] == b && xs[c - 1] == b + c - 1;
  }

  lemma RightFromFirst(ps: PageSize, size: MapBlockSize, level: nat, n: nat, b: nat, rem: nat, c: nat)
    requires Supported(ps, size) && level < EndLevel(size) && b / Cover(ps, size, level) == n
    requires b + c <= First(ps, size, level + 1, n + 1) && (c < rem ==> First(ps, size, level + 1, n + 1) <= b + c)
    ensures ChunkRight(ps, size, level, b, rem, c)
  {
    CoverStep(ps, size, level);
    hide Cover, TableBlocks;
    Offset(b, Cover(ps, size, level), n);
  }

  lemma Offset(b: nat, u: nat, n: nat)
    requires u > 0 && b / u == n
    ensures (n + 1) * u == b - b % u + u
  {
    assert b == u * n + b % u;
  }

  lemma {:induction false} ExactEntriesFit(ps: PageSize, size: MapBlockSize, level: nat, number: nat, index: nat,
                                           b: nat, rem: nat)
    requires Supported(ps, size) && level < EndLevel(size) && rem > 0
    requires AtEntry(ps, size, level, number, index, b, rem)
    requires PlanEntries(ps, size, level, number, index, Skip(ps, size, 0, b), rem) == Exact(b, rem)
    ensures FitsFrom(ps, size, level, b, rem)
    decreases EndLevel(size) - level, 0, rem
  {
    hide Cover, Skip, Radix, IndexForLevel, FitsFrom, EntryFits, PlanTable, PlanEntries, Chunk, Child, CodedBlocks,
         BlockChunk, AtEntry;
    AtQuotient(ps, size, level, number, index, b, rem);
    var c, n := BlockChunk(ps, size, level, b, rem), Child(ps, level, number, index);
    ExactSplits(ps, size, level, number, index, b, rem);
    InsideChild(ps, size, level, n, b, c);
    ExactTableFits(ps, size, level + 1, n, b, c);
    if c < rem {
      NextEntry(ps, size, level, number, index, b, rem, c);
      ExactEntriesFit(ps, size, level, number, index + 1, b + c, rem - c);
    }
    JoinFits(ps, size, level, b, rem);
  }

  /** The conditions on the parts are those on the whole. */
  lemma JoinFits(ps: PageSize, size: MapBlockSize, level: nat, b: nat, rem: nat)
    requires Supported(ps, size) && level < EndLevel(size) && rem > 0
    requires var c := BlockChunk(ps, size, level, b, rem);
             && ChunkRight(ps, size, level, b, rem, c) && FitsFrom(ps, size, level + 1, b, c)
             && (c < rem ==> FitsFrom(ps, size, level, b + c, rem - c))
    ensures FitsFrom(ps, size, level, b, rem)
  {
    hide Cover, CodedBlocks, BlockChunk, EntryFits;
    var c := BlockChunk(ps, size, level, b, rem);
    if level + 1 < EndLevel(size) {
      if c < rem && Special(ps, level) {
        assert EntryFits(ps, size, 0, b + c, rem - c);
        SpecialWhole(ps, size, b, rem);
      }
      FitsChunk(ps, size, level, b, rem);
      if c < rem && !Special(ps, level) { AlignedFits(ps, size, level, b, rem); }
    }
  }

  lemma SpecialWhole(ps: PageSize, size: MapBlockSize, b: nat, rem: nat)
    requires Supported(ps, size) && ps.SixteenKiB? && rem > 0
    requires var c := BlockChunk(ps, size, 0, b, rem);
             && c < rem && ChunkRight(ps, size, 0, b, rem, c) && EntryFits(ps, size, 0, b + c, rem - c)
             && FitsFrom(ps, size, 1, b, c)
    ensures rem <= BlockChunk(ps, size, 0, b, rem) + CodedBlocks(ps, size, 0)
    ensures FitsFrom(ps, size, 1, b, rem)
  {
    var c, u := BlockChunk(ps, size, 0, b, rem), Cover(ps, size, 0);
    CoverStep(ps, size, 0);
    BlockChunkIs(ps, size, 0, b, rem);
    assert size.SinglePage? ==> c > Cover(ps, size, 1);
    hide Cover, CodedBlocks, BlockChunk;
    AfterChunk(b, u, c);
    Digits(b + c, Entries(ps), Cover(ps, size, 1), u);
    assert (b + c) / Cover(ps, size, 1) % Entries(ps) == 0;
    forall l | 1 <= l < EndLevel(size) - 1 ensures EntryFits(ps, size, l, b, rem) {
      assert EntryFits(ps, size, l, b, c);
    }
  }

  lemma InsideRoot(ps: PageSize, size: MapBlockSize, n: nat, b: nat, count: nat)
    requires Supported(ps, size) && n == 0 && b + count <= Radix(ps, 0) * Cover(ps, size, 0)
    ensures Inside(ps, size, 0, n, b, count)
  {
    hide Cover, Radix;
  }

  /** The walker visits exactly the blocks of the range if and only if the range fits. */
  lemma FitsExactly(ps: PageSize, size: MapBlockSize, b: nat, count: nat)
    requires Supported(ps, size) && count > 0 && b + count <= Radix(ps, 0) * Cover(ps, size, 0)
    ensures Fits(ps, size, b, count)
            <==> PlanTable(ps, size, 0, 0, Skip(ps, size, 0, b), count) == Plan(Consecutive(b, count), false, [])
  {
    hide Cover, Skip, Radix, FitsFrom, PlanTable, Inside;
    InsideRoot(ps, size, 0, b, count);
    if Fits(ps, size, b, count) { PlanTableExact(ps, size, 0, 0, b, count); }
    if PlanTable(ps, size, 0, 0, Skip(ps, size, 0, b), count) == Plan(Consecutive(b, count), false, []) {
      ExactTableFits(ps, size, 0, 0, b, count);
    }
  }

  // ---------------------------------------------------------------- what a range means

  /** The translation that is asked for at `offset` bytes into the range. */
  function Desired(size: MapBlockSize, op: Operation, phys: nat, offset: nat): Option<Mapping> {
    match op
    case MapTo(p) => Some(Mapping(phys + offset, LeafAttributes(LeafType(size), p)))
    case Unmap => None
  }

  /** An entry with the attributes that are asked for stands for the properties that were given. */
  lemma DesiredProperties(size: MapBlockSize, p: MemoryProperties, phys: nat, offset: nat, entry: nat)
    requires Desired(size, MapTo(p), phys, offset).value.attributes == AttributesOf(entry)
    ensures DecodesTo(entry, p)
  {
    hide DecodesTo, AttributesOf, LeafAttributes;
    WordDecodes(entry, LeafType(size), p);
  }

  /** `bytes` bytes from `low` on have the new translation, all other addresses keep theirs. */
  ghost predicate RangeDone(ps: PageSize, size: MapBlockSize, root: nat, op: Operation, phys: nat, low: nat, bytes: nat,
                            m: Memory, m': Memory)
  {
    forall v :: 0 <= v < ADDRESS_LIMIT ==>
      Lookup(ps, m', root, v)
      == if low <= v < low + bytes then Desired(size, op, phys, v - low) else Lookup(ps, m, root, v)
  }

  lemma RangeEffect(ps: PageSize, size: MapBlockSize, op: Operation, root: nat, m: Memory, m': Memory,
                    b: nat, count: nat, phys: nat, done: nat)
    requires Effect(ps, size, op, root, m, m', Consecutive(b, count), phys, done)
    requires Skip(ps, size, phys, count) <= ADDRESS_LIMIT
    ensures RangeDone(ps, size, root, op, phys, Skip(ps, size, 0, b), done * BlockBytes(ps, size), m, m')
  {
    hide Lookup, BlockBytes, Effect, Skip;
    forall v | 0 <= v < ADDRESS_LIMIT
      ensures var low := Skip(ps, size, 0, b);
              Lookup(ps, m', root, v)
              == if low <= v < low + done * BlockBytes(ps, size) then Desired(size, op, phys, v - low)
                 else Lookup(ps, m, root, v)
    {
      RangeAt(ps, size, op, root, m, m', b, count, phys, done, v);
    }
  }

  lemma RangeAt(ps: PageSize, size: MapBlockSize, op: Operation, root: nat, m: Memory, m': Memory,
                b: nat, count: nat, phys: nat, done: nat, v: nat)
    requires Effect(ps, size, op, root, m, m', Consecutive(b, count), phys, done)
    requires Skip(ps, size, phys, count) <= ADDRESS_LIMIT && v < ADDRESS_LIMIT
    ensures var low := Skip(ps, size, 0, b);
            Lookup(ps, m', root, v)
            == if low <= v < low + done * BlockBytes(ps, size) then Desired(size, op, phys, v - low)
               else Lookup(ps, m, root, v)
  {
    hide Lookup, BlockBytes, EntryBytes, Translated;
    var w, visits := BlockBytes(ps, size), Consecutive(b, count);
    var q := v / w;
    WithinBlocks(v, w, b, done);
    assert EntryNumber(ps, v, EndLevel(size)) == q;
    if b <= q < b + done {
      assert visits[q - b] == q;
      assert Lookup(ps, m', root, v) == Translated(size, op, Skip(ps, size, phys, q - b), v % w);
      BlockTarget(ps, size, op, phys, count, b, v);
    } else {
      assert q !in visits[..done];
    }
  }

  lemma WithinBlocks(v: nat, w: nat, b: nat, done: nat)
    requires w > 0
    ensures b <= v / w < b + done <==> b * w <= v < b * w + done * w
  {
    var q := v / w;
    assert v == w * q + v % w && b * w + done * w == (b + done) * w;
    if b <= q { MulGrows(b, q, w); } else { MulSub(w, b, q); MulAtLeast(w, b - q); }
    if b + done <= q { MulGrows(b + done, q, w); } else { MulSub(w, b + done, q); MulAtLeast(w, b + done - q); }
  }

  /** Inside the physical address space a block's address is stored in full. */
  lemma BlockTarget(ps: PageSize, size: MapBlockSize, op: Operation, phys: nat, count: nat, b: nat, v: nat)
    requires Skip(ps, size, phys, count) <= ADDRESS_LIMIT && b <= v / BlockBytes(ps, size) < b + count
    ensures b * BlockBytes(ps, size) <= v
    ensures Translated(size, op, Skip(ps, size, phys, v / BlockBytes(ps, size) - b), v % BlockBytes(ps, size))
            == Desired(size, op, phys, v - b * BlockBytes(ps, size))
  {
    hide BlockBytes, Or, Skip;
    BlockAddress(ps, size, phys, count, b, v);
    match op
    case MapTo(p) => OrZero(PropertiesHigh(p));
    case Unmap =>
  }

  lemma BlockAddress(ps: PageSize, size: MapBlockSize, phys: nat, count: nat, b: nat, v: nat)
    requires Skip(ps, size, phys, count) <= ADDRESS_LIMIT && b <= v / BlockBytes(ps, size) < b + count
    ensures var w := BlockBytes(ps, size);
            var a := Skip(ps, size, phys, v / w - b);
            b * w <= v && a % ADDRESS_LIMIT + v % w == phys + (v - b * w) && a / ADDRESS_LIMIT == 0
  {
    hide BlockBytes;
    BlockOffset(phys, BlockBytes(ps, size), count, b, v);
  }

  lemma BlockOffset(phys: nat, w: nat, count: nat, b: nat, v: nat)
    requires w > 0 && phys + count * w <= ADDRESS_LIMIT && b <= v / w < b + count
    ensures b * w <= v && (phys + (v / w - b) * w) % ADDRESS_LIMIT + v % w == phys + (v - b * w)
    ensures (phys + (v / w - b) * w) / ADDRESS_LIMIT == 0
  {
    var k := v / w - b;
    assert v == w * (v / w) + v % w;
    assert k * w == w * (v / w) - b * w by { MulSub(w, v / w, b); }
    assert 0 <= k * w < count * w by { MulSub(w, count, k); MulAtLeast(w, count - k); }
    DivModUnique(phys + k * w, ADDRESS_LIMIT, 0, phys + k * w);
  }
}
