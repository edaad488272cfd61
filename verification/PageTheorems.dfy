/** Whole runs of `map` and `unmap`, and the ranges the walker does not treat as documented. */
module PageTheorems {
  import opened Common
  import opened Arithmetic
  import opened PageEntry
  import opened PageTree
  import opened PageWalker
  import opened PageObstacles
  import opened PageOverwrites
  import opened PageRange
  import opened PageTables

  /** A call of `map` or `unmap`. */
  datatype Request = Request(op: Operation, size: MapBlockSize, v: nat, phys: nat, count: nat) {
    function From(): nat { if op.MapTo? then phys else 0 }

    predicate Refused(ps: PageSize) { Refusal(ps, false, size, v, From(), count).Some? }

    predicate Fine(ps: PageSize) { v < WORD_LIMIT && (Refused(ps) || Proper(ps, size, v, From(), count)) }

    ghost function Begin(ps: PageSize, root: nat, st: State): Setting {
      Setting(ps, size, op, root, st.tables, st.supply, st.orphans)
    }

    /** The outcome and the state after the request are those the state before it demands. */
    ghost predicate Leads(ps: PageSize, root: nat, st: State, r: Outcome, done: nat, st': State) {
      Follows(false, Begin(ps, root, st), v, From(), count, r, done, st')
    }

    /** The first `done` end-level entries that the request writes. */
    ghost function Writes(ps: PageSize, done: nat): set<nat> {
      if Refused(ps) then {}
      else
        var visits := PlanTable(ps, size, 0, 0, v % ADDRESS_LIMIT, count).visits;
        Seen(if done <= |visits| then visits[..done] else visits)
    }

    /** The tables whose entry is among those. */
    ghost function Cut(ps: PageSize, root: nat, st: State, done: nat): set<nat> {
      Overwritten(Begin(ps, root, st), Writes(ps, done))
    }
  }

  /** A plain address map: the last request that covers a pointer decides its translation. */
  function Meaning(ps: PageSize, requests: seq<Request>, dones: seq<nat>, p: nat): Option<Mapping>
    requires |requests| == |dones|
  {
    var n := |requests|;
    if n == 0 then None
    else
      var q := requests[n - 1];
      if Covers(ps, q.size, q.v, dones[n - 1], p)
      then Desired(q.size, q.op, q.From(), p % ADDRESS_LIMIT - q.v % ADDRESS_LIMIT)
      else Meaning(ps, requests[..n - 1], dones[..n - 1], p)
  }

  /** Every result and every state is the one the state before it demands. */
  ghost predicate Linked(ps: PageSize, root: nat, requests: seq<Request>, results: seq<Outcome>, dones: seq<nat>,
                         states: seq<State>)
    requires |results| == |dones| <= |requests| && |states| == |results| + 1
  {
    forall i :: 0 <= i < |results| ==> requests[i].Leads(ps, root, states[i], results[i], dones[i], states[i + 1])
  }

  /** No request has overwritten the entry of a table. */
  ghost predicate NoneCut(ps: PageSize, root: nat, requests: seq<Request>, dones: seq<nat>, states: seq<State>)
    requires |dones| <= |requests| && |dones| <= |states|
  {
    forall i :: 0 <= i < |dones| ==> requests[i].Cut(ps, root, states[i], dones[i]) == {}
  }

  /** The results report how far each request got. */
  ghost predicate Reported(ps: PageSize, requests: seq<Request>, results: seq<Outcome>, dones: seq<nat>)
    requires |results| == |dones| <= |requests|
  {
    forall i :: 0 <= i < |dones| ==>
      && !(results[i].Panic? && Supported(ps, requests[i].size))
      && dones[i] <= requests[i].count
      && if requests[i].Refused(ps) then dones[i] == 0 && !results[i].Ok?
         else (results[i].Ok? <==> dones[i] == requests[i].count)
  }

  ghost predicate Implements(ps: PageSize, root: nat, m: Memory, requests: seq<Request>, dones: seq<nat>)
    requires |requests| == |dones|
  {
    forall p :: 0 <= p < WORD_LIMIT && !IsHigh(p) ==>
      Translate(ps, false, root, m, p) == Meaning(ps, requests, dones, p)
  }

  /** Every state means the requests before it. */
  ghost predicate Meant(ps: PageSize, root: nat, states: seq<State>, requests: seq<Request>, dones: seq<nat>)
    requires |states| == |dones| + 1 && |dones| <= |requests|
  {
    forall i :: 0 <= i < |states| ==> Implements(ps, root, states[i].tables, requests[..i], dones[..i])
  }

  /** One more request. */
  method Serve(t: Tables, q: Request, ghost requests: seq<Request>, ghost dones: seq<nat>)
    returns (r: Outcome, ghost done: nat)
    requires t.Valid() && !t.highTag && |requests| == |dones| && Implements(t.ps, t.root, t.tables, requests, dones)
             && q.Fine(t.ps)
    modifies t
    ensures t.Valid() && Implements(t.ps, t.root, t.tables, requests + [q], dones + [done])
    ensures q.Leads(t.ps, t.root, old(t.View()), r, done, t.View()) && Reported(t.ps, [q], [r], [done])
    ensures t.orphans == old(t.orphans) + q.Cut(t.ps, t.root, old(t.View()), done)
    ensures q.size.SinglePage? ==> t.orphans == old(t.orphans)
  {
    hide Tables.Valid, Tables.Stepped, Tables.Did, Made, Leaves, Overwritten, Proper, Refusal, PlanTable, Implements,
         Reported, Setting.Verdict, Setting.FirstStop;
    ghost var m := t.tables;
    match q.op {
      case MapTo(properties) => r, done := t.Map(q.v, q.phys, q.count, q.size, properties);
      case Unmap => r, done := t.Unmap(q.v, q.count, q.size);
    }
    OverwroteNothing(q.Begin(t.ps, t.root, old(t.View())));
    if q.size.SinglePage? { PagesOverwriteNothing(q.Begin(t.ps, t.root, old(t.View())), q.Writes(t.ps, done)); }
    ServeStep(t, q, requests, dones, m, r, done);
  }

  lemma ServeStep(t: Tables, q: Request, requests: seq<Request>, dones: seq<nat>, m: Memory, r: Outcome, done: nat)
    requires |requests| == |dones| && !t.highTag
    requires Implements(t.ps, t.root, m, requests, dones)
    requires var no := Refusal(t.ps, false, q.size, q.v, q.From(), q.count);
             if no.Some? then r == no.value && t.tables == m && done == 0
             else t.Did(q.size, q.op, q.v, q.From(), q.count, r, done, m)
    ensures Implements(t.ps, t.root, t.tables, requests + [q], dones + [done])
    ensures Reported(t.ps, [q], [r], [done])
  {
    hide Covers, Lookup, BlockBytes, Meaning, IsHigh;
    forall p | 0 <= p < WORD_LIMIT && !IsHigh(p)
      ensures Translate(t.ps, false, t.root, t.tables, p) == Meaning(t.ps, requests + [q], dones + [done], p)
    {
      MeaningSnoc(t.ps, requests, dones, q, done, p);
      if q.Refused(t.ps) { CoversNothing(t.ps, q.size, q.v, p); }
    }
  }

  lemma MeaningSnoc(ps: PageSize, requests: seq<Request>, dones: seq<nat>, q: Request, done: nat, p: nat)
    requires |requests| == |dones|
    ensures Meaning(ps, requests + [q], dones + [done], p)
            == if Covers(ps, q.size, q.v, done, p)
               then Desired(q.size, q.op, q.From(), p % ADDRESS_LIMIT - q.v % ADDRESS_LIMIT)
               else Meaning(ps, requests, dones, p)
  {
    hide Covers;
    assert (requests + [q])[..|requests|] == requests && (dones + [done])[..|dones|] == dones;
  }

  lemma CoversNothing(ps: PageSize, size: MapBlockSize, v: nat, p: nat)
    ensures !Covers(ps, size, v, 0, p)
  {}

  /**
   Every run of `map` and `unmap` from `empty` on refines the plain address map, and is dropped completely if and
   only if no request overwrites the entry of a table.
   */
  method Run(ps: PageSize, root: nat, supply: seq<Option<nat>>, requests: seq<Request>)
    returns (results: seq<Outcome>, ghost dones: seq<nat>, ghost states: seq<State>, t: Tables)
    requires root % PageBytes(ps) == 0 && 0 < root < ADDRESS_LIMIT
    requires Fresh(ps, supply, {root})
    requires forall i :: 0 <= i < |requests| ==> requests[i].Fine(ps)
    ensures fresh(t) && t.Valid() && t.ps == ps && t.root == root && !t.highTag
    ensures |results| == |dones| == |requests| && |states| == |requests| + 1
    ensures states[0] == State(map[root := ZeroPage(ps)], supply, {}) && states[|requests|] == t.View()
    ensures Linked(ps, root, requests, results, dones, states) && Reported(ps, requests, results, dones)
    ensures Meant(ps, root, states, requests, dones)
    ensures t.orphans == {} <==> NoneCut(ps, root, requests, dones, states)
    ensures (forall i :: 0 <= i < |requests| ==> requests[i].size.SinglePage?) ==> t.orphans == {}
  {
    hide Tables.Valid, Meaning, Request.Fine, Request.Leads, Request.Cut, Implements, Meant, Reported, NoneCut, Lookup;
    t := new Tables(ps, root, supply);
    results, dones, states := [], [], [t.View()];
    EmptyMeaning(t, requests);
    NothingYet(ps, root, requests, states);
    for i := 0 to |requests|
      invariant t.Valid() && !t.highTag && |results| == |dones| == i && |states| == i + 1
      invariant states[0] == State(map[root := ZeroPage(ps)], supply, {}) && states[i] == t.View()
      invariant Linked(ps, root, requests, results, dones, states) && Reported(ps, requests, results, dones)
      invariant Meant(ps, root, states, requests, dones)
      invariant t.orphans == {} <==> NoneCut(ps, root, requests, dones, states)
      invariant (forall k :: 0 <= k < i ==> requests[k].size.SinglePage?) ==> t.orphans == {}
    {
      var r;
      ghost var done;
      MeantLast(ps, root, states, requests, dones);
      r, done := Serve(t, requests[i], requests[..i], dones);
      MeantSnoc(ps, root, states, requests, dones, t.View(), done);
      ReportedSnoc(ps, requests, results, dones, r, done);
      NoneCutSnoc(ps, root, requests, dones, states, done, t.View());
      results, dones, states := results + [r], dones + [done], states + [t.View()];
    }
  }

  lemma NothingYet(ps: PageSize, root: nat, requests: seq<Request>, states: seq<State>)
    requires |states| == 1
    ensures Linked(ps, root, requests, [], [], states) && Reported(ps, requests, [], [])
    ensures NoneCut(ps, root, requests, [], states)
  {}

  lemma ReportedSnoc(ps: PageSize, requests: seq<Request>, results: seq<Outcome>, dones: seq<nat>, r: Outcome,
                     done: nat)
    requires |results| == |dones| < |requests|
    ensures Reported(ps, requests, results + [r], dones + [done])
            <==> Reported(ps, requests, results, dones) && Reported(ps, [requests[|dones|]], [r], [done])
  {
    hide Request.Refused;
    var n := |results|;
    assert forall i :: 0 <= i < n ==> (results + [r])[i] == results[i] && (dones + [done])[i] == dones[i];
    assert (results + [r])[n] == r && (dones + [done])[n] == done;
  }

  lemma NoneCutSnoc(ps: PageSize, root: nat, requests: seq<Request>, dones: seq<nat>, states: seq<State>, done: nat,
                    st: State)
    requires |dones| < |requests| && |states| == |dones| + 1
    ensures NoneCut(ps, root, requests, dones + [done], states + [st])
            <==> NoneCut(ps, root, requests, dones, states)
                 && requests[|dones|].Cut(ps, root, states[|dones|], done) == {}
  {
    hide Request.Cut;
    var n := |dones|;
    assert forall i :: 0 <= i < n ==> (dones + [done])[i] == dones[i];
    assert forall i :: 0 <= i <= n ==> (states + [st])[i] == states[i];
    assert (dones + [done])[n] == done;
  }

  lemma MeantSnoc(ps: PageSize, root: nat, states: seq<State>, requests: seq<Request>, dones: seq<nat>, st: State,
                  done: nat)
    requires |states| == |dones| + 1 && |dones| < |requests| && Meant(ps, root, states, requests, dones)
    requires var n := |dones|; Implements(ps, root, st.tables, requests[..n] + [requests[n]], dones + [done])
    ensures Meant(ps, root, states + [st], requests, dones + [done])
  {
    hide Implements;
    var n := |dones|;
    forall i | 0 <= i < n + 2
      ensures Implements(ps, root, (states + [st])[i].tables, requests[..i], (dones + [done])[..i])
    {
      if i <= n {
        assert (states + [st])[i] == states[i] && (dones + [done])[..i] == dones[..i];
      } else {
        assert requests[..i] == requests[..n] + [requests[n]] && (dones + [done])[..i] == dones + [done];
      }
    }
  }

  lemma MeantLast(ps: PageSize, root: nat, states: seq<State>, requests: seq<Request>, dones: seq<nat>)
    requires |states| == |dones| + 1 && |dones| <= |requests| && Meant(ps, root, states, requests, dones)
    ensures var n := |dones|; Implements(ps, root, states[n].tables, requests[..n], dones)
  {
    hide Implements;
    var n := |dones|;
    assert dones[..n] == dones;
    assert Implements(ps, root, states[n].tables, requests[..n], dones[..n]);
  }

  lemma EmptyMeaning(t: Tables, requests: seq<Request>)
    requires forall v :: Lookup(t.ps, t.tables, t.root, v) == None
    ensures Meant(t.ps, t.root, [t.View()], requests, [])
  {}

  // ---------------------------------------------------------------- ranges that do not fit

  /** Mapping the two 4KiB pages on both sides of a 1GiB boundary panics. */
  lemma CrossingPanics(ps: PageSize, size: MapBlockSize, vs: nat)
    requires ps == FourKiB && size == SinglePage && vs == 0x3fff_f000
    ensures PlanTable(ps, size, 0, 0, vs, 2).panics && |PlanTable(ps, size, 0, 0, vs, 2).Walks()| == 1
  {
    hide IndexForLevel, Chunk, Child, PlanTable, PlanEntries, Skip, EndLevel, Entries, Supported;
    CrossingIndices(ps, size, vs);
    PlanLeaf(ps, size, Child(ps, 2, 0, 511), vs, 1);
    PlanUnfold(ps, size, 2, 0, 512, Skip(ps, size, vs, 1), 1);
    PlanUnfold(ps, size, 2, 0, 511, vs, 2);
    PlanTableAbove(ps, size, 2, 0, vs, 2);
    PlanUnfold(ps, size, 1, 0, 0, vs, 2);
    PlanTableAbove(ps, size, 1, 0, vs, 2);
    PlanUnfold(ps, size, 0, 0, 0, vs, 2);
    PlanTableAbove(ps, size, 0, 0, vs, 2);
  }

  lemma CrossingDoesNotFit(ps: PageSize, size: MapBlockSize, vs: nat)
    requires ps == FourKiB && size == SinglePage && vs == 0x3fff_f000
    ensures !Fits(ps, size, vs / BlockBytes(ps, size), 2) && Refusal(ps, false, size, vs, 0, 2) == None
  {
    assert !EntryFits(ps, size, 1, 0x3_ffff, 2);
  }

  lemma PlanTableAbove(ps: PageSize, size: MapBlockSize, level: nat, number: nat, vs: nat, count: nat)
    requires Supported(ps, size) && level < EndLevel(size)
    ensures PlanTable(ps, size, level, number, vs, count)
            == PlanEntries(ps, size, level, number, IndexForLevel(ps, vs, level), vs, count)
  {}

  lemma PlanLeaf(ps: PageSize, size: MapBlockSize, number: nat, vs: nat, count: nat)
    requires Supported(ps, size) && IndexForLevel(ps, vs, EndLevel(size)) + count <= Entries(ps)
    ensures var plan := PlanTable(ps, size, EndLevel(size), number, vs, count);
            !plan.panics && |plan.visits| == count && plan.probe == []
  {}

  lemma CrossingIndices(ps: PageSize, size: MapBlockSize, vs: nat)
    requires ps == FourKiB && size == SinglePage && vs == 0x3fff_f000
    ensures Supported(ps, size) && EndLevel(size) == 3 && Entries(ps) == 512
    ensures IndexForLevel(ps, vs, 0) == IndexForLevel(ps, vs, 1) == 0
    ensures IndexForLevel(ps, vs, 2) == IndexForLevel(ps, vs, 3) == 511
    ensures Chunk(ps, size, 0, vs, 2) == 2 == Chunk(ps, size, 1, vs, 2) && Chunk(ps, size, 2, vs, 2) == 1
    ensures Child(ps, 0, 0, 0) == 0 == Child(ps, 1, 0, 0)
  {}

  /** Of 4097 small blocks of 16KiB pages from address 0 on, the last is written for address 2^47 + 2^37. */
  lemma LongRangeStrays(ps: PageSize, size: MapBlockSize, zero: nat)
    requires ps == SixteenKiB && size == SmallBlock && zero == 0
    ensures var plan := PlanTable(ps, size, 0, 0, zero, 4097);
            && !plan.panics && |plan.Walks()| == |plan.visits| == 4097
            && plan.visits[..4096] == Consecutive(0, 4096) && Skip(ps, size, 0, plan.visits[4096]) == 0x8020_0000_0000
    ensures Refusal(ps, false, size, zero, 0, 4097) == None
    ensures !Fits(ps, size, zero, 4097)
  {
    hide PlanTable, PlanEntries, Chunk, Skip, IndexForLevel, Child, Inside;
    var vs := Skip(ps, size, zero, 4096);
    StrayIndices(ps, size, zero, vs);
    StrayInside(ps, size, 0, zero, 4096);
    PlanTableExact(ps, size, 1, 0, zero, 4096);
    StrayTable(ps, 1, 2);
    RootChild(ps, 0, 0);
    RootChild(ps, 0, 1);
    StrayLeaf(ps, size, vs, 2050);
    PlanUnfold(ps, size, 1, 1, 2, vs, 1);
    PlanDone(ps, size, 1, 1, 3, Skip(ps, size, vs, 1));
    PlanTableAbove(ps, size, 1, 1, vs, 1);
    PlanUnfold(ps, size, 0, 0, 1, vs, 1);
    PlanDone(ps, size, 0, 0, 2, Skip(ps, size, vs, 1));
    PlanUnfold(ps, size, 0, 0, 0, zero, 4097);
    PlanTableAbove(ps, size, 0, 0, zero, 4097);
    assert !EntryFits(ps, size, 0, zero, 4097);
  }

  lemma StrayIndices(ps: PageSize, size: MapBlockSize, zero: nat, vs: nat)
    requires ps == SixteenKiB && size == SmallBlock && zero == 0 && vs == Skip(ps, size, zero, 4096)
    ensures IndexForLevel(ps, zero, 0) == 0 && IndexForLevel(ps, vs, 1) == 2 && IndexForLevel(ps, vs, 2) == 0
    ensures Chunk(ps, size, 0, zero, 4097) == 4096 && Chunk(ps, size, 0, vs, 1) == 1 == Chunk(ps, size, 1, vs, 1)
    ensures Skip(ps, size, 0, zero) == zero
  {
    hide IndexForLevel;
    assert vs == 0x20_0000_0000;
    Index(ps, zero, 0, 0, 0);
    Index(ps, zero, 1, 0, 0);
    Index(ps, vs, 1, 2, 2);
    Index(ps, vs, 2, 4096, 0);
  }

  lemma RootChild(ps: PageSize, n: nat, i: nat)
    requires n == 0
    ensures Child(ps, 0, n, i) == i
  {}

  lemma StrayTable(ps: PageSize, n: nat, i: nat)
    requires ps == SixteenKiB && n == 1 && i == 2
    ensures Child(ps, 1, n, i) == 2050
  {
    assert Radix(ps, 1) == 2048;
  }

  lemma StrayInside(ps: PageSize, size: MapBlockSize, n: nat, b: nat, count: nat)
    requires ps == SixteenKiB && size == SmallBlock && n == 0 && b == 0 && count == 4096
    ensures Inside(ps, size, 1, n, b, count)
  {
    assert Radix(ps, 1) == 2048 && Cover(ps, size, 1) == 2048;
    hide Radix, Cover;
  }

  lemma Index(ps: PageSize, v: nat, level: nat, n: nat, i: nat)
    requires level <= 3 && v == n * EntryBytes(ps, level) && n % Radix(ps, level) == i
    ensures IndexForLevel(ps, v, level) == i
  {
    hide EntryBytes;
    DivModUnique(v, EntryBytes(ps, level), n, 0);
  }

  lemma StrayLeaf(ps: PageSize, size: MapBlockSize, vs: nat, n: nat)
    requires ps == SixteenKiB && size == SmallBlock && IndexForLevel(ps, vs, 2) == 0 && n == 2050
    ensures var plan := PlanTable(ps, size, 2, n, vs, 1);
            !plan.panics && |plan.visits| == 1 && Skip(ps, size, 0, plan.visits[0]) == 0x8020_0000_0000
  {
    hide IndexForLevel, Consecutive;
  }
}
