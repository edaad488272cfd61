/** What the log ring guarantees over whole runs from the initial state. */
module LoggerTheorems {
  import opened Common
  import opened Logger
  import opened LoggerInvariant

  /** `s` is reached from a new logger with `n` chunks by some interleaving. */
  ghost predicate Reachable(n: nat, s: State) { n > 0 && Follows(Init(n), s) }

  lemma {:induction false} RunKeepsSize(s: State, acts: seq<Action>, s': State)
    requires Inv(s) && Runs(s, acts, s')
    ensures |s'.ring.slots| == |s.ring.slots|
    decreases |acts|
  {
    if acts != [] {
      StepInv(s, acts[0]);
      RunKeepsSize(Apply(s, acts[0]), acts[1..], s');
    }
  }

  lemma ReachableInv(n: nat, s: State)
    requires Reachable(n, s)
    ensures Inv(s) && |s.ring.slots| == n
  {
    var acts :| Runs(Init(n), acts, s);
    InitInv(n);
    RunInv(Init(n), acts, s);
    RunKeepsSize(Init(n), acts, s);
  }

  // ---------------------------------------------------------------- tickets and their threads

  /** The thread that took ticket `i` and has not finished it is at work on it. */
  ghost predicate BackedAt(s: State, i: nat)
    requires i < |s.ring.tickets|
  {
    match s.ring.tickets[i]
    case Writing(t) => PcOf(s, t).Loop? && PcOf(s, t).w.chunk == Some(i)
    case Taken(t) => (PcOf(s, t).Checking? || PcOf(s, t).Claiming?) && PcOf(s, t).ticket == i
    case _ => true
  }

  ghost predicate Backed(s: State) { forall i :: 0 <= i < |s.ring.tickets| ==> BackedAt(s, i) }

  lemma StepBacked(s: State, a: Action)
    requires Inv(s) && Backed(s) && Enabled(s, a)
    ensures Backed(Apply(s, a))
  {
    if a.Continue? && IsWriter(PcOf(s, a.t)) {
      WriterBacked(s, a.t);
    } else if a.Continue? {
      FlusherBacked(s, a.t);
    } else {
      hide Inv, HistoryOk, AllBelow, FlusherOk, FullWord, WriterStep, FlusherStep;
      OwnThread(s, a.t);
      var s' := Apply(s, a);
      forall i | 0 <= i < |s'.ring.tickets| ensures BackedAt(s', i) { assert BackedAt(s, i); }
    }
  }

  lemma WriterBacked(s: State, t: nat)
    requires Inv(s) && Backed(s) && Enabled(s, Continue(t)) && IsWriter(PcOf(s, t))
    ensures Backed(WriterStep(s, t, PcOf(s, t)))
  {
    hide Inv, HistoryOk, AllBelow, FullWord;
    OwnThread(s, t);
    NextTicket(s);
    var s' := WriterStep(s, t, PcOf(s, t));
    forall i | 0 <= i < |s'.ring.tickets| ensures BackedAt(s', i) {
      if i < |s.ring.tickets| { assert BackedAt(s, i); }
    }
  }

  lemma NextTicket(s: State)
    requires Inv(s)
    ensures s.ring.writeIndex == |s.ring.tickets|
  {}

  lemma FlusherBacked(s: State, t: nat)
    requires Backed(s) && Enabled(s, Continue(t)) && !IsWriter(PcOf(s, t))
    ensures Backed(FlusherStep(s, t, PcOf(s, t)))
  {
    hide StatusOf, SizeOf;
    var s' := FlusherStep(s, t, PcOf(s, t));
    forall i | 0 <= i < |s'.ring.tickets| ensures BackedAt(s', i) { assert BackedAt(s, i); }
  }

  lemma {:induction false} RunBacked(s: State, acts: seq<Action>, s': State)
    requires Inv(s) && Backed(s) && Runs(s, acts, s')
    ensures Backed(s')
    decreases |acts|
  {
    hide Inv, Apply, Enabled, Backed;
    if acts != [] {
      StepInv(s, acts[0]);
      StepBacked(s, acts[0]);
      RunBacked(Apply(s, acts[0]), acts[1..], s');
    }
  }

  /** In every reachable state, tickets that are not finished belong to threads at work on them. */
  lemma ReachableBacked(n: nat, s: State)
    requires Reachable(n, s)
    ensures Backed(s)
  {
    var acts :| Runs(Init(n), acts, s);
    InitInv(n);
    RunBacked(Init(n), acts, s);
  }

  ghost predicate AllIdle(s: State) { forall t :: PcOf(s, t).Idle? }

  lemma NobodyFlushes(s: State)
    requires AllIdle(s) && LockOk(s)
    ensures s.lock.None?
  {
    assert s.lock.Some? ==> PcOf(s, s.lock.value).Idle?;
  }

  /** With all threads idle, every ticket was published or dropped. */
  lemma IdleTickets(n: nat, s: State, i: nat)
    requires Reachable(n, s) && AllIdle(s) && i < |s.ring.tickets|
    ensures s.ring.tickets[i].Finished? || s.ring.tickets[i].Dropped?
    ensures s.lock.None?
  {
    ReachableInv(n, s);
    ReachableBacked(n, s);
    assert BackedAt(s, i);
    NobodyFlushes(s);
  }

  predicate InWindow(s: State, n: nat, i: nat) { s.ring.readIndex <= i < s.ring.readIndex + n }

  /** Ticket `i` has its data, finished or not, in chunk `j`. */
  predicate Occupies(s: State, i: nat, j: nat)
    requires |s.ring.slots| > 0
  {
    && i < s.ring.writeIndex == |s.ring.tickets|
    && (s.ring.tickets[i].Writing? || (s.ring.tickets[i].Finished? && InSlot(s.ring, i)))
    && At(s.ring, i) == j
  }

  /** A chunk that is not empty is occupied by exactly one ticket, and that ticket is in the window. */
  lemma OneTicketPerChunk(n: nat, s: State, j: nat)
    requires Reachable(n, s) && j < n
    ensures |s.ring.slots| == n
    ensures s.ring.slots[j].word != STATUS_EMPTY <==> exists i :: Occupies(s, i, j)
    ensures forall i, k :: Occupies(s, i, j) && Occupies(s, k, j) ==> i == k && InWindow(s, n, i)
  {
    ReachableInv(n, s);
    assert SlotOk(s.ring, j);
    if s.ring.slots[j].word != STATUS_EMPTY { assert Occupies(s, s.ring.slots[j].owner.value, j); }
    forall i: nat | Occupies(s, i, j) ensures s.ring.slots[j].owner == Some(i) { OwnsChunk(n, s, i); }
  }

  /** The ticket that has its data in a chunk owns it. */
  lemma OwnsChunk(n: nat, s: State, i: nat)
    requires Reachable(n, s) && i < |s.ring.tickets| && |s.ring.slots| > 0
    requires s.ring.tickets[i].Writing? || (s.ring.tickets[i].Finished? && InSlot(s.ring, i))
    ensures s.ring.slots[At(s.ring, i)].owner == Some(i)
  {
    if s.ring.tickets[i].Writing? {
      ReachableInv(n, s);
      ReachableBacked(n, s);
      assert BackedAt(s, i);
      OwnThread(s, s.ring.tickets[i].tid);
    }
  }

  /** Two threads never write into the same chunk, and the flusher never reads a chunk being written. */
  lemma ChunksAreExclusive(n: nat, s: State, t: nat, u: nat)
    requires Reachable(n, s) && t != u
    requires PcOf(s, t).Loop? && PcOf(s, t).w.chunk.Some?
    ensures |s.ring.slots| == n
    ensures PcOf(s, u).Loop? && PcOf(s, u).w.chunk.Some? ==>
              At(s.ring, PcOf(s, t).w.chunk.value) != At(s.ring, PcOf(s, u).w.chunk.value)
    ensures PcOf(s, u).FlushReading? ==> At(s.ring, PcOf(s, t).w.chunk.value) != At(s.ring, PcOf(s, u).r)
  {
    ReachableInv(n, s);
    OwnThread(s, t);
    OwnThread(s, u);
  }

  /** The compare-exchange after a passed distance check always succeeds. */
  lemma ClaimNeverFails(n: nat, s: State, t: nat)
    requires Reachable(n, s) && PcOf(s, t).Claiming?
    ensures |s.ring.slots| == n && s.ring.slots[At(s.ring, PcOf(s, t).ticket)].word == STATUS_EMPTY
    ensures Enabled(s, Continue(t)) && PcOf(Apply(s, Continue(t)), t).Loop?
  {
    ReachableInv(n, s);
    ClaimSucceeds(s, t, PcOf(s, t).w, PcOf(s, t).ticket);
  }

  /**
   No slice bound and no other panic stops a thread: the next step its code takes is always possible, and between
   two strings both the next string and the end of the record are.
   */
  lemma NoThreadPanics(n: nat, s: State, t: nat)
    requires Reachable(n, s) && !PcOf(s, t).Idle?
    ensures var pc := PcOf(s, t);
            if pc.Loop? && pc.w.rest == [] then Enabled(s, EndRecord(t)) && forall b :: Enabled(s, BeginStr(t, b))
            else if pc.Loop? && !NeedsChunk(pc.w) then Enabled(s, Copy(t, CopyLimit(pc.w)))
            else Enabled(s, Continue(t))
  {
    ReachableInv(n, s);
    ThreadCanStep(s, t);
  }

  /**
   The sink has been given the contents of tickets 0, 1, 2, ... in that order, each once and untorn,
   as far as `read_index` (one further between `accept` and the increment of `read_index`).
   */
  lemma SinkIsInTicketOrder(n: nat, s: State)
    requires Reachable(n, s)
    ensures s.ring.readIndex <= |Data(s.sink)| <= s.ring.readIndex + 1
    ensures s.lock.None? ==> |Data(s.sink)| == s.ring.readIndex
    ensures forall k :: 0 <= k < |Data(s.sink)| ==>
              k < |s.ring.tickets| && s.ring.tickets[k] == Finished(Data(s.sink)[k])
  {
    ReachableInv(n, s);
  }

  /** Published data is not lost: a finished ticket was delivered, or its bytes are still in its chunk. */
  lemma PublishedDataIsKept(n: nat, s: State, i: nat)
    requires Reachable(n, s) && IsFinished(s.ring.tickets, i)
    ensures |s.ring.slots| == n
    ensures var b := s.ring.tickets[i].bytes;
            || (i < |Data(s.sink)| && Data(s.sink)[i] == b)
            || (var slot := s.ring.slots[At(s.ring, i)];
                && |b| <= |slot.data| && slot.data[..|b|] == b
                && StatusOf(slot.word) == STATUS_FULL && SizeOf(slot.word) == |b|)
  {
    ReachableInv(n, s);
    if i >= |Data(s.sink)| {
      assert InSlot(s.ring, i);
      assert SlotOk(s.ring, At(s.ring, i));
    }
  }

  /** The chunks of the sink at the positions `mine`, one after the other. */
  function ConcatData(data: seq<seq<Byte>>, mine: seq<nat>): seq<Byte>
    requires forall k :: 0 <= k < |mine| ==> mine[k] < |data|
  {
    if mine == [] then [] else ConcatData(data, mine[..|mine| - 1]) + data[mine[|mine| - 1]]
  }

  lemma {:induction false} ConcatDelivered(tickets: seq<Ticket>, data: seq<seq<Byte>>, mine: seq<nat>)
    requires |data| <= |tickets|
    requires forall k :: 0 <= k < |data| ==> tickets[k] == Finished(data[k])
    requires forall k :: 0 <= k < |mine| ==> mine[k] < |data|
    ensures Concat(tickets, mine) == ConcatData(data, mine)
  {
    if mine != [] { ConcatDelivered(tickets, data, mine[..|mine| - 1]); }
  }

  /**
   A completed record that lost nothing is the concatenation of the chunks it published, which are
   non-empty, in increasing ticket order and, all but the last, exactly full. Once `read_index` is
   past them, the sink holds the record's bytes at those tickets.
   */
  lemma RecordsAreWhole(n: nat, s: State, rec: Record)
    requires Reachable(n, s) && rec in s.records
    ensures Increasing(rec.tickets)
    ensures forall k :: 0 <= k < |rec.tickets| ==>
              && IsFinished(s.ring.tickets, rec.tickets[k])
              && 0 < |s.ring.tickets[rec.tickets[k]].bytes|
              && (k < |rec.tickets| - 1 ==> |s.ring.tickets[rec.tickets[k]].bytes| == MAX_LOG_CHUNK_SIZE)
    ensures !rec.lost ==> rec.bytes == Concat(s.ring.tickets, rec.tickets)
    ensures rec.lost ==> HasDropped(s.ring.tickets)
    ensures !rec.lost && (forall k :: 0 <= k < |rec.tickets| ==> rec.tickets[k] < |Data(s.sink)|) ==>
              rec.bytes == ConcatData(Data(s.sink), rec.tickets)
  {
    ReachableInv(n, s);
    assert RecordOk(s.ring.tickets, rec);
    forall k | 0 <= k < |rec.tickets| - 1
      ensures |s.ring.tickets[rec.tickets[k]].bytes| == MAX_LOG_CHUNK_SIZE
    {
      assert rec.tickets[..|rec.tickets| - 1][k] == rec.tickets[k];
    }
    if forall k :: 0 <= k < |rec.tickets| ==> rec.tickets[k] < |Data(s.sink)| {
      ConcatDelivered(s.ring.tickets, Data(s.sink), rec.tickets);
    }
  }

  // ---------------------------------------------------------------- after an overflow

  lemma StepKeepsDropped(s: State, a: Action, d: nat)
    requires Inv(s) && Enabled(s, a) && d < |s.ring.tickets| && s.ring.tickets[d].Dropped?
    ensures d < |Apply(s, a).ring.tickets| && Apply(s, a).ring.tickets[d].Dropped?
  {
    OwnThread(s, a.t);
    hide RingOk, LockOk, SinkOk, RecordsOk, HeadOk, ThreadsOk;
  }

  /**
   A dropped ticket has already advanced `write_index`, and the reader never passes it: whatever
   happens afterwards, the sink is given at most the tickets before it.
   */
  lemma {:induction false} ReaderNeverPassesDropped(s: State, acts: seq<Action>, s': State, d: nat)
    requires Inv(s) && d < |s.ring.tickets| && s.ring.tickets[d].Dropped? && Runs(s, acts, s')
    ensures d < |s'.ring.tickets| && s'.ring.tickets[d].Dropped?
    ensures s'.ring.readIndex <= d && |Data(s'.sink)| <= d
    decreases |acts|
  {
    if acts != [] {
      StepInv(s, acts[0]);
      StepKeepsDropped(s, acts[0], d);
      ReaderNeverPassesDropped(Apply(s, acts[0]), acts[1..], s', d);
    }
  }

  /** With one chunk, a second writer that starts before the first has finished overflows the ring. */
  lemma OverflowHappens() returns (s: State)
    ensures Reachable(1, s) && |s.ring.tickets| == 2 && s.ring.tickets[1].Dropped?
  {
    s := Init(1);
    var a := Record1(s, 0);
    s := Record1(a, 1);
    FollowsTrans(Init(1), a, s);
  }

  /** Thread `t` starts a record of one byte, takes a ticket for it and compares the distance. */
  lemma Record1(s: State, t: nat) returns (s': State)
    requires |s.ring.slots| > 0 && PcOf(s, t).Idle? && s.ring.writeIndex == |s.ring.tickets|
    ensures Follows(s, s') && |s'.ring.slots| == |s.ring.slots| && s'.ring.readIndex == s.ring.readIndex
    ensures s'.ring.writeIndex == |s'.ring.tickets| == |s.ring.tickets| + 1
    ensures |s.ring.tickets| - s.ring.readIndex >= |s.ring.slots| ==> s'.ring.tickets[|s.ring.tickets|].Dropped?
    ensures forall u :: u != t ==> PcOf(s', u) == PcOf(s, u)
  {
    var s1 := Apply(s, BeginRecord(t));
    var s2 := Apply(s1, BeginStr(t, [65]));
    var s3 := Apply(s2, Continue(t));
    var s4 := Apply(s3, Continue(t));
    s' := Apply(s4, Continue(t));
    hide Apply, Enabled, Follows;
    FollowsOne(s, BeginRecord(t));
    FollowsOne(s1, BeginStr(t, [65]));
    FollowsOne(s2, Continue(t));
    FollowsOne(s3, Continue(t));
    FollowsOne(s4, Continue(t));
    FollowsTrans(s, s1, s2);
    FollowsTrans(s, s2, s3);
    FollowsTrans(s, s3, s4);
    FollowsTrans(s, s4, s');
  }
}
