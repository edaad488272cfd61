/** What every step of the log ring keeps. */
module LoggerInvariant {
  import opened Arithmetic
  import opened Common
  import opened Logger

  // ---------------------------------------------------------------- the invariant

  predicate IsFlusher(pc: Pc) { !pc.Idle? && !IsWriter(pc) && !pc.TryLocking? }

  predicate IsFinished(tickets: seq<Ticket>, i: nat) { i < |tickets| && tickets[i].Finished? }

  predicate Increasing(xs: seq<nat>) { forall a, b :: 0 <= a < b < |xs| ==> xs[a] < xs[b] }

  predicate AllBelow(xs: seq<nat>, n: nat) { forall a :: 0 <= a < |xs| ==> xs[a] < n }

  /** Every ticket of `xs` is complete and carries a full chunk. */
  predicate AllFull(tickets: seq<Ticket>, xs: seq<nat>) {
    forall k :: 0 <= k < |xs| ==>
      IsFinished(tickets, xs[k]) && |tickets[xs[k]].bytes| == MAX_LOG_CHUNK_SIZE
  }

  /** The contents of the finished tickets `mine`, one after the other. */
  function Concat(tickets: seq<Ticket>, mine: seq<nat>): seq<Byte> {
    if mine == [] then []
    else
      var i := mine[|mine| - 1];
      Concat(tickets, mine[..|mine| - 1]) + (if IsFinished(tickets, i) then tickets[i].bytes else [])
  }

  /** What the writer has put into the chunk it holds. */
  function Pending(r: Ring, w: Writer): seq<Byte>
    requires |r.slots| > 0
  {
    if w.chunk.None? then [] else
    var d := r.slots[At(r, w.chunk.value)].data;
    if w.offset <= |d| then d[..w.offset] else d
  }

  /** Some thread found the ring full. */
  ghost predicate HasDropped(tickets: seq<Ticket>) { exists d :: 0 <= d < |tickets| && tickets[d].Dropped? }

  /** The record so far is in full finished tickets, then in the held chunk, then still to be copied. */
  ghost predicate HistoryOk(r: Ring, w: Writer)
    requires |r.slots| > 0
  {
    && Increasing(w.tickets) && AllFull(r.tickets, w.tickets)
    && (!w.lost ==> w.written == Concat(r.tickets, w.tickets) + Pending(r, w) + w.rest)
    && (w.lost ==> HasDropped(r.tickets))
  }

  ghost predicate HoldsChunk(r: Ring, t: nat, w: Writer, i: nat)
    requires |r.slots| > 0
  {
    && i < |r.tickets| && r.tickets[i] == Writing(t) && r.slots[At(r, i)].owner == Some(i)
    && w.offset <= MAX_LOG_CHUNK_SIZE && (w.offset > 0 || w.rest != [])
    && AllBelow(w.tickets, i)
  }

  ghost predicate HoldsTicket(r: Ring, t: nat, w: Writer, i: nat) {
    && w.chunk.None? && w.rest != []
    && i < |r.tickets| && r.tickets[i] == Taken(t) && AllBelow(w.tickets, i)
  }

  ghost predicate WriterOk(r: Ring, t: nat, pc: Pc)
    requires |r.slots| > 0 && IsWriter(pc)
  {
    && HistoryOk(r, pc.w)
    && match pc
       case Loop(w) => w.chunk.Some? ==> HoldsChunk(r, t, w, w.chunk.value)
       case Acquiring(w) => w.chunk.None? && w.rest != []
       case Checking(w, i) => HoldsTicket(r, t, w, i)
       case Claiming(w, i) => HoldsTicket(r, t, w, i) && i < r.readIndex + |r.slots|
       case Overflowed(w) => w.chunk.None? && HasDropped(r.tickets)
       case Discarding(w) => w.chunk.None? && HasDropped(r.tickets)
  }

  /** The flusher has loaded `read_index`, and ticket `i` is published and still in its chunk. */
  ghost predicate ReadsTicket(r: Ring, i: nat)
    requires |r.slots| > 0
  {
    i == r.readIndex && IsFinished(r.tickets, i) && r.slots[At(r, i)].owner == Some(i)
  }

  ghost predicate FlusherOk(r: Ring, pc: Pc)
    requires |r.slots| > 0 && IsFlusher(pc)
  {
    match pc
    case FlushStart(_) => true
    case FlushLoop(_) => true
    case FlushLoaded(left, i) => left > 0 && i == r.readIndex
    case FlushProbe(left, i) => left > 0 && i == r.readIndex && i < r.writeIndex
    case FlushReading(left, i, size, got) =>
      && left > 0 && ReadsTicket(r, i)
      && size == |r.tickets[i].bytes| && |got| <= size && got == r.tickets[i].bytes[..|got|]
    case FlushAccepted(left, i) => left > 0 && ReadsTicket(r, i)
    case FlushEmptied(left, i) =>
      && left > 0 && i == r.readIndex && IsFinished(r.tickets, i)
      && r.slots[At(r, i)].owner != Some(i)
  }

  ghost predicate ThreadOk(r: Ring, locked: bool, t: nat, pc: Pc)
    requires |r.slots| > 0
  {
    && locked == IsFlusher(pc)
    && (IsWriter(pc) ==> WriterOk(r, t, pc))
    && (IsFlusher(pc) ==> FlusherOk(r, pc))
  }

  /** A chunk that is not empty holds the data of the one ticket of the current window it names. */
  ghost predicate SlotOk(r: Ring, j: nat)
    requires j < |r.slots|
  {
    var slot := r.slots[j];
    && |slot.data| == MAX_LOG_CHUNK_SIZE
    && (slot.owner.None? ==> slot.word == STATUS_EMPTY)
    && (slot.owner.Some? ==> OwnerOk(r, j, slot, slot.owner.value))
  }

  ghost predicate OwnerOk(r: Ring, j: nat, slot: Slot, i: nat)
    requires |r.slots| > 0
  {
    && At(r, i) == j && r.readIndex <= i < r.readIndex + |r.slots| && i < |r.tickets|
    && match r.tickets[i]
       case Writing(_) => slot.word == STATUS_WRITING
       case Finished(b) =>
         0 < |b| <= |slot.data| && slot.word == FullWord(|b|) && slot.data[..|b|] == b
       case _ => false
  }

  ghost predicate RingOk(r: Ring) {
    && |r.slots| > 0 && |r.tickets| == r.writeIndex && r.readIndex <= r.writeIndex
    && (forall i :: 0 <= i < r.readIndex ==> r.tickets[i].Finished?)
    && (forall j :: 0 <= j < |r.slots| ==> SlotOk(r, j))
    && (forall i :: r.readIndex < i < |r.tickets| && r.tickets[i].Finished? ==> InSlot(r, i))
  }

  /** The content of ticket `i` is still in its chunk. */
  predicate InSlot(r: Ring, i: nat)
    requires |r.slots| > 0
  {
    r.slots[At(r, i)].owner == Some(i)
  }

  /** The data chunks the sink was given. */
  function Data(sink: seq<Accepted>): seq<seq<Byte>> {
    if sink == [] then []
    else
      var last := sink[|sink| - 1];
      Data(sink[..|sink| - 1]) + (if last.Chunk? then [last.bytes] else [])
  }

  /** How many tickets the sink has been given: one more than `read_index` just after `accept`. */
  function Delivered(s: State): nat {
    if s.lock.Some? && (PcOf(s, s.lock.value).FlushAccepted? || PcOf(s, s.lock.value).FlushEmptied?)
    then s.ring.readIndex + 1 else s.ring.readIndex
  }

  /** The sink holds the contents of the first `n` tickets in ticket order. */
  ghost predicate SinkOk(tickets: seq<Ticket>, data: seq<seq<Byte>>, n: nat) {
    && |data| == n <= |tickets|
    && forall k :: 0 <= k < n ==> tickets[k] == Finished(data[k])
  }

  /** A completed record: whole unless bytes were discarded, and cut only at full chunks. */
  ghost predicate RecordOk(tickets: seq<Ticket>, rec: Record) {
    && Increasing(rec.tickets)
    && (forall k :: 0 <= k < |rec.tickets| ==>
          IsFinished(tickets, rec.tickets[k]) && |tickets[rec.tickets[k]].bytes| > 0)
    && (rec.tickets != [] ==> AllFull(tickets, rec.tickets[..|rec.tickets| - 1]))
    && (!rec.lost ==> rec.bytes == Concat(tickets, rec.tickets))
    && (rec.lost ==> HasDropped(tickets))
  }

  ghost predicate LockOk(s: State) {
    s.lock.Some? ==> s.lock.value in s.threads && IsFlusher(s.threads[s.lock.value])
  }

  ghost predicate ThreadsOk(s: State)
    requires |s.ring.slots| > 0
  {
    forall t :: t in s.threads ==> ThreadOk(s.ring, s.lock == Some(t), t, s.threads[t])
  }

  /** The next ticket to read stays in its chunk until the flusher has handed it over. */
  ghost predicate HeadOk(s: State)
    requires |s.ring.slots| > 0
  {
    IsFinished(s.ring.tickets, s.ring.readIndex) && !(s.lock.Some? && PcOf(s, s.lock.value).FlushEmptied?)
    ==> InSlot(s.ring, s.ring.readIndex)
  }

  ghost predicate RecordsOk(s: State) {
    forall k :: 0 <= k < |s.records| ==> RecordOk(s.ring.tickets, s.records[k])
  }

  ghost predicate Inv(s: State) {
    && RingOk(s.ring) && ThreadsOk(s) && LockOk(s) && HeadOk(s)
    && SinkOk(s.ring.tickets, Data(s.sink), Delivered(s)) && RecordsOk(s)
  }

  // ---------------------------------------------------------------- what a step leaves to the others

  /** Only the thread's own unfinished tickets change. */
  ghost predicate TicketsKept(a: seq<Ticket>, b: seq<Ticket>, t: nat) {
    && |a| <= |b|
    && (forall i :: 0 <= i < |a| ==> b[i] == a[i] || a[i] == Taken(t) || a[i] == Writing(t))
  }

  /** What a step of thread `t` may do to the ring; `locked` says whether it holds the sink. */
  ghost predicate Guarantee(a: Ring, b: Ring, t: nat, locked: bool) {
    && TicketsKept(a.tickets, b.tickets, t)
    && |b.slots| == |a.slots| && |a.slots| > 0
    && (forall j :: 0 <= j < |a.slots| ==> b.slots[j] == a.slots[j] || SlotChange(a, b, t, locked, j))
    && a.writeIndex <= b.writeIndex && a.readIndex <= b.readIndex
    && (a.readIndex == b.readIndex || locked)
  }

  ghost predicate SlotChange(a: Ring, b: Ring, t: nat, locked: bool, j: nat)
    requires j < |a.slots| == |b.slots|
  {
    match a.slots[j].owner
    case None =>
      && b.slots[j].owner.Some? && b.slots[j].owner.value < |a.tickets|
      && a.tickets[b.slots[j].owner.value] == Taken(t)
    case Some(i) =>
      && i < |a.tickets|
      && (|| (a.tickets[i] == Writing(t) && b.slots[j].owner == Some(i))
          || (locked && a.tickets[i].Finished?))
  }

  lemma {:induction false} ConcatFrame(a: seq<Ticket>, b: seq<Ticket>, mine: seq<nat>)
    requires forall k :: 0 <= k < |mine| ==> IsFinished(a, mine[k]) && mine[k] < |b| && b[mine[k]] == a[mine[k]]
    ensures Concat(b, mine) == Concat(a, mine)
  {
    if mine != [] { ConcatFrame(a, b, mine[..|mine| - 1]); }
  }

  lemma DroppedFrame(a: seq<Ticket>, b: seq<Ticket>, t: nat)
    requires TicketsKept(a, b, t)
    ensures HasDropped(a) ==> HasDropped(b)
  {
    if HasDropped(a) {
      var d :| 0 <= d < |a| && a[d].Dropped?;
      assert b[d].Dropped?;
    }
  }

  lemma OtherWriter(a: Ring, b: Ring, t: nat, locked: bool, u: nat, pc: Pc)
    requires Guarantee(a, b, t, locked) && u != t
    requires IsWriter(pc) && WriterOk(a, u, pc)
    ensures WriterOk(b, u, pc)
  {
    ConcatFrame(a.tickets, b.tickets, pc.w.tickets);
    DroppedFrame(a.tickets, b.tickets, t);
    assert Pending(b, pc.w) == Pending(a, pc.w);
  }

  lemma OtherFlusher(a: Ring, b: Ring, t: nat, pc: Pc)
    requires Guarantee(a, b, t, false)
    requires IsFlusher(pc) && FlusherOk(a, pc)
    ensures FlusherOk(b, pc)
  {}

  lemma OtherRecord(a: seq<Ticket>, b: seq<Ticket>, t: nat, rec: Record)
    requires TicketsKept(a, b, t) && RecordOk(a, rec)
    ensures RecordOk(b, rec)
  {
    ConcatFrame(a, b, rec.tickets);
    DroppedFrame(a, b, t);
  }

  /** A step that keeps the ring, its own thread, the lock, the sink and new records right is right. */
  lemma StepKeepsInv(s: State, s': State, t: nat, pc: Pc)
    requires Inv(s)
    requires s'.threads == s.threads[t := pc]
    requires RingOk(s'.ring) && Guarantee(s.ring, s'.ring, t, s.lock == Some(t))
    requires ThreadOk(s'.ring, s'.lock == Some(t), t, pc)
    requires s'.lock == s.lock || (s.lock == Some(t) && s'.lock.None?) || (s.lock.None? && s'.lock == Some(t))
    requires SinkOk(s'.ring.tickets, Data(s'.sink), Delivered(s')) && HeadOk(s')
    requires forall k :: 0 <= k < |s'.records| ==>
               (k < |s.records| && s'.records[k] == s.records[k]) || RecordOk(s'.ring.tickets, s'.records[k])
    ensures Inv(s')
  {
    forall u | u in s'.threads
      ensures ThreadOk(s'.ring, s'.lock == Some(u), u, s'.threads[u])
    {
      if u != t {
        assert ThreadOk(s.ring, s.lock == Some(u), u, s.threads[u]);
        if IsWriter(s.threads[u]) { OtherWriter(s.ring, s'.ring, t, s.lock == Some(t), u, s.threads[u]); }
        if IsFlusher(s.threads[u]) { OtherFlusher(s.ring, s'.ring, t, s.threads[u]); }
      }
    }
    forall k | 0 <= k < |s'.records| ensures RecordOk(s'.ring.tickets, s'.records[k]) {
      if k < |s.records| && s'.records[k] == s.records[k] {
        OtherRecord(s.ring.tickets, s'.ring.tickets, t, s.records[k]);
      }
    }
  }

  // ---------------------------------------------------------------- the operations on the ring

  lemma PublishKeeps(r: Ring, t: nat, w: Writer, i: nat)
    requires RingOk(r) && HoldsChunk(r, t, w, i) && w.offset > 0
    ensures w.offset <= |r.slots[At(r, i)].data|
    ensures RingOk(Publish(r, i, w.offset)) && Guarantee(r, Publish(r, i, w.offset), t, false)
  {
    assert SlotOk(r, At(r, i));
    var r' := Publish(r, i, w.offset);
    forall j | 0 <= j < |r'.slots| ensures SlotOk(r', j) { assert SlotOk(r, j); }
  }

  lemma StoreKeeps(r: Ring, t: nat, w: Writer, i: nat, bytes: seq<Byte>)
    requires RingOk(r) && HoldsChunk(r, t, w, i) && w.offset + |bytes| <= MAX_LOG_CHUNK_SIZE
    ensures |r.slots[At(r, i)].data| == MAX_LOG_CHUNK_SIZE
    ensures RingOk(Store(r, i, w.offset, bytes)) && Guarantee(r, Store(r, i, w.offset, bytes), t, false)
  {
    assert SlotOk(r, At(r, i));
    var r' := Store(r, i, w.offset, bytes);
    forall j | 0 <= j < |r'.slots| ensures SlotOk(r', j) { assert SlotOk(r, j); }
  }

  lemma TakeKeeps(r: Ring, t: nat)
    requires RingOk(r)
    ensures RingOk(TakeTicket(r, t)) && Guarantee(r, TakeTicket(r, t), t, false)
  {
    var r' := TakeTicket(r, t);
    forall j | 0 <= j < |r'.slots| ensures SlotOk(r', j) { assert SlotOk(r, j); }
  }

  lemma DropKeeps(r: Ring, t: nat, i: nat)
    requires RingOk(r) && i < |r.tickets| && r.tickets[i] == Taken(t)
    ensures RingOk(DropTicket(r, i)) && Guarantee(r, DropTicket(r, i), t, false)
  {
    var r' := DropTicket(r, i);
    forall j | 0 <= j < |r'.slots| ensures SlotOk(r', j) { assert SlotOk(r, j); }
  }

  /** A ticket that passed the distance check finds its chunk empty. */
  lemma ClaimedSlotIsEmpty(r: Ring, t: nat, i: nat)
    requires RingOk(r) && i < |r.tickets| && r.tickets[i] == Taken(t) && i < r.readIndex + |r.slots|
    ensures r.readIndex <= i
    ensures r.slots[At(r, i)].word == STATUS_EMPTY && r.slots[At(r, i)].owner.None?
  {
    var j := At(r, i);
    assert SlotOk(r, j);
    if r.slots[j].owner.Some? {
      CongruentInWindow(r.slots[j].owner.value, i, r.readIndex, |r.slots|);
    }
  }

  lemma ClaimKeeps(r: Ring, t: nat, i: nat)
    requires RingOk(r) && i < |r.tickets| && r.tickets[i] == Taken(t) && i < r.readIndex + |r.slots|
    ensures RingOk(Claim(r, t, i)) && Guarantee(r, Claim(r, t, i), t, false)
  {
    ClaimedSlotIsEmpty(r, t, i);
    var r' := Claim(r, t, i);
    forall j | 0 <= j < |r'.slots| ensures SlotOk(r', j) { assert SlotOk(r, j); }
  }

  lemma MarkEmptyKeeps(r: Ring, t: nat, i: nat)
    requires RingOk(r) && ReadsTicket(r, i)
    ensures RingOk(MarkEmpty(r, i)) && Guarantee(r, MarkEmpty(r, i), t, true)
  {
    var r' := MarkEmpty(r, i);
    forall j | 0 <= j < |r'.slots| ensures SlotOk(r', j) { assert SlotOk(r, j); }
  }

  lemma AdvanceKeeps(r: Ring, t: nat, i: nat)
    requires RingOk(r) && i == r.readIndex && IsFinished(r.tickets, i) && r.slots[At(r, i)].owner != Some(i)
    ensures RingOk(Advance(r)) && Guarantee(r, Advance(r), t, true)
  {
    var r' := Advance(r);
    forall j | 0 <= j < |r'.slots| ensures SlotOk(r', j) { assert SlotOk(r, j); }
  }

  // ---------------------------------------------------------------- the record being written

  lemma {:induction false} ConcatSnoc(tickets: seq<Ticket>, mine: seq<nat>, i: nat)
    requires IsFinished(tickets, i)
    ensures Concat(tickets, mine + [i]) == Concat(tickets, mine) + tickets[i].bytes
  {
    assert (mine + [i])[..|mine|] == mine;
  }

  /** Publishing moves the pending bytes of a record into its last ticket. */
  lemma PublishHistory(r: Ring, t: nat, w: Writer, i: nat)
    requires RingOk(r) && w.chunk == Some(i) && HoldsChunk(r, t, w, i) && HistoryOk(r, w)
    ensures CanFinish(r, w)
    ensures var r' := FinishChunk(r, w);
            && r'.tickets[i] == Finished(Pending(r, w))
            && Increasing(Finish(w).tickets) && AllFull(r'.tickets, w.tickets)
            && (!w.lost ==> w.written == Concat(r'.tickets, Finish(w).tickets) + w.rest)
  {
    assert SlotOk(r, At(r, i));
    var r' := FinishChunk(r, w);
    ConcatFrame(r.tickets, r'.tickets, w.tickets);
    ConcatSnoc(r'.tickets, w.tickets, i);
  }

  lemma StoreHistory(r: Ring, t: nat, w: Writer, i: nat, k: nat)
    requires RingOk(r) && w.chunk == Some(i) && HoldsChunk(r, t, w, i) && HistoryOk(r, w)
    requires 1 <= k <= CopyLimit(w)
    ensures |r.slots[At(r, i)].data| == MAX_LOG_CHUNK_SIZE
    ensures var w' := w.(offset := w.offset + k, rest := w.rest[k..]);
            HistoryOk(Store(r, i, w.offset, w.rest[..k]), w')
  {
    assert SlotOk(r, At(r, i));
    var r' := Store(r, i, w.offset, w.rest[..k]);
    var w' := w.(offset := w.offset + k, rest := w.rest[k..]);
    assert Pending(r', w') == Pending(r, w) + w.rest[..k];
    assert w.rest == w.rest[..k] + w.rest[k..];
  }

  // ---------------------------------------------------------------- steps

  /** The thread's part of the invariant. */
  lemma OwnThread(s: State, t: nat)
    requires Inv(s)
    ensures ThreadOk(s.ring, s.lock == Some(t), t, PcOf(s, t))
  {}

  /** The sink still matches when another ticket's state changes. */
  lemma SinkFrame(a: seq<Ticket>, b: seq<Ticket>, t: nat, data: seq<seq<Byte>>, n: nat)
    requires SinkOk(a, data, n) && TicketsKept(a, b, t)
    ensures SinkOk(b, data, n)
  {}

  /** A writer's step leaves the next ticket to read in its chunk. */
  lemma HeadFrame(s: State, s': State, t: nat)
    requires RingOk(s.ring) && HeadOk(s) && LockOk(s) && !IsFlusher(PcOf(s, t))
    requires RingOk(s'.ring) && Guarantee(s.ring, s'.ring, t, false)
    requires s'.ring.readIndex == s.ring.readIndex && s'.lock == s.lock
    requires forall u :: u != t ==> PcOf(s', u) == PcOf(s, u)
    requires forall i :: 0 <= i < |s'.ring.tickets| && s'.ring.tickets[i].Finished? ==>
               IsFinished(s.ring.tickets, i) || InSlot(s'.ring, i)
    ensures HeadOk(s')
  {}

  /** A writer's step that keeps the ring and the writer right is right. */
  lemma WriterKeepsInv(s: State, s': State, t: nat, pc: Pc)
    requires Inv(s) && !IsFlusher(PcOf(s, t)) && !IsFlusher(pc)
    requires s'.threads == s.threads[t := pc]
    requires s'.lock == s.lock && s'.sink == s.sink
    requires RingOk(s'.ring) && Guarantee(s.ring, s'.ring, t, false)
    requires s'.ring.readIndex == s.ring.readIndex
    requires forall i :: 0 <= i < |s'.ring.tickets| && s'.ring.tickets[i].Finished? ==>
               IsFinished(s.ring.tickets, i) || InSlot(s'.ring, i)
    requires IsWriter(pc) ==> WriterOk(s'.ring, t, pc)
    requires forall k :: 0 <= k < |s'.records| ==>
               (k < |s.records| && s'.records[k] == s.records[k]) || RecordOk(s'.ring.tickets, s'.records[k])
    ensures Inv(s')
  {
    SinkFrame(s.ring.tickets, s'.ring.tickets, t, Data(s.sink), Delivered(s));
    OwnThread(s, t);
    HeadFrame(s, s', t);
    StepKeepsInv(s, s', t, pc);
  }

  lemma LoopOk(r: Ring, t: nat, w: Writer)
    requires RingOk(r) && WriterOk(r, t, Loop(w)) && w.rest != [] && NeedsChunk(w) && CanFinish(r, w)
    ensures RingOk(FinishChunk(r, w)) && Guarantee(r, FinishChunk(r, w), t, false)
    ensures WriterOk(FinishChunk(r, w), t, Acquiring(Finish(w)))
  {
    if w.chunk.Some? {
      PublishKeeps(r, t, w, w.chunk.value);
      DroppedFrame(r.tickets, FinishChunk(r, w).tickets, t);
      PublishHistory(r, t, w, w.chunk.value);
    }
  }

  lemma LoopStep(s: State, t: nat, w: Writer)
    requires Inv(s) && PcOf(s, t) == Loop(w) && CanContinue(s.ring, Loop(w))
    ensures Inv(WriterStep(s, t, Loop(w)))
  {
    OwnThread(s, t);
    LoopOk(s.ring, t, w);
    WriterKeepsInv(s, WriterStep(s, t, Loop(w)), t, Acquiring(Finish(w)));
  }

  lemma AcquiringStep(s: State, t: nat, w: Writer)
    requires Inv(s) && PcOf(s, t) == Acquiring(w)
    ensures Inv(WriterStep(s, t, Acquiring(w)))
  {
    OwnThread(s, t);
    TakeKeeps(s.ring, t);
    ConcatFrame(s.ring.tickets, TakeTicket(s.ring, t).tickets, w.tickets);
    DroppedFrame(s.ring.tickets, TakeTicket(s.ring, t).tickets, t);
    WriterKeepsInv(s, WriterStep(s, t, Acquiring(w)), t, Checking(w, s.ring.writeIndex));
  }

  lemma CheckingStep(s: State, t: nat, w: Writer, i: nat)
    requires Inv(s) && PcOf(s, t) == Checking(w, i)
    ensures CanContinue(s.ring, Checking(w, i)) && Inv(WriterStep(s, t, Checking(w, i)))
  {
    OwnThread(s, t);
    var s' := WriterStep(s, t, Checking(w, i));
    if i - s.ring.readIndex >= |s.ring.slots| {
      DropKeeps(s.ring, t, i);
      ConcatFrame(s.ring.tickets, s'.ring.tickets, w.tickets);
      assert s'.ring.tickets[i].Dropped?;
      WriterKeepsInv(s, s', t, Overflowed(w));
    } else {
      WriterKeepsInv(s, s', t, Claiming(w, i));
    }
  }

  lemma ClaimingStep(s: State, t: nat, w: Writer, i: nat)
    requires Inv(s) && PcOf(s, t) == Claiming(w, i)
    ensures CanContinue(s.ring, Claiming(w, i)) && Inv(WriterStep(s, t, Claiming(w, i)))
  {
    OwnThread(s, t);
    ClaimedSlotIsEmpty(s.ring, t, i);
    ClaimKeeps(s.ring, t, i);
    var s' := WriterStep(s, t, Claiming(w, i));
    ConcatFrame(s.ring.tickets, s'.ring.tickets, w.tickets);
    DroppedFrame(s.ring.tickets, s'.ring.tickets, t);
    assert Pending(s'.ring, w.(chunk := Some(i), offset := 0)) == [];
    WriterKeepsInv(s, s', t, Loop(w.(chunk := Some(i), offset := 0)));
  }

  lemma OverflowedStep(s: State, t: nat, w: Writer)
    requires Inv(s) && PcOf(s, t) == Overflowed(w)
    ensures Inv(WriterStep(s, t, Overflowed(w)))
  {
    OwnThread(s, t);
    WriterKeepsInv(s, WriterStep(s, t, Overflowed(w)), t, Discarding(w));
  }

  lemma DiscardingStep(s: State, t: nat, w: Writer)
    requires Inv(s) && PcOf(s, t) == Discarding(w)
    ensures Inv(WriterStep(s, t, Discarding(w)))
  {
    OwnThread(s, t);
    WriterKeepsInv(s, WriterStep(s, t, Discarding(w)), t, Loop(w.(rest := [], lost := true)));
  }

  lemma BeginStep(s: State, a: Action)
    requires Inv(s) && Enabled(s, a) && (a.BeginRecord? || a.BeginStr?)
    ensures Inv(Apply(s, a))
  {
    OwnThread(s, a.t);
    var s' := Apply(s, a);
    WriterKeepsInv(s, s', a.t, s'.threads[a.t]);
  }

  lemma CopyStep(s: State, t: nat, k: nat)
    requires Inv(s) && Enabled(s, Copy(t, k))
    ensures Inv(Apply(s, Copy(t, k)))
  {
    OwnThread(s, t);
    var w := PcOf(s, t).w;
    StoreKeeps(s.ring, t, w, w.chunk.value, w.rest[..k]);
    StoreHistory(s.ring, t, w, w.chunk.value, k);
    var s' := Apply(s, Copy(t, k));
    WriterKeepsInv(s, s', t, s'.threads[t]);
  }

  lemma EndRecordOk(r: Ring, t: nat, w: Writer)
    requires RingOk(r) && WriterOk(r, t, Loop(w)) && w.rest == [] && CanFinish(r, w)
    ensures RingOk(FinishChunk(r, w)) && Guarantee(r, FinishChunk(r, w), t, false)
    ensures RecordOk(FinishChunk(r, w).tickets, Record(w.written, Finish(w).tickets, w.lost))
  {
    if w.chunk.Some? {
      PublishKeeps(r, t, w, w.chunk.value);
      DroppedFrame(r.tickets, FinishChunk(r, w).tickets, t);
      PublishHistory(r, t, w, w.chunk.value);
      assert Finish(w).tickets[..|w.tickets|] == w.tickets;
    }
  }

  lemma EndRecordStep(s: State, t: nat)
    requires Inv(s) && Enabled(s, EndRecord(t))
    ensures Inv(Apply(s, EndRecord(t)))
  {
    OwnThread(s, t);
    EndRecordOk(s.ring, t, PcOf(s, t).w);
    WriterKeepsInv(s, Apply(s, EndRecord(t)), t, TryLocking);
  }

  lemma LockStep(s: State, t: nat, left: nat)
    requires Inv(s) && s.lock.None?
    ensures Inv(Goto(s, t, FlushStart(left)).(lock := Some(t)))
  {
    StepKeepsInv(s, Goto(s, t, FlushStart(left)).(lock := Some(t)), t, FlushStart(left));
  }

  lemma UnlockStep(s: State, t: nat)
    requires Inv(s) && s.lock == Some(t) && !PcOf(s, t).FlushAccepted? && !PcOf(s, t).FlushEmptied?
    ensures Inv(Unlock(s, t))
  {
    StepKeepsInv(s, Unlock(s, t), t, Idle);
  }

  /** A flusher's step that leaves the ring and the data in the sink alone. */
  lemma FlusherMoves(s: State, s': State, t: nat, pc: Pc)
    requires Inv(s) && s.lock == Some(t) == s'.lock && s'.ring == s.ring && s'.records == s.records
    requires s'.threads == s.threads[t := pc] && IsFlusher(pc) && FlusherOk(s.ring, pc)
    requires Data(s'.sink) == Data(s.sink) && Delivered(s') == Delivered(s)
    ensures Inv(s')
  {
    StepKeepsInv(s, s', t, pc);
  }

  lemma {:induction false} DataSnoc(sink: seq<Accepted>, x: Accepted)
    ensures Data(sink + [x]) == Data(sink) + (if x.Chunk? then [x.bytes] else [])
  {
    assert (sink + [x])[..|sink|] == sink;
  }

  lemma FlushHeadStep(s: State, t: nat, pc: Pc)
    requires Inv(s) && PcOf(s, t) == pc && s.lock == Some(t)
    requires pc.FlushStart? || pc.FlushLoop? || pc.FlushLoaded?
    ensures Inv(FlusherStep(s, t, pc))
  {
    OwnThread(s, t);
    DataSnoc(s.sink, Notice);
    var s' := FlusherStep(s, t, pc);
    if s'.lock.None? { UnlockStep(s, t); } else { FlusherMoves(s, s', t, s'.threads[t]); }
  }

  lemma ProbeStep(s: State, t: nat, left: nat, i: nat)
    requires Inv(s) && PcOf(s, t) == FlushProbe(left, i) && s.lock == Some(t)
    ensures Inv(FlusherStep(s, t, FlushProbe(left, i)))
  {
    OwnThread(s, t);
    var j := At(s.ring, i);
    assert SlotOk(s.ring, j);
    if s.ring.slots[j].owner.Some? {
      CongruentInWindow(s.ring.slots[j].owner.value, i, s.ring.readIndex, |s.ring.slots|);
    }
    var s' := FlusherStep(s, t, FlushProbe(left, i));
    if s'.lock.None? { UnlockStep(s, t); } else { FlusherMoves(s, s', t, s'.threads[t]); }
  }

  /** While a chunk is full, the flusher reads the bytes its ticket was finished with. */
  lemma ReadsTicketBytes(r: Ring, i: nat)
    requires RingOk(r) && ReadsTicket(r, i)
    ensures |r.tickets[i].bytes| <= |r.slots[At(r, i)].data|
    ensures r.tickets[i].bytes == r.slots[At(r, i)].data[..|r.tickets[i].bytes|]
  {
    assert SlotOk(r, At(r, i));
  }

  lemma ReadByteStep(s: State, t: nat, pc: Pc)
    requires Inv(s) && PcOf(s, t) == pc && s.lock == Some(t) && pc.FlushReading? && |pc.got| < pc.size
    ensures CanContinue(s.ring, pc) && Inv(FlusherStep(s, t, pc))
  {
    OwnThread(s, t);
    ReadsTicketBytes(s.ring, pc.r);
    var s' := FlusherStep(s, t, pc);
    var b := s.ring.tickets[pc.r].bytes;
    assert b[..|pc.got| + 1] == pc.got + [b[|pc.got|]];
    FlusherMoves(s, s', t, s'.threads[t]);
  }

  lemma AcceptStep(s: State, t: nat, pc: Pc)
    requires Inv(s) && PcOf(s, t) == pc && s.lock == Some(t) && pc.FlushReading? && |pc.got| >= pc.size
    ensures Inv(FlusherStep(s, t, pc))
  {
    OwnThread(s, t);
    DataSnoc(s.sink, Chunk(pc.got));
    StepKeepsInv(s, FlusherStep(s, t, pc), t, FlushAccepted(pc.left, pc.r));
  }

  lemma AcceptedStep(s: State, t: nat, pc: Pc)
    requires Inv(s) && PcOf(s, t) == pc && s.lock == Some(t) && pc.FlushAccepted?
    ensures Inv(FlusherStep(s, t, pc))
  {
    OwnThread(s, t);
    MarkEmptyKeeps(s.ring, t, pc.r);
    StepKeepsInv(s, FlusherStep(s, t, pc), t, FlushEmptied(pc.left, pc.r));
  }

  lemma EmptiedStep(s: State, t: nat, pc: Pc)
    requires Inv(s) && PcOf(s, t) == pc && s.lock == Some(t) && pc.FlushEmptied?
    ensures CanContinue(s.ring, pc) && Inv(FlusherStep(s, t, pc))
  {
    OwnThread(s, t);
    AdvanceKeeps(s.ring, t, pc.r);
    StepKeepsInv(s, FlusherStep(s, t, pc), t, FlushLoop(pc.left - 1));
  }

  lemma TryLockStep(s: State, t: nat)
    requires Inv(s) && PcOf(s, t).TryLocking?
    ensures Inv(FlusherStep(s, t, TryLocking))
  {
    OwnThread(s, t);
    if s.lock.None? { LockStep(s, t, |s.ring.slots| / 3); }
    else { WriterKeepsInv(s, FlusherStep(s, t, TryLocking), t, Idle); }
  }

  /** Every step of every thread keeps the invariant. */
  lemma StepInv(s: State, a: Action)
    requires Inv(s) && Enabled(s, a)
    ensures Inv(Apply(s, a))
  {
    OwnThread(s, a.t);
    hide ThreadsOk, RingOk, LockOk, SinkOk, RecordsOk, WriterOk, FlusherOk;
    match a
    case BeginRecord(_) => BeginStep(s, a);
    case BeginStr(_, _) => BeginStep(s, a);
    case Copy(t, k) => CopyStep(s, t, k);
    case EndRecord(t) => EndRecordStep(s, t);
    case BeginFlush(t) => LockStep(s, t, |s.ring.slots|);
    case Continue(t) =>
      var pc := PcOf(s, t);
      match pc {
        case Loop(w) => LoopStep(s, t, w);
        case Acquiring(w) => AcquiringStep(s, t, w);
        case Checking(w, i) => CheckingStep(s, t, w, i);
        case Claiming(w, i) => ClaimingStep(s, t, w, i);
        case Overflowed(w) => OverflowedStep(s, t, w);
        case Discarding(w) => DiscardingStep(s, t, w);
        case TryLocking => TryLockStep(s, t);
        case FlushProbe(left, i) => ProbeStep(s, t, left, i);
        case FlushReading(_, _, _, _) =>
          if |pc.got| < pc.size { ReadByteStep(s, t, pc); } else { AcceptStep(s, t, pc); }
        case FlushAccepted(_, _) => AcceptedStep(s, t, pc);
        case FlushEmptied(_, _) => EmptiedStep(s, t, pc);
        case _ => FlushHeadStep(s, t, pc);
      }
  }

  /** No slice bound and no other panic stops a thread: every thread that is not idle can step. */
  lemma ThreadCanStep(s: State, t: nat)
    requires Inv(s) && !PcOf(s, t).Idle?
    ensures var pc := PcOf(s, t);
            if !pc.Loop? then Enabled(s, Continue(t))
            else if pc.w.rest == [] then Enabled(s, EndRecord(t))
            else if NeedsChunk(pc.w) then Enabled(s, Continue(t))
            else CopyLimit(pc.w) >= 1 && forall k :: 1 <= k <= CopyLimit(pc.w) ==> Enabled(s, Copy(t, k))
  {
    OwnThread(s, t);
    var pc := PcOf(s, t);
    if pc.Loop? && pc.w.chunk.Some? {
      assert SlotOk(s.ring, At(s.ring, pc.w.chunk.value));
    } else if pc.FlushReading? {
      ReadsTicketBytes(s.ring, pc.r);
    }
  }

  /** The compare-exchange after a passed distance check always succeeds. */
  lemma ClaimSucceeds(s: State, t: nat, w: Writer, i: nat)
    requires Inv(s) && PcOf(s, t) == Claiming(w, i)
    ensures s.ring.slots[At(s.ring, i)].word == STATUS_EMPTY
    ensures Enabled(s, Continue(t))
    ensures PcOf(Apply(s, Continue(t)), t) == Loop(w.(chunk := Some(i), offset := 0))
  {
    OwnThread(s, t);
    ClaimedSlotIsEmpty(s.ring, t, i);
  }

  lemma InitInv(n: nat)
    requires n > 0
    ensures Inv(Init(n))
  {}

  /** Every interleaving of any number of threads keeps the invariant. */
  lemma {:induction false} RunInv(s: State, acts: seq<Action>, s': State)
    requires Inv(s) && Runs(s, acts, s')
    ensures Inv(s')
    decreases |acts|
  {
    if acts != [] {
      StepInv(s, acts[0]);
      RunInv(Apply(s, acts[0]), acts[1..], s');
    }
  }

  /** `s'` is reached from `s` by some interleaving. */
  ghost predicate Follows(s: State, s': State) { exists acts :: Runs(s, acts, s') }

  lemma {:induction false} RunsAppend(s: State, a: seq<Action>, s1: State, b: seq<Action>, s2: State)
    requires Runs(s, a, s1) && Runs(s1, b, s2)
    ensures Runs(s, a + b, s2)
    decreases |a|
  {
    if a == [] {
      assert a + b == b;
    } else {
      RunsAppend(Apply(s, a[0]), a[1..], s1, b, s2);
      assert (a + b)[1..] == a[1..] + b;
    }
  }

  lemma FollowsTrans(s: State, s1: State, s2: State)
    requires Follows(s, s1) && Follows(s1, s2)
    ensures Follows(s, s2)
  {
    var a :| Runs(s, a, s1);
    var b :| Runs(s1, b, s2);
    RunsAppend(s, a, s1, b, s2);
  }

  lemma FollowsOne(s: State, a: Action)
    requires Enabled(s, a)
    ensures Follows(s, Apply(s, a))
  {
    assert Runs(s, [a], Apply(s, a));
  }
}
