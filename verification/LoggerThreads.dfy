/**
 The loops of kernel_core/src/logger.rs as methods, each run by one thread while other threads take
 steps of the log ring between any two of its atomic operations.
 */
module LoggerThreads {
  import opened Common
  import opened Logger
  import opened LoggerInvariant
  import opened LoggerTheorems

  /** A step of another thread leaves the lock holder's share of the state alone. */
  lemma OtherStep(s: State, a: Action, t: nat)
    requires Inv(s) && Enabled(s, a) && a.t != t
    ensures PcOf(Apply(s, a), t) == PcOf(s, t)
    ensures s.lock == Some(t) ==>
              && Apply(s, a).lock == Some(t) && Apply(s, a).sink == s.sink
              && Apply(s, a).ring.readIndex == s.ring.readIndex
  {
    OwnThread(s, a.t);
    hide RingOk, LockOk, SinkOk, RecordsOk, HeadOk, ThreadsOk, WriterOk, FlusherOk;
  }

  /** Where a thread that is acquiring a chunk goes next. */
  lemma AcquiringNext(s: State, t: nat)
    requires Enabled(s, Continue(t))
    ensures var pc, pc' := PcOf(s, t), PcOf(Apply(s, Continue(t)), t);
            && (pc.Acquiring? ==> pc'.Checking? && pc'.w == pc.w)
            && (pc.Checking? ==> (pc'.Claiming? || pc'.Overflowed?) && pc'.w == pc.w)
            && (pc.Overflowed? ==> pc' == Discarding(pc.w))
            && (pc.Discarding? ==> pc' == Loop(pc.w.(rest := [], lost := true)))
            && (pc.Loop? ==> pc' == Acquiring(Finish(pc.w)))
  {}

  lemma CopyNext(s: State, a: Action)
    requires Enabled(s, a) && (a.Copy? || a.BeginStr?)
    ensures var w := PcOf(s, a.t).w;
            PcOf(Apply(s, a), a.t) == if a.Copy? then Loop(w.(offset := w.offset + a.k, rest := w.rest[a.k..]))
                                      else Loop(w.(rest := a.bytes, written := w.written + a.bytes))
  {}

  /** Where a flusher goes next, and what it changes. */
  lemma FlusherNext(s: State, t: nat)
    requires Enabled(s, Continue(t)) && s.lock == Some(t) && IsFlusher(PcOf(s, t))
    ensures var pc, s' := PcOf(s, t), Apply(s, Continue(t));
            var pc' := PcOf(s', t);
            && (if pc'.Idle? then s'.lock.None? else s'.lock == Some(t))
            && s'.ring.tickets == s.ring.tickets
            && s'.ring.readIndex == s.ring.readIndex + (if pc.FlushEmptied? then 1 else 0)
            && match pc
               case FlushStart(left) => pc' == FlushLoop(left)
               case FlushLoop(left) => if left == 0 then pc'.Idle? else pc' == FlushLoaded(left, s.ring.readIndex)
               case FlushLoaded(left, r) => pc'.Idle? || pc' == FlushProbe(left, r)
               case FlushProbe(left, r) =>
                 pc'.Idle? || (pc'.FlushReading? && pc'.left == left && pc'.r == r)
               case FlushReading(left, r, size, got) =>
                 && s'.ring == s.ring
                 && if |got| < size
                    then pc'.FlushReading? && pc' == FlushReading(left, r, size, pc'.got) && |pc'.got| == |got| + 1
                    else pc' == FlushAccepted(left, r)
               case FlushAccepted(left, r) => pc' == FlushEmptied(left, r)
               case FlushEmptied(left, r) => pc' == FlushLoop(left - 1)
  {}

  /** The flusher unlocks at `write_index` or at a chunk that is not full, so at an unpublished ticket. */
  lemma QuietStop(s: State, t: nat)
    requires Inv(s) && (PcOf(s, t).FlushLoaded? || PcOf(s, t).FlushProbe?)
    ensures Enabled(s, Continue(t))
    ensures Apply(s, Continue(t)).lock.None? ==> !IsFinished(s.ring.tickets, s.ring.readIndex)
    ensures Apply(s, Continue(t)).ring == s.ring
  {
    OwnThread(s, t);
    assert SlotOk(s.ring, At(s.ring, s.ring.readIndex));
  }

  /** A logger together with what other threads will do next. */
  class SharedLogger {
    var st: State
    var clock: nat
    const schedule: nat -> seq<Action>

    constructor (n: nat, schedule: nat -> seq<Action>)
      requires n > 0
      ensures st == Init(n) && Inv(st) && this.schedule == schedule
    {
      st := Init(n);
      clock := 0;
      this.schedule := schedule;
      InitInv(n);
    }

    /** No other thread ever runs. */
    ghost predicate Quiet() { forall k :: schedule(k) == [] }

    /** Other threads take the steps of the schedule that they can take. */
    method Interfere(t: nat)
      requires Inv(st)
      modifies this
      ensures Inv(st) && Follows(old(st), st) && PcOf(st, t) == old(PcOf(st, t))
      ensures old(st.lock) == Some(t) ==>
                && st.lock == Some(t) && st.sink == old(st.sink)
                && st.ring.readIndex == old(st.ring.readIndex)
      ensures Quiet() ==> st == old(st)
    {
      var others := schedule(clock);
      clock := clock + 1;
      assert Runs(st, [], st);
      for i := 0 to |others|
        invariant Inv(st) && Follows(old(st), st) && PcOf(st, t) == old(PcOf(st, t))
        invariant old(st.lock) == Some(t) ==>
                    && st.lock == Some(t) && st.sink == old(st.sink)
                    && st.ring.readIndex == old(st.ring.readIndex)
        invariant others == [] ==> st == old(st)
      {
        if others[i].t != t && Enabled(st, others[i]) {
          FollowsOne(st, others[i]);
          FollowsTrans(old(st), st, Apply(st, others[i]));
          OtherStep(st, others[i], t);
          StepInv(st, others[i]);
          st := Apply(st, others[i]);
        }
      }
    }

    /** A thread takes one step; then, unless it is back at its caller, other threads may run. */
    method Do(a: Action)
      requires Inv(st) && Enabled(st, a)
      modifies this
      ensures Inv(st) && Follows(old(st), st)
      ensures PcOf(st, a.t) == PcOf(Apply(old(st), a), a.t)
      ensures Apply(old(st), a).lock == Some(a.t) ==>
                && st.lock == Some(a.t) && st.sink == Apply(old(st), a).sink
                && st.ring.readIndex == Apply(old(st), a).ring.readIndex
      ensures Quiet() || PcOf(st, a.t).Idle? ==> st == Apply(old(st), a)
    {
      hide Inv, Apply, Enabled, Runs;
      StepInv(st, a);
      FollowsOne(st, a);
      st := Apply(st, a);
      ghost var mid := st;
      if !PcOf(st, a.t).Idle? {
        Interfere(a.t);
        FollowsTrans(old(st), mid, st);
      }
    }

    /** The next step of thread `t` outside the two loops over bytes and strings. */
    method Next(t: nat)
      requires Inv(st) && !PcOf(st, t).Idle? && !PcOf(st, t).Loop?
      modifies this
      ensures old(Enabled(st, Continue(t)))
      ensures Inv(st) && Follows(old(st), st)
      ensures PcOf(st, t) == PcOf(Apply(old(st), Continue(t)), t)
      ensures Apply(old(st), Continue(t)).lock == Some(t) ==>
                && st.lock == Some(t) && st.sink == Apply(old(st), Continue(t)).sink
                && st.ring.readIndex == Apply(old(st), Continue(t)).ring.readIndex
      ensures Quiet() || PcOf(st, t).Idle? ==> st == Apply(old(st), Continue(t))
    {
      hide *;
      ThreadCanStep(st, t);
      Do(Continue(t));
    }

    /** `acquire_new_chunk`, and the discarding of the string when it fails. */
    method AcquireNewChunk(t: nat) returns (ok: bool)
      requires Inv(st) && PcOf(st, t).Acquiring?
      modifies this
      ensures Inv(st) && Follows(old(st), st) && PcOf(st, t).Loop?
      ensures var w, w' := old(PcOf(st, t)).w, PcOf(st, t).w;
              if ok then w' == w.(chunk := w'.chunk, offset := 0) && w'.chunk.Some?
              else w' == w.(rest := [], lost := true)
    {
      hide Inv, Apply, Enabled, Runs, Follows;
      Next(t);
      AcquiringNext(old(st), t);
      ghost var s1 := st;
      Next(t);
      AcquiringNext(s1, t);
      FollowsTrans(old(st), s1, st);
      ghost var s2 := st;
      ok := PcOf(st, t).Claiming?;
      if ok {
        ClaimSucceeds(st, t, PcOf(st, t).w, PcOf(st, t).ticket);
      } else {
        Next(t);
        AcquiringNext(s2, t);
        FollowsTrans(old(st), s2, st);
        s2 := st;
      }
      Next(t);
      AcquiringNext(s2, t);
      FollowsTrans(old(st), s2, st);
    }

    /** The branch of `write_str` that finishes a full chunk and acquires the next one. */
    method NextChunk(t: nat) returns (ok: bool)
      requires Inv(st) && PcOf(st, t).Loop? && PcOf(st, t).w.rest != [] && NeedsChunk(PcOf(st, t).w)
      modifies this
      ensures Inv(st) && Follows(old(st), st) && PcOf(st, t).Loop?
      ensures PcOf(st, t).w.written == old(PcOf(st, t)).w.written
      ensures if ok then PcOf(st, t).w.rest == old(PcOf(st, t)).w.rest && !NeedsChunk(PcOf(st, t).w)
              else PcOf(st, t).w.rest == []
    {
      hide Inv, Apply, Enabled, Runs, Follows;
      ThreadCanStep(st, t);
      AcquiringNext(st, t);
      Do(Continue(t));
      ghost var s0 := st;
      ok := AcquireNewChunk(t);
      FollowsTrans(old(st), s0, st);
    }

    /** The copy at the end of an iteration of `write_str`. */
    method CopyIntoChunk(t: nat)
      requires Inv(st) && PcOf(st, t).Loop? && PcOf(st, t).w.rest != [] && !NeedsChunk(PcOf(st, t).w)
      modifies this
      ensures Inv(st) && Follows(old(st), st) && PcOf(st, t).Loop?
      ensures PcOf(st, t).w.written == old(PcOf(st, t)).w.written
      ensures |PcOf(st, t).w.rest| < |old(PcOf(st, t)).w.rest|
    {
      hide Inv, Apply, Enabled, Runs, Follows;
      ThreadCanStep(st, t);
      var k := CopyLimit(PcOf(st, t).w);
      CopyNext(st, Copy(t, k));
      Do(Copy(t, k));
    }

    /**
     `write_str`: the whole string is copied into chunks, or its rest is discarded. Under any
     interference it ends, leaving the writer between two strings.
     */
    method WriteStr(t: nat, bytes: seq<Byte>)
      requires Inv(st) && PcOf(st, t).Loop? && PcOf(st, t).w.rest == []
      modifies this
      ensures Inv(st) && Follows(old(st), st)
      ensures PcOf(st, t).Loop? && PcOf(st, t).w.rest == []
      ensures PcOf(st, t).w.written == old(PcOf(st, t)).w.written + bytes
    {
      assert Enabled(st, BeginStr(t, bytes));
      CopyNext(st, BeginStr(t, bytes));
      hide Inv, Apply, Enabled, Runs, Follows;
      Do(BeginStr(t, bytes));
      ghost var written := PcOf(st, t).w.written;
      while PcOf(st, t).w.rest != []
        invariant Inv(st) && Follows(old(st), st) && PcOf(st, t).Loop?
        invariant PcOf(st, t).w.written == written
        decreases |PcOf(st, t).w.rest|
      {
        ghost var s0 := st;
        if NeedsChunk(PcOf(st, t).w) {
          var ok := NextChunk(t);
          FollowsTrans(old(st), s0, st);
          if !ok { return; }
          s0 := st;
        }
        CopyIntoChunk(t);
        FollowsTrans(old(st), s0, st);
      }
    }

    /** The part of `try_read` that hands the chunk of ticket `r` to the sink, byte by byte. */
    method Accept(t: nat)
      requires Inv(st) && PcOf(st, t).FlushReading? && st.lock == Some(t)
      modifies this
      ensures Inv(st) && Follows(old(st), st) && st.lock == Some(t)
      ensures PcOf(st, t) == FlushAccepted(old(PcOf(st, t)).left, old(PcOf(st, t)).r)
      ensures st.ring.readIndex == old(st.ring.readIndex)
      ensures Quiet() ==> st.ring == old(st.ring)
    {
      ghost var left, r, size := PcOf(st, t).left, PcOf(st, t).r, PcOf(st, t).size;
      assert |PcOf(st, t).got| <= size by { OwnThread(st, t); }
      assert Runs(st, [], st);
      hide Inv, Apply, Enabled, Runs;
      while PcOf(st, t).FlushReading?
        invariant Inv(st) && Follows(old(st), st) && st.lock == Some(t)
        invariant st.ring.readIndex == old(st.ring.readIndex)
        invariant || PcOf(st, t) == FlushAccepted(left, r)
                  || (PcOf(st, t).FlushReading? && PcOf(st, t) == FlushReading(left, r, size, PcOf(st, t).got)
                      && |PcOf(st, t).got| <= size)
        invariant Quiet() ==> st.ring == old(st.ring)
        decreases if PcOf(st, t).FlushReading? then size + 1 - |PcOf(st, t).got| else 0
      {
        ghost var s0 := st;
        Next(t);
        FlusherNext(s0, t);
        FollowsTrans(old(st), s0, st);
      }
    }

    /** The rest of `try_read` and the increment of `read_index`. */
    method Deliver(t: nat)
      requires Inv(st) && PcOf(st, t).FlushReading? && st.lock == Some(t)
      modifies this
      ensures Inv(st) && Follows(old(st), st) && st.lock == Some(t)
      ensures PcOf(st, t) == FlushLoop(old(PcOf(st, t)).left - 1)
      ensures st.ring.readIndex == old(st.ring.readIndex) + 1
      ensures Quiet() ==> st.ring.tickets == old(st.ring.tickets)
    {
      hide Inv, Apply, Enabled, Runs, Follows;
      Accept(t);
      ghost var s0 := st;
      Next(t);
      FlusherNext(s0, t);
      FollowsTrans(old(st), s0, st);
      s0 := st;
      Next(t);
      FlusherNext(s0, t);
      FollowsTrans(old(st), s0, st);
    }

    /** One iteration of `flush_internal`: either it ends the loop or one more ticket is delivered. */
    method FlushOne(t: nat) returns (more: bool)
      requires Inv(st) && PcOf(st, t).FlushLoop? && st.lock == Some(t)
      modifies this
      ensures Inv(st) && Follows(old(st), st)
      ensures var left := old(PcOf(st, t)).left;
              if more then left > 0 && PcOf(st, t) == FlushLoop(left - 1) && st.lock == Some(t)
                           && st.ring.readIndex == old(st.ring.readIndex) + 1
              else PcOf(st, t).Idle? && st.lock.None? && st.ring.readIndex == old(st.ring.readIndex)
      ensures Quiet() && !more && old(PcOf(st, t)).left > 0 ==> !IsFinished(st.ring.tickets, st.ring.readIndex)
      ensures Quiet() ==> st.ring.tickets == old(st.ring.tickets)
    {
      hide Inv, Apply, Enabled, Runs, Follows;
      ghost var s0 := st;
      more := false;
      Next(t);
      FlusherNext(s0, t);
      if PcOf(st, t).Idle? { return; }
      s0 := st;
      Next(t);
      FlusherNext(s0, t);
      FollowsTrans(old(st), s0, st);
      QuietStop(s0, t);
      if PcOf(st, t).Idle? { return; }
      s0 := st;
      Next(t);
      FlusherNext(s0, t);
      FollowsTrans(old(st), s0, st);
      QuietStop(s0, t);
      if PcOf(st, t).Idle? { return; }
      s0 := st;
      Deliver(t);
      FollowsTrans(old(st), s0, st);
      more := true;
    }

    /**
     `flush_internal`: at most `left` tickets are delivered, and without interference the flush stops
     early only at a ticket that is not published.
     */
    method FlushInternal(t: nat) returns (delivered: nat)
      requires Inv(st) && PcOf(st, t).FlushStart? && st.lock == Some(t)
      modifies this
      ensures Inv(st) && Follows(old(st), st) && PcOf(st, t).Idle? && st.lock.None?
      ensures delivered <= old(PcOf(st, t)).left
      ensures st.ring.readIndex == old(st.ring.readIndex) + delivered
      ensures Quiet() && delivered < old(PcOf(st, t)).left ==> !IsFinished(st.ring.tickets, st.ring.readIndex)
      ensures Quiet() ==> st.ring.tickets == old(st.ring.tickets)
    {
      hide Inv, Apply, Enabled, Runs, Follows;
      ghost var limit := PcOf(st, t).left;
      Next(t);
      FlusherNext(old(st), t);
      delivered := 0;
      var more := true;
      while more
        invariant Inv(st) && Follows(old(st), st)
        invariant st.ring.readIndex == old(st.ring.readIndex) + delivered && delivered <= limit
        invariant if more then PcOf(st, t) == FlushLoop(limit - delivered) && st.lock == Some(t)
                  else PcOf(st, t).Idle? && st.lock.None?
        invariant Quiet() && !more && delivered < limit ==> !IsFinished(st.ring.tickets, st.ring.readIndex)
        invariant Quiet() ==> st.ring.tickets == old(st.ring.tickets)
        decreases limit - delivered, more
      {
        ghost var s0 := st;
        more := FlushOne(t);
        FollowsTrans(old(st), s0, st);
        if more { delivered := delivered + 1; }
      }
    }

    /**
     `flush`, when no thread is at work: it reads up to the first ticket that was dropped, and so everything if and
     only if none was.
     */
    method Flush(t: nat, ghost n: nat) returns (delivered: nat)
      requires Reachable(n, st) && AllIdle(st) && Quiet()
      modifies this
      ensures Inv(st) && st.ring.tickets == old(st.ring.tickets) && st.ring.writeIndex == |st.ring.tickets|
      ensures st.ring.readIndex == old(st.ring.readIndex) + delivered
      ensures forall i :: 0 <= i < st.ring.readIndex ==> st.ring.tickets[i].Finished?
      ensures st.ring.readIndex < st.ring.writeIndex ==> st.ring.tickets[st.ring.readIndex].Dropped?
      ensures st.ring.readIndex == st.ring.writeIndex <==> !HasDropped(st.ring.tickets)
    {
      FlushLimit(n, st, t);
      hide Apply, Enabled, Runs, Follows, Inv;
      Do(BeginFlush(t));
      delivered := FlushInternal(t);
      Flushed(old(st), st, n, delivered);
    }
  }

  lemma FlushLimit(n: nat, s: State, t: nat)
    requires Reachable(n, s) && AllIdle(s)
    ensures Inv(s) && |s.ring.slots| == n && Enabled(s, BeginFlush(t)) && PcOf(s, t).Idle?
    ensures var s' := Apply(s, BeginFlush(t)); PcOf(s', t) == FlushStart(n) && s'.lock == Some(t) && s'.ring == s.ring
  {
    ReachableInv(n, s);
    NobodyFlushes(s);
  }

  /** At most as many tickets as there are chunks wait to be read before the first that was dropped. */
  lemma Flushed(s: State, s': State, n: nat, delivered: nat)
    requires Reachable(n, s) && AllIdle(s) && Inv(s') && s'.ring.tickets == s.ring.tickets
    requires delivered <= n && s'.ring.readIndex == s.ring.readIndex + delivered
    requires delivered < n ==> !IsFinished(s'.ring.tickets, s'.ring.readIndex)
    ensures s'.ring.writeIndex == |s'.ring.tickets|
    ensures forall i :: 0 <= i < s'.ring.readIndex ==> s'.ring.tickets[i].Finished?
    ensures s'.ring.readIndex < s'.ring.writeIndex ==> s'.ring.tickets[s'.ring.readIndex].Dropped?
    ensures s'.ring.readIndex == s'.ring.writeIndex <==> !HasDropped(s'.ring.tickets)
  {
    hide Apply, Enabled, Runs, Follows, LockOk, SinkOk, RecordsOk, ThreadsOk;
    ReachableInv(n, s);
    var i := s'.ring.readIndex;
    if i < s'.ring.writeIndex {
      IdleTickets(n, s, i);
      if s.ring.tickets[i].Finished? { InReach(s, i); }
    }
  }

  lemma InReach(s: State, i: nat)
    requires Inv(s) && i < |s.ring.tickets| && s.ring.tickets[i].Finished?
    ensures i < s.ring.readIndex + |s.ring.slots|
  {
    hide LockOk, SinkOk, RecordsOk, ThreadsOk;
    if s.ring.readIndex < i { assert SlotOk(s.ring, At(s.ring, i)); }
  }
}
