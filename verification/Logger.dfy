/**
 The lock-free log ring of kernel_core/src/logger.rs as a step machine.

 Any number of threads run `Log::log` and `Log::flush`. Every atomic operation is one step, and so is
 every copy of some bytes into a chunk and every read of one byte out of a chunk, so a run is an
 arbitrary interleaving. The fields marked "history" are written but never read by a step.
 */
module Logger {
  import opened Common

  const MAX_LOG_CHUNK_SIZE := 120
  const STATUS_EMPTY := 0
  const STATUS_WRITING := 1
  const STATUS_FULL := 2

  /** `STATUS_FULL | (size << SIZE_SHIFT)`. */
  function FullWord(size: nat): nat { STATUS_FULL + 4 * size }

  /** `status_and_size & STATUS_MASK`. */
  function StatusOf(word: nat): nat { word % 4 }

  /** `(status_and_size & SIZE_MASK) >> SIZE_SHIFT`. */
  function SizeOf(word: nat): nat { word / 4 }

  /** A `LogChunk`; `owner` (history) is the ticket whose data it holds. */
  datatype Slot = Slot(word: nat, data: seq<Byte>, owner: Option<nat>)

  /** What became of a value handed out by `write_index` (history). */
  datatype Ticket =
    | Taken(tid: nat)              // its thread has not claimed a chunk yet
    | Writing(tid: nat)            // its thread is filling the chunk
    | Finished(bytes: seq<Byte>)   // published with this content
    | Dropped                      // its thread gave it up

  /**
   A `RingBufferWriter` and the part of the current string that `write_str` still has to copy.
   History: all bytes handed to `write_str`, the tickets finished, and whether bytes were discarded.
   */
  datatype Writer = Writer(rest: seq<Byte>, chunk: Option<nat>, offset: nat,
                           written: seq<Byte>, tickets: seq<nat>, lost: bool)

  /** Where a thread is. `left` counts the iterations `flush_internal` may still make. */
  datatype Pc =
    | Idle
    | Loop(w: Writer)                       // head of the loop in `write_str`, or between two calls
    | Acquiring(w: Writer)                  // before `write_index.fetch_add`
    | Checking(w: Writer, ticket: nat)      // before `read_index.load`
    | Claiming(w: Writer, ticket: nat)      // before the compare-exchange on the chunk
    | Overflowed(w: Writer)                 // before the `overflow_count` increment of `acquire_new_chunk`
    | Discarding(w: Writer)                 // before the `overflow_count` increment of `write_str`
    | TryLocking                            // before `sink.try_lock`
    | FlushStart(left: nat)                 // before `overflow_count.swap`
    | FlushLoop(left: nat)                  // head of the loop in `flush_internal`
    | FlushLoaded(left: nat, r: nat)        // before `write_index.load`
    | FlushProbe(left: nat, r: nat)         // before the status load of `try_read`
    | FlushReading(left: nat, r: nat, size: nat, got: seq<Byte>)
    | FlushAccepted(left: nat, r: nat)      // before the chunk is marked empty
    | FlushEmptied(left: nat, r: nat)       // before `read_index.fetch_add`

  datatype Accepted = Notice | Chunk(bytes: seq<Byte>)

  /** A record whose writer was dropped (history). */
  datatype Record = Record(bytes: seq<Byte>, tickets: seq<nat>, lost: bool)

  /** The chunks and the two indices; `tickets` (history) has one entry for each ticket handed out. */
  datatype Ring = Ring(slots: seq<Slot>, writeIndex: nat, readIndex: nat, tickets: seq<Ticket>)

  datatype State = State(
    ring: Ring, overflow: nat, lock: Option<nat>, sink: seq<Accepted>,
    threads: map<nat, Pc>, records: seq<Record>)

  function Init(n: nat): State {
    var slots := seq(n, _ => Slot(STATUS_EMPTY, seq(MAX_LOG_CHUNK_SIZE, _ => 0), None));
    State(Ring(slots, 0, 0, []), 0, None, [], map[], [])
  }

  function PcOf(s: State, t: nat): Pc { if t in s.threads then s.threads[t] else Idle }

  function Goto(s: State, t: nat, pc: Pc): State { s.(threads := s.threads[t := pc]) }

  function Unlock(s: State, t: nat): State { Goto(s, t, Idle).(lock := None) }

  datatype Action =
    | BeginRecord(t: nat)
    | BeginStr(t: nat, bytes: seq<Byte>)
    | Copy(t: nat, k: nat)
    | EndRecord(t: nat)
    | BeginFlush(t: nat)
    | Continue(t: nat)

  // ---------------------------------------------------------------- operations on the ring

  /** The chunk that ticket `i` uses. */
  function At(r: Ring, i: nat): nat
    requires |r.slots| > 0
    ensures At(r, i) < |r.slots|
  {
    i % |r.slots|
  }

  /** The writer's held chunk can be published: its slice bounds hold. */
  predicate CanFinish(r: Ring, w: Writer) {
    |r.slots| > 0 &&
    (w.chunk.Some? ==> w.chunk.value < |r.tickets| && w.offset <= |r.slots[At(r, w.chunk.value)].data|)
  }

  /** `ChunkWriteGuard::finish`. */
  function Publish(r: Ring, i: nat, size: nat): Ring
    requires |r.slots| > 0 && i < |r.tickets| && size <= |r.slots[At(r, i)].data|
  {
    var slot := r.slots[At(r, i)];
    r.(slots := r.slots[At(r, i) := slot.(word := FullWord(size))],
       tickets := r.tickets[i := Finished(slot.data[..size])])
  }

  /** `RingBufferWriter::finish_chunk` on the ring, and on the writer. */
  function FinishChunk(r: Ring, w: Writer): Ring
    requires CanFinish(r, w)
  {
    if w.chunk.None? then r else Publish(r, w.chunk.value, w.offset)
  }

  function Finish(w: Writer): Writer {
    if w.chunk.None? then w else w.(chunk := None, tickets := w.tickets + [w.chunk.value])
  }

  /** Copy `bytes` into the chunk of ticket `i` from `offset` on. */
  function Store(r: Ring, i: nat, offset: nat, bytes: seq<Byte>): Ring
    requires |r.slots| > 0 && offset + |bytes| <= |r.slots[At(r, i)].data|
  {
    var slot := r.slots[At(r, i)];
    r.(slots := r.slots[At(r, i) := slot.(data := slot.data[..offset] + bytes + slot.data[offset + |bytes|..])])
  }

  /** `write_index.fetch_add(1)` by thread `t`. */
  function TakeTicket(r: Ring, t: nat): Ring {
    r.(writeIndex := r.writeIndex + 1, tickets := r.tickets + [Taken(t)])
  }

  function DropTicket(r: Ring, i: nat): Ring
    requires i < |r.tickets|
  {
    r.(tickets := r.tickets[i := Dropped])
  }

  /** The successful compare-exchange of `try_acquire_for_write`. */
  function Claim(r: Ring, t: nat, i: nat): Ring
    requires |r.slots| > 0 && i < |r.tickets|
  {
    var slot := r.slots[At(r, i)];
    r.(slots := r.slots[At(r, i) := slot.(word := STATUS_WRITING, owner := Some(i))],
       tickets := r.tickets[i := Writing(t)])
  }

  /** The last store of `try_read`. */
  function MarkEmpty(r: Ring, i: nat): Ring
    requires |r.slots| > 0
  {
    var slot := r.slots[At(r, i)];
    r.(slots := r.slots[At(r, i) := slot.(word := STATUS_EMPTY, owner := None)])
  }

  /** `read_index.fetch_add(1)`. */
  function Advance(r: Ring): Ring { r.(readIndex := r.readIndex + 1) }

  // ---------------------------------------------------------------- the machine

  predicate NeedsChunk(w: Writer) { w.chunk.None? || w.offset >= MAX_LOG_CHUNK_SIZE }

  /** How many bytes this iteration of `write_str` may still copy. */
  function CopyLimit(w: Writer): int {
    var space := MAX_LOG_CHUNK_SIZE - w.offset;
    if space < |w.rest| then space else |w.rest|
  }

  /** The steps a thread can take without panicking. */
  predicate Enabled(s: State, a: Action) {
    var pc := PcOf(s, a.t);
    && |s.ring.slots| > 0
    && match a
       case BeginRecord(_) => pc.Idle?
       case BeginFlush(_) => pc.Idle? && s.lock.None?
       case BeginStr(_, _) => pc.Loop? && pc.w.rest == []
       case EndRecord(_) => pc.Loop? && pc.w.rest == [] && CanFinish(s.ring, pc.w)
       case Copy(_, k) =>
         && pc.Loop? && !NeedsChunk(pc.w) && 1 <= k <= CopyLimit(pc.w)
         && pc.w.offset + k <= |s.ring.slots[At(s.ring, pc.w.chunk.value)].data|
       case Continue(_) => CanContinue(s.ring, pc)
  }

  predicate CanContinue(r: Ring, pc: Pc)
    requires |r.slots| > 0
  {
    match pc
    case Idle => false
    case Loop(w) => w.rest != [] && NeedsChunk(w) && CanFinish(r, w)
    case Checking(_, i) => i < |r.tickets|
    case Claiming(_, i) => i < |r.tickets|
    case FlushReading(_, i, size, got) => |got| < size ==> size <= |r.slots[At(r, i)].data|
    case FlushEmptied(left, _) => left > 0
    case _ => true
  }

  function Apply(s: State, a: Action): State
    requires Enabled(s, a)
  {
    var pc := PcOf(s, a.t);
    match a
    case BeginRecord(t) => Goto(s, t, Loop(Writer([], None, 0, [], [], false)))
    case BeginFlush(t) => Goto(s, t, FlushStart(|s.ring.slots|)).(lock := Some(t))
    case BeginStr(t, bytes) => Goto(s, t, Loop(pc.w.(rest := bytes, written := pc.w.written + bytes)))
    case EndRecord(t) =>
      var w := Finish(pc.w);
      Goto(s, t, TryLocking).(ring := FinishChunk(s.ring, pc.w),
                              records := s.records + [Record(w.written, w.tickets, w.lost)])
    case Copy(t, k) =>
      var w := pc.w;
      Goto(s, t, Loop(w.(offset := w.offset + k, rest := w.rest[k..]))).(
        ring := Store(s.ring, w.chunk.value, w.offset, w.rest[..k]))
    case Continue(t) => if IsWriter(pc) then WriterStep(s, t, pc) else FlusherStep(s, t, pc)
  }

  predicate IsWriter(pc: Pc) {
    pc.Loop? || pc.Acquiring? || pc.Checking? || pc.Claiming? || pc.Overflowed? || pc.Discarding?
  }

  function WriterStep(s: State, t: nat, pc: Pc): State
    requires IsWriter(pc) && |s.ring.slots| > 0 && CanContinue(s.ring, pc)
  {
    var n := |s.ring.slots|;
    match pc
    case Loop(w) => Goto(s, t, Acquiring(Finish(w))).(ring := FinishChunk(s.ring, w))
    case Acquiring(w) => Goto(s, t, Checking(w, s.ring.writeIndex)).(ring := TakeTicket(s.ring, t))
    case Checking(w, i) =>
      if i - s.ring.readIndex >= n
      then Goto(s, t, Overflowed(w)).(ring := DropTicket(s.ring, i))
      else Goto(s, t, Claiming(w, i))
    case Claiming(w, i) =>
      if s.ring.slots[At(s.ring, i)].word == STATUS_EMPTY
      then Goto(s, t, Loop(w.(chunk := Some(i), offset := 0))).(ring := Claim(s.ring, t, i))
      else Goto(s, t, Discarding(w)).(ring := DropTicket(s.ring, i))
    case Overflowed(w) => Goto(s, t, Discarding(w)).(overflow := s.overflow + 1)
    case Discarding(w) => Goto(s, t, Loop(w.(rest := [], lost := true))).(overflow := s.overflow + 1)
  }

  /** The sink takes a chunk's bytes one by one and has accepted it when all were read. */
  function FlusherStep(s: State, t: nat, pc: Pc): State
    requires !IsWriter(pc) && |s.ring.slots| > 0 && CanContinue(s.ring, pc)
  {
    match pc
    case TryLocking =>
      if s.lock.None? then Goto(s, t, FlushStart(|s.ring.slots| / 3)).(lock := Some(t)) else Goto(s, t, Idle)
    case FlushStart(left) =>
      Goto(s, t, FlushLoop(left)).(
        overflow := 0, sink := if s.overflow > 0 then s.sink + [Notice] else s.sink)
    case FlushLoop(left) =>
      if left == 0 then Unlock(s, t) else Goto(s, t, FlushLoaded(left, s.ring.readIndex))
    case FlushLoaded(left, i) =>
      if i == s.ring.writeIndex then Unlock(s, t) else Goto(s, t, FlushProbe(left, i))
    case FlushProbe(left, i) =>
      var word := s.ring.slots[At(s.ring, i)].word;
      if StatusOf(word) == STATUS_FULL
      then Goto(s, t, FlushReading(left, i, SizeOf(word), []))
      else Unlock(s, t)
    case FlushReading(left, i, size, got) =>
      if |got| < size
      then Goto(s, t, FlushReading(left, i, size, got + [s.ring.slots[At(s.ring, i)].data[|got|]]))
      else Goto(s, t, FlushAccepted(left, i)).(sink := s.sink + [Chunk(got)])
    case FlushAccepted(left, i) => Goto(s, t, FlushEmptied(left, i)).(ring := MarkEmpty(s.ring, i))
    case FlushEmptied(left, _) => Goto(s, t, FlushLoop(left - 1)).(ring := Advance(s.ring))
  }

  /** `s'` is reached from `s` by the interleaving `acts`. */
  ghost predicate Runs(s: State, acts: seq<Action>, s': State)
    decreases |acts|
  {
    if acts == [] then s' == s
    else Enabled(s, acts[0]) && Runs(Apply(s, acts[0]), acts[1..], s')
  }
}
