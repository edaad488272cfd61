/** The round-robin scheduler of kernel_core/src/process/thread/scheduler.rs. */
module Scheduler {
  import opened Common

  /** One processor: the queue, head first, and the current thread. */
  datatype Cpu<T> = Cpu(queue: seq<T>, current: T)

  /** The position of the first thread that can run, or the end of the queue. */
  function FirstRunning<T>(queue: seq<T>, running: T -> bool): (k: nat)
    ensures k <= |queue| && (k < |queue| ==> running(queue[k])) && forall i :: 0 <= i < k ==> !running(queue[i])
  {
    if queue == [] || running(queue[0]) then 0 else
      assert forall i :: 0 < i < |queue| ==> queue[i] == queue[1..][i - 1];
      FirstRunning(queue[1..], running) + 1
  }

  /** A time slice: the first thread that can run takes over, those before it and the last current one queue up. */
  function Slice<T>(c: Cpu<T>, running: T -> bool): Cpu<T> {
    var k := FirstRunning(c.queue, running);
    if k == |c.queue| then c
    else Cpu(c.queue[k + 1..] + c.queue[..k] + [c.current], c.queue[k])
  }

  class RoundRobin<Id(==), T> {
    var queues: map<Id, seq<T>>
    var currentThreads: map<Id, T>

    ghost predicate Valid()
      reads this
    {
      queues.Keys == currentThreads.Keys
    }

    ghost function CpuOf(id: Id): Cpu<T>
      requires Valid() && id in queues
      reads this
    {
      Cpu(queues[id], currentThreads[id])
    }

    /** `new`: each processor with its idle thread. */
    constructor (cpus: seq<(Id, T)>)
      ensures Valid() && forall id :: id in queues <==> exists i :: 0 <= i < |cpus| && cpus[i].0 == id
      ensures forall id :: id in queues ==> queues[id] == []
      ensures forall i :: 0 <= i < |cpus| && (forall j :: i < j < |cpus| ==> cpus[j].0 != cpus[i].0) ==>
                cpus[i].0 in currentThreads && currentThreads[cpus[i].0] == cpus[i].1
    {
      queues, currentThreads := map[], map[];
      new;
      for n := 0 to |cpus|
        invariant Valid() && forall id :: id in queues <==> exists i :: 0 <= i < n && cpus[i].0 == id
        invariant forall id :: id in queues ==> queues[id] == []
        invariant forall i :: 0 <= i < n && (forall j :: i < j < n ==> cpus[j].0 != cpus[i].0) ==>
                    cpus[i].0 in currentThreads && currentThreads[cpus[i].0] == cpus[i].1
      {
        queues := queues[cpus[n].0 := []];
        currentThreads := currentThreads[cpus[n].0 := cpus[n].1];
      }
    }

    /** `current_thread`, on processor `id`. */
    method CurrentThread(id: Id) returns (t: T)
      requires Valid() && id in queues
      ensures t == CpuOf(id).current
    {
      t := currentThreads[id];
    }

    /** `next_time_slice`, on processor `id`, while the states of the threads are `running`. */
    method NextTimeSlice(id: Id, running: T -> bool)
      requires Valid() && id in queues
      modifies this
      ensures Valid() && queues.Keys == old(queues.Keys)
      ensures CpuOf(id) == Slice(old(CpuOf(id)), running)
      ensures (forall i :: 0 <= i < |old(queues[id])| ==> !running(old(queues[id])[i])) ==> CpuOf(id) == old(CpuOf(id))
      ensures forall other :: other in queues && other != id ==> CpuOf(other) == old(CpuOf(other))
    {
      var next: Option<T> := None;
      var queue := queues[id];
      ghost var before := queue;
      ghost var k := FirstRunning(queue, running);
      var i, length := 0, |queue|;
      while i < length && next.None?
        invariant 0 <= i <= length == |before|
        invariant next.None? ==> i <= k && queue == before[i..] + before[..i]
        invariant next.Some? ==> k < length && next.value == before[k] && queue == before[k + 1..] + before[..k]
        decreases length - i, next.None?
      {
        var t := queue[0];
        queue := queue[1..];
        if running(t) {
          next := Some(t);
        } else {
          queue := queue + [t];
          i := i + 1;
        }
      }
      if next.Some? {
        var last := currentThreads[id];
        currentThreads := currentThreads[id := next.value];
        queue := queue + [last];
      }
      queues := queues[id := queue];
    }
  }

  // ---------------------------------------------------------------- what slices keep

  /** No thread is lost or duplicated. */
  lemma SliceKeepsThreads<T>(c: Cpu<T>, running: T -> bool)
    ensures var c' := Slice(c, running);
            multiset(c'.queue) + multiset{c'.current} == multiset(c.queue) + multiset{c.current}
  {
    var k := FirstRunning(c.queue, running);
    if k < |c.queue| {
      assert c.queue == c.queue[..k] + [c.queue[k]] + c.queue[k + 1..];
    }
  }

  /** The queued threads that can run, in order. */
  function Runnable<T>(queue: seq<T>, running: T -> bool): seq<T> {
    if queue == [] then []
    else (if running(queue[0]) then [queue[0]] else []) + Runnable(queue[1..], running)
  }

  function After<T>(c: Cpu<T>, running: T -> bool, n: nat): Cpu<T>
    decreases n
  {
    if n == 0 then c else After(Slice(c, running), running, n - 1)
  }

  lemma {:induction false} RunnableAppend<T>(a: seq<T>, b: seq<T>, running: T -> bool)
    ensures Runnable(a + b, running) == Runnable(a, running) + Runnable(b, running)
    decreases |a|
  {
    if a == [] {
      assert a + b == b;
    } else {
      RunnableAppend(a[1..], b, running);
      var head := if running(a[0]) then [a[0]] else [];
      assert (a + b)[0] == a[0] && (a + b)[1..] == a[1..] + b;
      Associative(head, Runnable(a[1..], running), Runnable(b, running));
    }
  }

  lemma Associative<T>(a: seq<T>, b: seq<T>, c: seq<T>)
    ensures a + (b + c) == a + b + c
  {}

  lemma {:induction false} NoneRunnable<T>(a: seq<T>, running: T -> bool)
    requires forall i :: 0 <= i < |a| ==> !running(a[i])
    ensures Runnable(a, running) == []
    decreases |a|
  {
    if a != [] { NoneRunnable(a[1..], running); }
  }

  /** A slice takes the first runnable thread and appends the last current one. */
  lemma SliceRunnable<T>(c: Cpu<T>, running: T -> bool)
    requires Runnable(c.queue, running) != []
    ensures var c', rs := Slice(c, running), Runnable(c.queue, running);
            c'.current == rs[0] && Runnable(c'.queue, running) == rs[1..] + Runnable([c.current], running)
  {
    var k := FirstRunning(c.queue, running);
    if k == |c.queue| {
      NoneRunnable(c.queue, running);
    } else {
      var front, t, back := c.queue[..k], c.queue[k], c.queue[k + 1..];
      assert c.queue == front + ([t] + back);
      RunnableAppend(front, [t] + back, running);
      RunnableAppend([t], back, running);
      NoneRunnable(front, running);
      RunnableAppend(back + front, [c.current], running);
      RunnableAppend(back, front, running);
      assert Runnable([t], running) == [t] + Runnable([], running);
    }
  }

  /** As long as states do not change, the runnable threads take their turns in queue order. */
  lemma {:induction false} TurnsInOrder<T>(c: Cpu<T>, running: T -> bool, n: nat)
    requires 0 < n <= |Runnable(c.queue, running)|
    ensures After(c, running, n).current == Runnable(c.queue, running)[n - 1]
    decreases n
  {
    SliceRunnable(c, running);
    var c' := Slice(c, running);
    if n > 1 {
      TurnsInOrder(c', running, n - 1);
    } else {
      assert After(c', running, 0) == c';
    }
  }

  /** A runnable thread with `m` runnable threads before it in the queue is current after exactly `m + 1` slices. */
  lemma FairTurn<T>(c: Cpu<T>, running: T -> bool, p: nat, m: nat)
    requires p < |c.queue| && running(c.queue[p]) && |Runnable(c.queue[..p], running)| == m
    ensures After(c, running, m + 1).current == c.queue[p]
    ensures forall n :: 0 < n <= m ==> After(c, running, n).current == Runnable(c.queue[..p], running)[n - 1]
  {
    var front, back := c.queue[..p], c.queue[p + 1..];
    assert c.queue == front + ([c.queue[p]] + back);
    RunnableAppend(front, [c.queue[p]] + back, running);
    RunnableAppend([c.queue[p]], back, running);
    TurnsInOrder(c, running, m + 1);
    forall n | 0 < n <= m ensures After(c, running, n).current == Runnable(front, running)[n - 1] {
      TurnsInOrder(c, running, n);
    }
  }

  /** Over any number of slices no thread is lost. */
  lemma {:induction false} ThreadsKept<T>(c: Cpu<T>, running: T -> bool, n: nat)
    ensures var c' := After(c, running, n);
            multiset(c'.queue) + multiset{c'.current} == multiset(c.queue) + multiset{c.current}
    decreases n
  {
    if n > 0 {
      SliceKeepsThreads(c, running);
      ThreadsKept(Slice(c, running), running, n - 1);
    }
  }

  // ---------------------------------------------------------------- states that change

  /** The slices of a run in which the states of the threads are `runs[0]`, `runs[1]`, ... */
  function AfterAll<T>(c: Cpu<T>, runs: seq<T -> bool>): Cpu<T>
    decreases |runs|
  {
    if runs == [] then c else AfterAll(Slice(c, runs[0]), runs[1..])
  }

  /** However the states of the others change, a thread that can run is current within its position in the queue. */
  lemma {:induction false} FairWait<T>(c: Cpu<T>, runs: seq<T -> bool>, p: nat) returns (n: nat)
    requires p < |c.queue| && |runs| == p + 1 && forall i :: 0 <= i < |runs| ==> runs[i](c.queue[p])
    ensures 0 < n <= p + 1 && AfterAll(c, runs[..n]).current == c.queue[p]
    decreases p
  {
    var k, c' := FirstRunning(c.queue, runs[0]), Slice(c, runs[0]);
    if k == p {
      n := 1;
      assert runs[..1] == [runs[0]] && runs[..1][1..] == [];
    } else {
      var q, rest := p - k - 1, runs[1..p - k + 1];
      assert c'.queue[q] == c.queue[p];
      var m := FairWait(c', rest, q);
      n := m + 1;
      assert runs[..n][1..] == rest[..m];
    }
  }

  /** No thread is lost then either. */
  lemma {:induction false} AllKept<T>(c: Cpu<T>, runs: seq<T -> bool>)
    ensures var c' := AfterAll(c, runs);
            multiset(c'.queue) + multiset{c'.current} == multiset(c.queue) + multiset{c.current}
    decreases |runs|
  {
    if runs != [] {
      SliceKeepsThreads(c, runs[0]);
      AllKept(Slice(c, runs[0]), runs[1..]);
    }
  }
}
