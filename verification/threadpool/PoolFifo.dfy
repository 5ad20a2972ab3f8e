// The ring buffer of the pool is a bounded first-in first-out queue.

module PoolFifo {
  import opened PoolModel
  import opened PoolSafety

  // ---------- The ring as a sequence ----------

  // The tasks in the ring, oldest first.
  function Queue(sh: Shared): seq<Task>
    requires 0 <= sh.size <= |sh.taskQ|
  {
    seq(sh.size, i requires 0 <= i < sh.size => sh.taskQ[(sh.front + i) % |sh.taskQ|])
  }

  ghost predicate RingInv(sh: Shared) {
    && 0 <= sh.size <= |sh.taskQ|
    && (|sh.taskQ| > 0 ==> sh.front < |sh.taskQ| && sh.rear == (sh.front + sh.size) % |sh.taskQ|)
  }

  // Below twice the capacity, the remainder is one subtraction.
  lemma WrapOnce(x: nat, n: nat)
    requires x < 2 * n
    ensures x % n == if x < n then x else x - n
  {
  }

  lemma PutQueue(sh: Shared, task: Task)
    requires RingInv(sh) && sh.size < |sh.taskQ|
    ensures RingInv(Put(sh, task))
    ensures Queue(Put(sh, task)) == Queue(sh) + [task]
  {
    var n, sh' := |sh.taskQ|, Put(sh, task);
    WrapOnce(sh.front + sh.size, n);
    WrapOnce(sh.front + sh.size + 1, n);
    WrapOnce(sh.rear + 1, n);
    assert RingInv(sh');
    forall i | 0 <= i < sh.size + 1 ensures Queue(sh')[i] == (Queue(sh) + [task])[i] {
      WrapOnce(sh.front + i, n);
    }
  }

  lemma TakeQueue(sh: Shared)
    requires RingInv(sh) && sh.size > 0
    ensures RingInv(Take(sh))
    ensures Queue(sh) == [Head(sh)] + Queue(Take(sh))
  {
    var n, sh' := |sh.taskQ|, Take(sh);
    WrapOnce(sh.front, n);
    WrapOnce(sh.front + 1, n);
    WrapOnce(sh.front + sh.size, n);
    WrapOnce(sh'.front + sh'.size, n);
    forall i | 0 <= i < sh.size ensures Queue(sh)[i] == ([Head(sh)] + Queue(sh'))[i] {
      WrapOnce(sh.front + i, n);
      if i > 0 { WrapOnce(sh'.front + (i - 1), n); }
    }
  }

  // ---------- Producers ----------

  // A woken producer tests the queue again; or no producer is ever woken without a signal, and
  // there is only one of them or nothing that could send a signal.
  ghost predicate Careful(c: Conf) {
    || c.rechecks
    || c.callers == {}
    || (!c.spurious && (Single(c) || c.capacity == 0 || c.maxNum == 0))
  }

  ghost predicate Single(c: Conf) {
    forall p, p' :: p in c.callers && p' in c.callers ==> p == p'
  }

  // A producer past its test has room, or the pool is shutting down.
  ghost predicate ProducerInv(c: Conf, s: State) {
    forall p :: p in s.producers ==>
      var x := s.producers[p];
      && (x.Deciding? ==> s.sh.size < c.capacity || s.sh.shutdown)
      && (x.Putting? ==> s.sh.size < c.capacity)
      && (x.Blocked? && x.signalled && !c.rechecks ==> s.sh.size < c.capacity && Single(c))
      && (c.maxNum == 0 ==> s.workers.Keys == {})
  }

  ghost predicate FifoInv(c: Conf, s: State) {
    && RingInv(s.sh) && |s.sh.taskQ| == c.capacity
    && s.accepted == s.taken + Queue(s.sh)
  }

  lemma FifoKept(c: Conf, s: State, a: Action)
    requires Careful(c) && LockInv(c, s) && WorkerInv(s) && ProducerInv(c, s) && FifoInv(c, s) && Enabled(c, s, a)
    ensures FifoInv(c, Next(c, s, a))
  {
    if a.DoPut? {
      PutQueue(s.sh, s.producers[a.p].task);
    } else if a.DoTake? {
      TakeQueue(s.sh);
      assert s.taken + Queue(s.sh) == (s.taken + [Head(s.sh)]) + Queue(Take(s.sh));
    } else {
      assert Queue(Next(c, s, a).sh) == Queue(s.sh);
    }
  }

  lemma ProducerKeptByProducer(c: Conf, s: State, a: Action)
    requires Careful(c) && LockInv(c, s) && ProducerInv(c, s) && Enabled(c, s, a) && IsProducer(a)
    requires 0 <= s.sh.size <= c.capacity
    ensures ProducerInv(c, Next(c, s, a))
  {
  }

  lemma ProducerKeptByOthers(c: Conf, s: State, a: Action)
    requires Careful(c) && LockInv(c, s) && WorkerInv(s) && ProducerInv(c, s) && Enabled(c, s, a) && !IsProducer(a)
    requires 0 <= s.sh.size <= c.capacity
    ensures ProducerInv(c, Next(c, s, a))
  {
  }

  lemma ProducerKept(c: Conf, s: State, a: Action)
    requires Careful(c) && LockInv(c, s) && WorkerInv(s) && ProducerInv(c, s) && FifoInv(c, s) && Enabled(c, s, a)
    ensures ProducerInv(c, Next(c, s, a))
  {
    hide Next, Enabled, LockInv, WorkerInv, ProducerInv, Careful, Queue;
    if IsProducer(a) { ProducerKeptByProducer(c, s, a); } else { ProducerKeptByOthers(c, s, a); }
  }

  ghost predicate QueueInv(c: Conf, s: State) {
    PoolInv(c, s) && ProducerInv(c, s) && FifoInv(c, s)
  }

  lemma {:induction false} RunQueue(c: Conf, s: State, acts: seq<Action>, s': State)
    requires Careful(c) && QueueInv(c, s) && Runs(c, s, acts, s')
    ensures QueueInv(c, s')
    decreases |acts|
  {
    hide Enabled, Next, LockInv, WorkerInv, CountInv, SlotInv, GrowthInv, ProducerInv, FifoInv, Careful;
    if acts != [] {
      StepInv(c, s, acts[0]);
      FifoKept(c, s, acts[0]);
      ProducerKept(c, s, acts[0]);
      RunQueue(c, Next(c, s, acts[0]), acts[1..], s');
    }
  }

  lemma InitQueue(c: Conf, s: State, ids: seq<Tid>)
    requires Init(c, s, ids)
    ensures QueueInv(c, s)
  {
    InitInv(c, s, ids);
    assert FifoInv(c, s);
  }

  // In every interleaving the ring never overflows, and the accepted tasks are the tasks taken
  // so far, in the same order, followed by the tasks still queued.
  lemma BoundedFifo(c: Conf, ids: seq<Tid>, s0: State, acts: seq<Action>, s: State)
    requires Careful(c) && Init(c, s0, ids) && Runs(c, s0, acts, s)
    ensures RingInv(s.sh) && 0 <= s.sh.size <= c.capacity == |s.sh.taskQ|
    ensures s.accepted == s.taken + Queue(s.sh)
    ensures forall p :: p in s.producers && s.producers[p].Putting? ==> s.sh.size < c.capacity
  {
    InitQueue(c, s0, ids);
    RunQueue(c, s0, acts, s);
  }
}
