// Which pools can count more live workers than maxNum. The manager of the Stale pool tests a copy
// of liveNum while it creates threads; after one worker has left through shutdown there may be
// more free slots than that copy allows for.

module PoolStale {
  import opened PoolModel
  import opened PoolSafety
  import opened PoolFifo
  import opened PoolRuns

  // A caller can check this beforehand: there is room for a worker above the minimum and another
  // one besides, and maxNum tasks can wait at once.
  ghost predicate CanExceed(c: Conf) {
    && c.variant.Stale? && 2 <= c.maxNum && c.minNum < c.maxNum
    && c.callers != {} && (c.maxNum <= c.capacity || !Careful(c))
  }

  ghost predicate NeverPassesMax(c: Conf) {
    forall ids, s0, acts, s :: Init(c, s0, ids) && Runs(c, s0, acts, s) ==> s.sh.live <= c.maxNum
  }

  // ---------- A run that passes maxNum ----------

  function Finished(x: Worker): Worker { if x.Retiring? then Retired else Left }

  // One round of the scan: it frees the slot and ends, or goes on.
  lemma ScanOne(c: Conf, s: State, w: Tid)
    requires Reached(c, s) && w in s.workers && (s.workers[w].Retiring? || s.workers[w].Leaving?)
    ensures Enabled(c, s, Scan(w))
    ensures var x, i, s' := s.workers[w], s.workers[w].i, Next(c, s, Scan(w));
      if i < |s.sh.slots| && s.sh.slots[i] == w then
        s' == s.(sh := s.sh.(slots := s.sh.slots[i := 0]), workers := s.workers[w := Finished(x)])
      else i < |s.sh.slots| && s' == s.(workers := s.workers[w := x.(i := i + 1)])
  {
    ReachedInv(c, s);
    ScanEnds(s, w);
  }

  lemma {:induction false} ScanAll(c: Conf, s: State, w: Tid) returns (s': State)
    requires Reached(c, s) && w in s.workers && (s.workers[w].Retiring? || s.workers[w].Leaving?)
    ensures Reached(c, s')
    ensures s' == s.(sh := s.sh.(slots := s'.sh.slots), workers := s.workers[w := Finished(s.workers[w])])
    decreases |s.sh.slots| - s.workers[w].i
  {
    hide Reached, Enabled, Next;
    ScanOne(c, s, w);
    s' := Go(c, s, Scan(w));
    if s'.workers[w] != Finished(s.workers[w]) {
      s' := ScanAll(c, s', w);
    }
  }

  // With nothing to do, the manager orders workers to exit.
  lemma OrderExits(c: Conf, s: State) returns (s': State)
    requires Reached(c, s) && s.lock.Free? && !s.sh.shutdown && s.manager.AtTop? && c.variant.Stale?
    requires s.sh.size == 0 && s.sh.busy == 0 && s.sh.live > c.minNum
    ensures Reached(c, s') && s' == s.(sh := s.sh.(exitNum := NUMBER))
  {
    hide Reached;
    s' := Count(c, s);
    s' := Go(c, s', Manage(0));
    s' := Go(c, s', Manage(0));
    s' := Go(c, s', Manage(0));
    s' := Go(c, s', Manage(0));
    s' := Go(c, s', Manage(0));
  }

  // A sleeping worker wakes up to that order and retires.
  lemma RetireOne(c: Conf, s: State) returns (s': State)
    requires Rest(c, s) && s.sh.size == 0 && s.sh.live > c.minNum && c.variant.Stale?
    ensures Rest(c, s') && s'.sh.live == s.sh.live - 1 && s'.sh.size == 0
  {
    RestFacts(c, s);
    var w := SomeWorker(c, s);
    hide Reached;
    s' := Go(c, s, Lock(w));
    s' := Go(c, s', TestEmpty(w));
    s' := OrderExits(c, s');
    s' := Go(c, s', WakeWorker(w));
    s' := ScanAll(c, s', w);
  }

  // The number of live workers can be brought to one below maxNum, with maxNum tasks waiting.
  lemma {:induction false} Brim(c: Conf, s: State) returns (s': State)
    requires CanExceed(c) && Rest(c, s)
    requires s.sh.live <= c.maxNum
    ensures Rest(c, s') && s'.sh.live == c.maxNum - 1 && s'.sh.size >= c.maxNum
    decreases c.maxNum - s.sh.live
  {
    RestFacts(c, s);
    hide Rest;
    if s.sh.live == c.maxNum - 1 {
      s' := Flood(c, s, c.maxNum);
    } else if s.sh.live == c.maxNum {
      s' := Drain(c, s);
      s' := RetireOne(c, s');
      s' := Flood(c, s', c.maxNum);
    } else {
      s' := Flood(c, s, if s.sh.live == 0 then 1 else c.maxNum);
      s' := Grow(c, s');
      s' := Brim(c, s');
    }
  }

  // The pool shuts down and a worker leaves.
  lemma LeaveOne(c: Conf, s: State, w: Tid) returns (s': State)
    requires Reached(c, s) && s.lock.Free? && w in s.workers && s.workers[w].Ready?
    ensures Reached(c, s')
    ensures s' == s.(sh := s.sh.(slots := s'.sh.slots, shutdown := true), workers := s.workers[w := Left])
  {
    hide Reached;
    s' := Go(c, s, Shutdown);
    s' := Go(c, s', Lock(w));
    s' := Go(c, s', TestEmpty(w));
    s' := Go(c, s', Judge(w));
    s' := ScanAll(c, s', w);
  }

  lemma TwoVacant(c: Conf, s: State, w: Tid)
    requires Reached(c, s) && w in s.workers && s.workers[w].Left? && s.sh.live == c.maxNum - 1
    requires forall x :: x in s.workers && x != w ==> s.workers[x].Ready? || s.workers[x].Retired?
    ensures |s.sh.slots| == c.maxNum && Vacant(s.sh.slots, 0) == 2
  {
    ReachedInv(c, s);
    assert Those(Gone, s.workers) == {w} && Those(Departing, s.workers) == {};
    SlotsAndCounts(c, s);
    VacantFromStart(s.sh.slots, 0);
    assert s.sh.slots[0..] == s.sh.slots;
  }

  // The manager copies liveNum; the pool shuts down; a worker leaves and gives up its slot; the
  // manager, trusting its copy, fills both free slots.
  lemma StaleCanExceed(c: Conf) returns (s: State)
    requires CanExceed(c)
    ensures Reached(c, s) && s.sh.live == c.maxNum + NUMBER - 1
  {
    StartRests(c);
    s := Brim(c, Start(c));
    RestFacts(c, s);
    var w := SomeWorker(c, s);
    hide Reached;
    s := Count(c, s);
    s := LeaveOne(c, s, w);
    TwoVacant(c, s, w);
    s := Go(c, s, Manage(0));
    s := GrowLoop(c, s);
  }

  // ---------- All other pools ----------

  // As many tasks as can ever wait, if there is such a bound.
  ghost predicate Bounded(c: Conf, s: State) {
    (Careful(c) ==> s.sh.size <= c.capacity) && (c.callers == {} ==> s.sh.size <= 0)
  }

  // What the manager's copy of queueSize says about its copy of liveNum.
  ghost predicate CopyInv(c: Conf, s: State) {
    match s.manager
    case Counted(q, l) => (Careful(c) ==> q <= c.capacity) && (c.callers == {} ==> q <= 0)
    case Choosing(q, l, b) => (Careful(c) ==> q <= c.capacity) && (c.callers == {} ==> q <= 0)
    case Growing(i, counter, l, b) => (Careful(c) ==> l < c.capacity) && c.callers != {}
    case _ => true
  }

  lemma CopyKept(c: Conf, s: State, a: Action)
    requires c.variant.Stale? && Bounded(c, s) && GrowthInv(c, s) && CopyInv(c, s) && Enabled(c, s, a)
    ensures CopyInv(c, Next(c, s, a))
  {
    hide Careful;
    if !IsManager(a) { OthersDoNotGrow(c, s, a); }
  }

  // Growth from a copy that the queue justifies stays within maxNum.
  lemma LimitKept(c: Conf, s: State, a: Action)
    requires c.variant.Stale? && !CanExceed(c) && GrowthInv(c, s) && CopyInv(c, s) && Enabled(c, s, a)
    requires s.sh.live <= c.maxNum
    ensures Next(c, s, a).sh.live <= c.maxNum
  {
    hide Careful;
    if !IsManager(a) { OthersDoNotGrow(c, s, a); }
  }

  ghost predicate StaleInv(c: Conf, s: State) {
    PoolInv(c, s) && CopyInv(c, s) && s.sh.live <= c.maxNum
    && (Careful(c) ==> QueueInv(c, s)) && (c.callers == {} ==> s.sh.size <= 0)
  }

  lemma NoCallersNoTasks(c: Conf, s: State, a: Action)
    requires LockInv(c, s) && WorkerInv(s) && Enabled(c, s, a) && c.callers == {} && s.sh.size <= 0
    ensures Next(c, s, a).sh.size <= 0
  {
    assert s.producers.Keys == {};
  }

  lemma StaleStep(c: Conf, s: State, a: Action)
    requires c.variant.Stale? && !CanExceed(c) && StaleInv(c, s) && Enabled(c, s, a)
    ensures StaleInv(c, Next(c, s, a))
  {
    hide Enabled, Next, Careful, CanExceed, CopyInv, LockInv, WorkerInv, CountInv, SlotInv, GrowthInv, ProducerInv;
    StepInv(c, s, a);
    if Careful(c) {
      FifoKept(c, s, a);
      ProducerKept(c, s, a);
    }
    if c.callers == {} { NoCallersNoTasks(c, s, a); }
    CopyKept(c, s, a);
    LimitKept(c, s, a);
  }

  lemma {:induction false} StaleRun(c: Conf, s: State, acts: seq<Action>, s': State)
    requires c.variant.Stale? && !CanExceed(c) && StaleInv(c, s) && Runs(c, s, acts, s')
    ensures s'.sh.live <= c.maxNum
    decreases |acts|
  {
    hide Enabled, Next, CanExceed, StaleInv;
    if acts == [] {
      StaleLimit(c, s);
    } else {
      StaleStep(c, s, acts[0]);
      StaleRun(c, Next(c, s, acts[0]), acts[1..], s');
    }
  }

  lemma StaleLimit(c: Conf, s: State)
    ensures StaleInv(c, s) ==> s.sh.live <= c.maxNum
  {
  }

  lemma StaleStart(c: Conf, s: State, ids: seq<Tid>)
    requires Init(c, s, ids)
    ensures StaleInv(c, s)
  {
    InitInv(c, s, ids);
    if Careful(c) { InitQueue(c, s, ids); }
  }

  // liveNum stays within maxNum in every run exactly when the pool is not of that kind.
  lemma StaleExceedsExactly(c: Conf)
    requires c.minNum <= c.maxNum
    ensures NeverPassesMax(c) <==> !CanExceed(c)
  {
    hide Init, Runs, CanExceed, StaleInv;
    if CanExceed(c) {
      var s := StaleCanExceed(c);
      StartInit(c);
      var acts :| Runs(c, Start(c), acts, s);
    } else {
      forall ids, s0, acts, s | Init(c, s0, ids) && Runs(c, s0, acts, s) ensures s.sh.live <= c.maxNum {
        if c.variant.Stale? {
          StaleStart(c, s0, ids);
          StaleRun(c, s0, acts, s);
        } else {
          PoolSafe(c, ids, s0, acts, s);
        }
      }
    }
  }
}
