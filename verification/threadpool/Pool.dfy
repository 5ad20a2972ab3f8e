// The fields of struct ThreadPool, changed in place by the regions that hold its locks.

module Pools {
  import opened PoolModel
  import PoolFifo
  import PoolRuns

  class ThreadPool {
    const taskQ: array<Task>
    const threadIDs: array<Tid>
    const minNum: nat
    const maxNum: nat
    var queueSize: int
    var queueFront: nat
    var queueRear: nat
    var busyNum: int
    var liveNum: int
    var exitNum: int
    var shutdown: bool

    ghost function View(): Shared
      reads this, taskQ, threadIDs
    {
      Shared(taskQ[..], queueFront, queueRear, queueSize, threadIDs[..], liveNum, busyNum, exitNum, shutdown)
    }

    // The two ring indices stay inside the ring, and there is a slot for every thread.
    ghost predicate Valid()
      reads this, taskQ, threadIDs
    {
      threadIDs.Length == maxNum && minNum <= maxNum && PoolFifo.RingInv(View())
    }

    // threadPoolCreate; `ids` are the identifiers that pthread_create stores.
    constructor (min: nat, max: nat, capacity: nat, ids: seq<Tid>)
      requires |ids| == min <= max
      ensures Valid() && fresh(taskQ) && fresh(threadIDs) && minNum == min && maxNum == max
      ensures taskQ.Length == capacity && PoolFifo.Queue(View()) == []
      ensures var sh := View();
        && sh.slots == ids + seq(max - min, _ => 0) && sh.front == sh.rear == 0 && sh.size == 0
        && sh.live == min && sh.busy == 0 && sh.exitNum == 0 && !sh.shutdown
    {
      taskQ := new Task[capacity];
      threadIDs := new Tid[max](_ => 0);
      minNum, maxNum, busyNum, liveNum, exitNum := min, max, 0, min, 0;
      queueSize, queueFront, queueRear, shutdown := 0, 0, 0, false;
      new;
      for i := 0 to min
        invariant forall j :: 0 <= j < max ==> threadIDs[j] == if j < i then ids[j] else 0
        modifies threadIDs
      {
        threadIDs[i] := ids[i];
      }
      assert threadIDs[..] == ids + seq(max - min, _ => 0);
    }

    // threadPoolAdd, once there is room.
    method PutTask(task: Task)
      requires Valid() && queueSize < taskQ.Length
      modifies this`queueRear, this`queueSize, taskQ
      ensures Valid() && View() == Put(old(View()), task) && PoolFifo.Queue(View()) == old(PoolFifo.Queue(View())) + [task]
    {
      ghost var sh := View();
      PoolFifo.PutQueue(sh, task);
      taskQ[queueRear] := task;
      queueRear := (queueRear + 1) % taskQ.Length;
      queueSize := queueSize + 1;
    }

    // The worker's dequeue.
    method TakeTask() returns (task: Task)
      requires Valid() && queueSize > 0
      modifies this`queueFront, this`queueSize
      ensures Valid() && View() == Take(old(View())) && task == Head(old(View()))
      ensures old(PoolFifo.Queue(View())) == [task] + PoolFifo.Queue(View())
    {
      ghost var sh := View();
      PoolFifo.TakeQueue(sh);
      task := taskQ[queueFront];
      queueFront := (queueFront + 1) % taskQ.Length;
      queueSize := queueSize - 1;
    }

    // A woken worker answers an exit order.
    method AnswerExit() returns (leaves: bool)
      requires Valid()
      modifies this`exitNum, this`liveNum
      ensures Valid() && leaves == Retires(old(View()), minNum)
      ensures View() == if leaves then Ordered(old(View())).(live := old(liveNum) - 1) else Ordered(old(View()))
      ensures leaves <==> old(exitNum) > 0 && old(liveNum) > minNum
      ensures exitNum == (if old(exitNum) > 0 then old(exitNum) - 1 else old(exitNum))
      ensures liveNum == if leaves then old(liveNum) - 1 else old(liveNum)
    {
      leaves := false;
      if exitNum > 0 {
        exitNum := exitNum - 1;
        if liveNum > minNum {
          liveNum := liveNum - 1;
          leaves := true;
        }
      }
    }

    // The manager orders workers to exit.
    method OrderExit()
      requires Valid()
      modifies this`exitNum
      ensures Valid() && View() == old(View()).(exitNum := NUMBER)
    {
      exitNum := NUMBER;
    }

    // The loop of threadExit, run without the lock.
    method ClearSlot(tid: Tid)
      requires Valid()
      modifies threadIDs
      ensures Valid() && View() == old(View()).(slots := Cleared(old(View()).slots, tid))
    {
      var i := 0;
      while i < maxNum
        invariant 0 <= i <= maxNum && Valid() && threadIDs[..] == old(threadIDs[..])
        invariant tid !in threadIDs[..i]
      {
        if threadIDs[i] == tid {
          ClearedAt(threadIDs[..], tid, i);
          threadIDs[i] := 0;
          return;
        }
        i := i + 1;
      }
      assert threadIDs[..] == threadIDs[..i];
      ClearedNone(threadIDs[..], tid);
    }

    // The manager's loop that creates workers while it holds the lock; `ids` are the identifiers
    // of the threads that it may create.
    method Grow(ids: seq<Tid>)
      requires Valid() && |ids| == NUMBER
      modifies this`liveNum, threadIDs
      ensures Valid() && View() == Grown(old(View()), maxNum, 0, 0, ids)
      ensures old(liveNum) <= maxNum ==>
        liveNum == old(liveNum) + MayCreate(old(threadIDs[..]), 0, 0, maxNum - old(liveNum))
    {
      if liveNum <= maxNum { GrownLive(View(), maxNum, 0, 0, ids); }
      var counter, i := 0, 0;
      while i < maxNum && counter < NUMBER && liveNum < maxNum
        invariant 0 <= i <= maxNum && 0 <= counter <= NUMBER && Valid()
        invariant Grown(View(), maxNum, i, counter, ids) == Grown(old(View()), maxNum, 0, 0, ids)
        decreases maxNum - i
      {
        ghost var sh := View();
        if threadIDs[i] == 0 {
          threadIDs[i] := ids[counter];
          counter := counter + 1;
          liveNum := liveNum + 1;
          assert View() == sh.(slots := sh.slots[i := ids[counter - 1]], live := sh.live + 1);
        }
        i := i + 1;
      }
    }

    // What the manager does once it has its copies of queueSize, liveNum and busyNum.
    method Manage(q: int, l: int, b: int, ids: seq<Tid>)
      requires Valid() && |ids| == NUMBER
      modifies this`liveNum, this`exitNum, threadIDs
      ensures Valid() && View() == Managed(old(View()), minNum, maxNum, q, l, b, ids)
      ensures exitNum == if b * 2 < l && l > minNum then NUMBER else old(exitNum)
      ensures old(liveNum) <= maxNum ==>
        liveNum == old(liveNum) +
          (if q > l && l < maxNum then MayCreate(old(threadIDs[..]), 0, 0, maxNum - old(liveNum)) else 0)
      ensures unchanged(taskQ) && queueSize == old(queueSize) && queueFront == old(queueFront)
      ensures queueRear == old(queueRear) && busyNum == old(busyNum) && shutdown == old(shutdown)
    {
      if q > l && l < maxNum { Grow(ids); }
      if b * 2 < l && l > minNum { OrderExit(); }
    }
  }

  // ---------- The scan as steps of the protocol ----------

  // A scan that nobody disturbs, from slot `i` on, clears the first slot that holds the id.
  lemma {:induction false} ScanIsRun(c: Conf, s: State, w: Tid) returns (acts: seq<Action>, s': State)
    requires |s.sh.slots| == c.maxNum && w in s.workers && (s.workers[w].Retiring? || s.workers[w].Leaving?)
    requires s.workers[w].i <= c.maxNum
    ensures Runs(c, s, acts, s') && (forall a :: a in acts ==> a == Scan(w))
    ensures var i, slots := s.workers[w].i, s.sh.slots;
      s' == s.(sh := s.sh.(slots := slots[..i] + Cleared(slots[i..], w)),
               workers := s.workers[w := if s.workers[w].Retiring? then Retired else Left])
    decreases c.maxNum - s.workers[w].i
  {
    hide Runs;
    var i, slots, s1 := s.workers[w].i, s.sh.slots, Next(c, s, Scan(w));
    ClearedFrom(slots, i, w);
    if i < c.maxNum && slots[i] != w {
      acts, s' := ScanIsRun(c, s1, w);
    } else {
      acts, s' := [], s1;
      StillRuns(c, s1);
    }
    RunCons(c, s, Scan(w), acts, s');
    acts := [Scan(w)] + acts;
  }

  lemma ClearedFrom(slots: seq<Tid>, i: nat, w: Tid)
    requires i <= |slots|
    ensures slots[..i] + Cleared(slots[i..], w) ==
      if i == |slots| then slots
      else if slots[i] == w then slots[i := 0]
      else slots[..i + 1] + Cleared(slots[i + 1..], w)
  {
    if i < |slots| { assert slots[i..][1..] == slots[i + 1..]; }
  }

  lemma {:induction false} ClearedAt(slots: seq<Tid>, w: Tid, i: nat)
    requires i < |slots| && slots[i] == w && w !in slots[..i]
    ensures Cleared(slots, w) == slots[i := 0]
  {
    if i > 0 {
      assert slots[0] == slots[..i][0] && slots[1..][..i - 1] == slots[..i][1..];
      ClearedAt(slots[1..], w, i - 1);
    }
  }

  lemma {:induction false} ClearedNone(slots: seq<Tid>, w: Tid)
    requires w !in slots
    ensures Cleared(slots, w) == slots
  {
    if slots != [] { ClearedNone(slots[1..], w); }
  }

  // ---------- The grow loop as steps of the protocol ----------

  function Grown(sh: Shared, maxNum: nat, i: nat, counter: nat, ids: seq<Tid>): Shared
    requires |ids| == NUMBER
    decreases maxNum - i
  {
    if i < maxNum && counter < NUMBER && sh.live < maxNum then
      if i < |sh.slots| && sh.slots[i] == 0 then
        Grown(sh.(slots := sh.slots[i := ids[counter]], live := sh.live + 1), maxNum, i + 1, counter + 1, ids)
      else Grown(sh, maxNum, i + 1, counter, ids)
    else sh
  }

  // How many threads the loop creates from slot `i` on: no more than NUMBER, than the free slots
  // and than `left`.
  function MayCreate(slots: seq<Tid>, i: nat, counter: nat, left: int): int
    requires i <= |slots|
  {
    PoolRuns.Least(NUMBER - counter, PoolRuns.Least(PoolRuns.Vacant(slots, i), left))
  }

  lemma {:induction false} GrownLive(sh: Shared, maxNum: nat, i: nat, counter: nat, ids: seq<Tid>)
    requires |ids| == NUMBER && |sh.slots| == maxNum && i <= maxNum && counter <= NUMBER && sh.live <= maxNum
    ensures Grown(sh, maxNum, i, counter, ids).live == sh.live + MayCreate(sh.slots, i, counter, maxNum - sh.live)
    decreases maxNum - i
  {
    if i < maxNum && counter < NUMBER && sh.live < maxNum {
      if sh.slots[i] == 0 {
        PoolRuns.VacantBehind(sh.slots, i, i + 1, ids[counter]);
        GrownLive(sh.(slots := sh.slots[i := ids[counter]], live := sh.live + 1), maxNum, i + 1, counter + 1, ids);
      } else {
        GrownLive(sh, maxNum, i + 1, counter, ids);
      }
    }
  }

  ghost predicate NewIds(s: State, ids: seq<Tid>, from: nat) {
    && (forall j :: from <= j < |ids| ==> ids[j] != 0 && ids[j] !in s.workers)
    && (forall j, k :: from <= j < k < |ids| ==> ids[j] != ids[k])
  }

  // The loop under one lock is a run of manager steps, and changes the shared fields alike.
  lemma {:induction false} GrowIsRun(c: Conf, s: State, ids: seq<Tid>) returns (acts: seq<Action>, s': State)
    requires !c.variant.Stale? && s.manager.Growing? && |ids| == NUMBER && NewIds(s, ids, s.manager.counter)
    ensures Runs(c, s, acts, s') && (forall a :: a in acts ==> a.Manage?)
    ensures s'.sh == Grown(s.sh, c.maxNum, s.manager.i, s.manager.counter, ids)
    ensures s'.manager == Weighing(s.manager.l, s.manager.b) && s'.lock == Free
    ensures s'.producers == s.producers && s'.accepted == s.accepted && s'.taken == s.taken
    decreases c.maxNum - s.manager.i
  {
    hide Enabled, Next, Grown;
    var a, s1 := GrowStep(c, s, ids);
    if s1.manager.Growing? {
      acts, s' := GrowIsRun(c, s1, ids);
    } else {
      acts, s' := [], s1;
    }
    acts := [a] + acts;
  }

  function Managed(sh: Shared, minNum: nat, maxNum: nat, q: int, l: int, b: int, ids: seq<Tid>): Shared
    requires |ids| == NUMBER
  {
    var grown := if q > l && l < maxNum then Grown(sh, maxNum, 0, 0, ids) else sh;
    if b * 2 < l && l > minNum then grown.(exitNum := NUMBER) else grown
  }

  // A turn of the manager that nobody disturbs is a run of its steps and changes the shared
  // fields alike.
  lemma ManageIsRun(c: Conf, s: State, ids: seq<Tid>) returns (acts: seq<Action>, s': State)
    requires c.variant.Manager2? && s.manager.Choosing? && s.lock.Free? && |ids| == NUMBER && NewIds(s, ids, 0)
    ensures Runs(c, s, acts, s') && (forall a :: a in acts ==> a.Manage?)
    ensures s'.sh == Managed(s.sh, c.minNum, c.maxNum, s.manager.q, s.manager.l, s.manager.b, ids)
    ensures s'.manager.AtTop? && s'.lock.Free?
  {
    hide Runs, Grown;
    var m := Action.Manage(0);
    var s1 := Next(c, s, m);
    StillRuns(c, s1);
    RunCons(c, s, m, [], s1);
    acts, s' := [m] + [], s1;
    if s1.manager.Growing? {
      var grow;
      grow, s' := GrowIsRun(c, s1, ids);
      acts := [m] + grow;
      RunCons(c, s, m, grow, s');
    }
    var s2 := Next(c, s', m);
    PoolRuns.RunsThen(c, s, acts, s', m);
    acts, s' := acts + [m], s2;
    if s2.manager.Shrinking? {
      PoolRuns.RunsThen(c, s, acts, s2, m);
      acts, s' := acts + [m], Next(c, s2, m);
    }
  }

  lemma StillRuns(c: Conf, s: State)
    ensures Runs(c, s, [], s)
  {
  }

  lemma RunCons(c: Conf, s: State, a: Action, acts: seq<Action>, s': State)
    requires Enabled(c, s, a) && Runs(c, Next(c, s, a), acts, s')
    ensures Runs(c, s, [a] + acts, s')
  {
    assert ([a] + acts)[1..] == acts;
  }

  // One round of the loop is one step.
  lemma GrowStep(c: Conf, s: State, ids: seq<Tid>) returns (a: Action, s': State)
    requires !c.variant.Stale? && s.manager.Growing? && |ids| == NUMBER && NewIds(s, ids, s.manager.counter)
    ensures Enabled(c, s, a) && s' == Next(c, s, a) && a.Manage?
    ensures s'.producers == s.producers && s'.accepted == s.accepted && s'.taken == s.taken
    ensures if s'.manager.Growing? then
        && s.manager.i < c.maxNum && s'.manager.i == s.manager.i + 1
        && s'.manager.l == s.manager.l && s'.manager.b == s.manager.b
        && NewIds(s', ids, s'.manager.counter)
        && Grown(s'.sh, c.maxNum, s'.manager.i, s'.manager.counter, ids)
           == Grown(s.sh, c.maxNum, s.manager.i, s.manager.counter, ids)
      else
        && s'.manager == Weighing(s.manager.l, s.manager.b) && s'.lock == Free
        && s'.sh == s.sh == Grown(s.sh, c.maxNum, s.manager.i, s.manager.counter, ids)
  {
    var n := s.manager.counter;
    a := Action.Manage(if n < NUMBER then ids[n] else 0);
    s' := Next(c, s, a);
  }
}
