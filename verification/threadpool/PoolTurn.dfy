// What one turn of the manager does when nobody disturbs it, for each of the three pools.

module PoolTurn {
  import opened PoolModel
  import opened PoolSafety
  import opened PoolRuns
  import PoolStale

  // The manager's steps up to the top of its loop, and nobody else's.
  ghost predicate TurnTo(c: Conf, s: State, acts: seq<Action>, s': State)
    decreases |acts|
  {
    && acts != [] && acts[0].Manage? && Enabled(c, s, acts[0])
    && var s1 := Next(c, s, acts[0]);
       if s1.manager.AtTop? then |acts| == 1 && s' == s1 else TurnTo(c, s1, acts[1..], s')
  }

  lemma FirstStep(c: Conf, s: State, acts: seq<Action>, s': State) returns (s1: State, rest: seq<Action>)
    requires TurnTo(c, s, acts, s')
    ensures acts != [] && acts[0].Manage? && Enabled(c, s, acts[0]) && s1 == Next(c, s, acts[0]) && rest == acts[1..]
    ensures if s1.manager.AtTop? then s' == s1 else TurnTo(c, s1, rest, s')
  {
    s1, rest := Next(c, s, acts[0]), acts[1..];
  }

  // The manager may have created workers and ordered exits; nothing else has changed.
  ghost predicate OnlyManaged(s: State, s': State) {
    s' == s.(manager := s'.manager, lock := s'.lock, workers := s'.workers,
             sh := s.sh.(slots := s'.sh.slots, live := s'.sh.live, exitNum := s'.sh.exitNum))
  }

  // The number of threads that the grow loop creates from slot `i` on.
  function Room(c: Conf, sh: Shared, i: nat, counter: nat): int
    requires i <= |sh.slots|
  {
    var free := Vacant(sh.slots, i);
    Least(NUMBER - counter, if c.variant.Stale? then free else Least(free, c.maxNum - sh.live))
  }

  // Whether the manager orders exits, from its copies or, in the Stale pool, from the fields.
  predicate TooMany(c: Conf, l: int, b: int) {
    b * 2 < l && l > c.minNum
  }

  function Ended(s: State, order: bool): State {
    s.(manager := AtTop, sh := s.sh.(exitNum := if order then NUMBER else s.sh.exitNum))
  }

  lemma ShrinkingDoes(c: Conf, s: State, acts: seq<Action>, s': State)
    requires TurnTo(c, s, acts, s') && s.manager.Shrinking?
    ensures s' == Ended(s, true)
  {
    hide TurnTo;
    var s1, rest := FirstStep(c, s, acts, s');
  }

  // The Stale pool's last test reads liveNum, ...
  lemma FlooringDoes(c: Conf, s: State, acts: seq<Action>, s': State)
    requires TurnTo(c, s, acts, s') && s.manager.Flooring?
    ensures s' == Ended(s, s.sh.live > c.minNum)
  {
    hide TurnTo;
    var s1, rest := FirstStep(c, s, acts, s');
    if s1.manager.Shrinking? { ShrinkingDoes(c, s1, rest, s'); }
  }

  // ... and so does the one before it.
  lemma HalvingDoes(c: Conf, s: State, acts: seq<Action>, s': State)
    requires TurnTo(c, s, acts, s') && s.manager.Halving?
    ensures s' == Ended(s, TooMany(c, s.sh.live, s.manager.b))
  {
    hide TurnTo;
    var s1, rest := FirstStep(c, s, acts, s');
    if s1.manager.Flooring? { FlooringDoes(c, s1, rest, s'); }
  }

  lemma WeighingDoes(c: Conf, s: State, acts: seq<Action>, s': State)
    requires TurnTo(c, s, acts, s') && s.manager.Weighing? && s.lock.Free?
    ensures OnlyManaged(s, s') && s'.lock.Free? && s'.manager.AtTop? && s'.sh.live == s.sh.live
    ensures s'.sh.exitNum ==
      if (if c.variant.Stale? then TooMany(c, s.sh.live, s.sh.busy) else TooMany(c, s.manager.l, s.manager.b))
      then NUMBER else s.sh.exitNum
  {
    hide TurnTo;
    var s1, rest := FirstStep(c, s, acts, s');
    if s1.manager.Halving? {
      HalvingDoes(c, s1, rest, s');
    } else if s1.manager.Shrinking? {
      ShrinkingDoes(c, s1, rest, s');
    }
  }

  // One round of the grow loop.
  lemma GrowingStep(c: Conf, s: State, a: Action)
    requires Enabled(c, s, a) && a.Manage? && s.manager.Growing? && |s.sh.slots| == c.maxNum
    requires s.manager.i <= c.maxNum && s.manager.counter <= NUMBER && s.manager.l < c.maxNum
    requires !c.variant.Stale? ==> s.sh.live <= c.maxNum
    ensures var m, s1 := s.manager, Next(c, s, a);
      && OnlyManaged(s, s1) && s1.sh.exitNum == s.sh.exitNum
      && if s1.manager.Growing? then
           && m.i < c.maxNum && s1.manager.i == m.i + 1 && s1.manager.counter <= NUMBER
           && s1.manager.l == m.l && s1.manager.b == m.b && |s1.sh.slots| == c.maxNum
           && (!c.variant.Stale? ==> s1.sh.live <= c.maxNum)
           && s1.sh.live + Room(c, s1.sh, s1.manager.i, s1.manager.counter) == s.sh.live + Room(c, s.sh, m.i, m.counter)
         else
           s1.manager == Weighing(m.l, m.b) && s1.lock.Free? && s1.sh.live == s.sh.live && Room(c, s.sh, m.i, m.counter) == 0
  {
    if Creates(c, s) { VacantBehind(s.sh.slots, s.manager.i, s.manager.i + 1, a.tid); }
  }

  lemma {:induction false} GrowingDoes(c: Conf, s: State, acts: seq<Action>, s': State)
    requires TurnTo(c, s, acts, s') && s.manager.Growing? && |s.sh.slots| == c.maxNum
    requires s.manager.i <= c.maxNum && s.manager.counter <= NUMBER && s.manager.l < c.maxNum
    requires !c.variant.Stale? ==> s.sh.live <= c.maxNum
    ensures OnlyManaged(s, s') && s'.lock.Free? && s'.manager.AtTop?
    ensures s'.sh.live == s.sh.live + Room(c, s.sh, s.manager.i, s.manager.counter)
    ensures s'.sh.exitNum ==
      if (if c.variant.Stale? then TooMany(c, s'.sh.live, s.sh.busy) else TooMany(c, s.manager.l, s.manager.b))
      then NUMBER else s.sh.exitNum
    decreases |acts|
  {
    hide Enabled, Next, Room, TooMany;
    GrowingStep(c, s, acts[0]);
    var s1 := Next(c, s, acts[0]);
    if s1.manager.Growing? {
      GrowingDoes(c, s1, acts[1..], s');
    } else {
      WeighingDoes(c, s1, acts[1..], s');
    }
  }

  // From the manager's copies.
  lemma ChoosingDoes(c: Conf, s: State, acts: seq<Action>, s': State)
    requires TurnTo(c, s, acts, s') && s.manager.Choosing? && s.lock.Free? && |s.sh.slots| == c.maxNum
    requires !c.variant.Stale? ==> s.sh.live <= c.maxNum
    ensures OnlyManaged(s, s') && s'.lock.Free? && s'.manager.AtTop?
    ensures var q, l, b := s.manager.q, s.manager.l, s.manager.b;
      && s'.sh.live == s.sh.live +
           (if (if c.variant.Manager3? then q > l - b else q > l) && l < c.maxNum then Room(c, s.sh, 0, 0) else 0)
      && s'.sh.exitNum ==
           if (if c.variant.Stale? then TooMany(c, s'.sh.live, s.sh.busy) else TooMany(c, l, b))
           then NUMBER else s.sh.exitNum
  {
    hide TooMany, Room;
    var s1 := Next(c, s, acts[0]);
    if s1.manager.Growing? {
      GrowingDoes(c, s1, acts[1..], s');
    } else {
      WeighingDoes(c, s1, acts[1..], s');
    }
  }

  // The copies themselves.
  lemma TopDoes(c: Conf, s: State, acts: seq<Action>, s': State) returns (rest: seq<Action>, s1: State)
    requires TurnTo(c, s, acts, s') && s.manager.AtTop? && s.lock.Free? && !s.sh.shutdown
    ensures s1 == s.(manager := Choosing(s.sh.size, s.sh.live, s.sh.busy)) && TurnTo(c, s1, rest, s')
  {
    hide TurnTo;
    s1, rest := FirstStep(c, s, acts, s');
    s1, rest := FirstStep(c, s1, rest, s');
    if c.variant.Manager2? { s1, rest := FirstStep(c, s1, rest, s'); }
  }

  // A whole turn in any reachable state of an open pool whose lock is free. Workers are created
  // exactly if more tasks than (idle) workers wait, fewer than maxNum workers live and a slot is
  // free; exits are ordered exactly if fewer than half of more than minNum workers are busy.
  lemma TurnDoes(c: Conf, s: State, acts: seq<Action>, s': State)
    requires Reached(c, s) && s.manager.AtTop? && s.lock.Free? && !s.sh.shutdown && TurnTo(c, s, acts, s')
    ensures OnlyManaged(s, s') && s'.lock.Free? && s'.manager.AtTop? && |s.sh.slots| == c.maxNum
    ensures var free := Vacant(s.sh.slots, 0);
      var idle := if c.variant.Manager3? then s.sh.live - s.sh.busy else s.sh.live;
      && (s'.sh.live > s.sh.live <==> s.sh.size > idle && s.sh.live < c.maxNum && free > 0)
      && (s'.sh.live > s.sh.live ==>
           s'.sh.live == s.sh.live + Least(NUMBER, if c.variant.Stale? then free else Least(free, c.maxNum - s.sh.live)))
      && s'.sh.live >= s.sh.live
    ensures var live := if c.variant.Stale? then s'.sh.live else s.sh.live;
      s'.sh.exitNum == if s.sh.busy * 2 < live && live > c.minNum then NUMBER else s.sh.exitNum
  {
    ReachedInv(c, s);
    var rest, s1 := TopDoes(c, s, acts, s');
    ChoosingDoes(c, s1, rest, s');
  }

  // How many slots are free: those of neither live nor retiring workers, and of those gone.
  lemma VacantCounts(c: Conf, s: State)
    requires Reached(c, s)
    ensures |s.sh.slots| == c.maxNum
    ensures Vacant(s.sh.slots, 0) == c.maxNum - s.sh.live - |Those(Departing, s.workers)| + |Those(Gone, s.workers)|
  {
    ReachedInv(c, s);
    SlotsAndCounts(c, s);
    VacantFromStart(s.sh.slots, 0);
    assert s.sh.slots[0..] == s.sh.slots;
  }

  // ---------- There is such a turn ----------

  function Phase(m: Manager): nat {
    match m
    case AtTop => 8
    case Awake => 7
    case Counted(_, _) => 6
    case Choosing(_, _, _) => 5
    case Growing(_, _, _, _) => 4
    case Weighing(_, _) => 3
    case Halving(_) => 2
    case Flooring => 1
    case _ => 0
  }

  lemma {:induction false} TurnExists(c: Conf, s: State) returns (acts: seq<Action>, s': State)
    requires !s.manager.Stopped? && !s.sh.shutdown && (if s.manager.Growing? then s.lock.ByManager? else s.lock.Free?)
    requires s.manager.Growing? ==> s.manager.i <= c.maxNum
    ensures TurnTo(c, s, acts, s')
    decreases Phase(s.manager), if s.manager.Growing? then c.maxNum - s.manager.i else 0
  {
    var t := AboveAll(s.workers.Keys);
    assert t !in s.workers.Keys;
    var s1 := Next(c, s, Manage(t));
    if s1.manager.AtTop? {
      acts, s' := [Manage(t)], s1;
    } else {
      acts, s' := TurnExists(c, s1);
      assert ([Manage(t)] + acts)[1..] == acts;
      acts := [Manage(t)] + acts;
    }
  }

  // ---------- Tasks and too few workers do not suffice ----------

  // One producer calls until `n` tasks wait.
  lemma {:induction false} PutMany(c: Conf, s: State, p: int, n: nat) returns (s': State)
    requires Reached(c, s) && s.lock.Free? && !s.sh.shutdown && s.sh.size <= n <= c.capacity
    requires p in c.callers && p in s.producers && s.producers[p].Outside?
    ensures Reached(c, s') && OnlyRing(s, s') && s'.sh.size == n
    decreases n - s.sh.size
  {
    s' := s;
    if s.sh.size < n {
      s' := PutOne(c, s, p);
      s' := PutMany(c, s', p, n);
    }
  }

  // A worker that has retired but not cleared its slot yet keeps the manager from growing the
  // pool: maxNum tasks wait, fewer than maxNum workers live, and no slot is free.
  lemma NoRoomToGrow(c: Conf) returns (s: State)
    requires PoolStale.CanExceed(c) && c.maxNum <= c.capacity
    ensures Reached(c, s) && s.manager.AtTop? && s.lock.Free? && !s.sh.shutdown
    ensures s.sh.size > s.sh.live && s.sh.live < c.maxNum && |s.sh.slots| == c.maxNum && Vacant(s.sh.slots, 0) == 0
  {
    var p := SomeMember(c.callers);
    StartRests(c);
    s := PoolStale.Brim(c, Start(c));
    s := Grow(c, s);
    s := Drain(c, s);
    RestFacts(c, s);
    var w := SomeWorker(c, s);
    s := Sleep(c, s, w);
    s := PutMany(c, s, p, c.maxNum);
    s := Wake(c, s, w);
    ReachedInv(c, s);
    VacantFromStart(s.sh.slots, 0);
    assert s.sh.slots[0..] == s.sh.slots;
  }

  // A worker finds the ring empty and sleeps, and the manager orders exits.
  lemma Sleep(c: Conf, s: State, w: Tid) returns (s': State)
    requires Rest(c, s) && s.sh.size == 0 && s.sh.live > c.minNum && c.variant.Stale?
    requires w in s.workers && s.workers[w].Ready?
    ensures Reached(c, s')
    ensures s' == s.(workers := s.workers[w := Sleeping], sh := s.sh.(exitNum := NUMBER))
  {
    RestFacts(c, s);
    hide Reached;
    s' := Go(c, s, Lock(w));
    s' := Go(c, s', TestEmpty(w));
    s' := PoolStale.OrderExits(c, s');
  }

  // It wakes up and retires, but has not cleared its slot yet.
  lemma Wake(c: Conf, s: State, w: Tid) returns (s': State)
    requires Reached(c, s) && s.lock.Free? && s.sh.exitNum > 0 && s.sh.live > c.minNum
    requires w in s.workers && s.workers[w].Sleeping?
    ensures Reached(c, s') && s'.sh == s.sh.(exitNum := s.sh.exitNum - 1, live := s.sh.live - 1)
    ensures s'.manager == s.manager && s'.lock == s.lock
  {
    hide Reached;
    s' := Go(c, s, WakeWorker(w));
  }
}
