// Building runs of the pool: whole calls, whole turns of the manager, and workers that come and
// go, each as the steps it consists of.

module PoolRuns {
  import opened PoolModel
  import opened PoolSafety
  import PoolFifo

  // ---------- Start states and reachable states ----------

  function Ids(n: nat): seq<Tid> {
    seq(n, i => i + 1)
  }

  ghost function Start(c: Conf): State
    requires c.minNum <= c.maxNum
  {
    State(Shared(seq(c.capacity, _ => 0), 0, 0, 0, Ids(c.minNum) + seq(c.maxNum - c.minNum, _ => 0), c.minNum, 0, 0, false),
          map p | p in c.callers :: Outside, map w | w in Ids(c.minNum) :: Ready, AtTop, Free, [], [])
  }

  ghost predicate Reached(c: Conf, s: State) {
    c.minNum <= c.maxNum && exists acts :: Runs(c, Start(c), acts, s)
  }

  lemma StartInit(c: Conf)
    requires c.minNum <= c.maxNum
    ensures Init(c, Start(c), Ids(c.minNum)) && Reached(c, Start(c))
  {
    assert Runs(c, Start(c), [], Start(c));
  }

  lemma {:induction false} RunsThen(c: Conf, s: State, acts: seq<Action>, s': State, a: Action)
    requires Runs(c, s, acts, s') && Enabled(c, s', a)
    ensures Runs(c, s, acts + [a], Next(c, s', a))
    decreases |acts|
  {
    hide Enabled, Next;
    if acts == [] {
      assert [a][1..] == [] && Runs(c, Next(c, s, a), [], Next(c, s, a));
    } else {
      RunsThen(c, Next(c, s, acts[0]), acts[1..], s', a);
      assert (acts + [a])[1..] == acts[1..] + [a];
    }
  }

  // One more step.
  lemma Go(c: Conf, s: State, a: Action) returns (s': State)
    requires Reached(c, s) && Enabled(c, s, a)
    ensures s' == Next(c, s, a) && Reached(c, s')
  {
    hide Enabled, Next, Runs;
    var acts :| Runs(c, Start(c), acts, s);
    RunsThen(c, Start(c), acts, s, a);
    s' := Next(c, s, a);
  }

  lemma ReachedInv(c: Conf, s: State)
    requires Reached(c, s)
    ensures PoolInv(c, s)
  {
    hide Runs, Init, PoolInv;
    var acts :| Runs(c, Start(c), acts, s);
    StartInit(c);
    InitInv(c, Start(c), Ids(c.minNum));
    RunInv(c, Start(c), acts, s);
  }

  // ---------- Rest ----------

  // The pool is open, nobody is inside a call, a task or a manager's turn.
  ghost predicate Rest(c: Conf, s: State) {
    && Reached(c, s) && s.lock.Free? && !s.sh.shutdown && s.manager.AtTop?
    && (forall p :: p in s.producers ==> s.producers[p].Outside?)
    && (forall w :: w in s.workers ==> s.workers[w].Ready? || s.workers[w].Retired?)
  }

  lemma StartRests(c: Conf)
    requires c.minNum <= c.maxNum
    ensures Rest(c, Start(c))
  {
    StartInit(c);
  }

  lemma RestFacts(c: Conf, s: State)
    requires Rest(c, s)
    ensures s.producers.Keys == c.callers && |s.sh.slots| == c.maxNum && s.sh.busy == 0 && s.sh.size >= 0
    ensures c.minNum <= s.sh.live && Occupied(s.sh.slots) == s.sh.live
  {
    ReachedInv(c, s);
    assert Those(Busy, s.workers) == {} == Those(Gone, s.workers) && Those(Departing, s.workers) == {};
    SlotsAndCounts(c, s);
  }

  lemma SomeMember<T>(m: set<T>) returns (x: T)
    requires m != {}
    ensures x in m
  {
    x :| x in m;
  }

  lemma SomeWorker(c: Conf, s: State) returns (w: Tid)
    requires Rest(c, s) && s.sh.live > 0
    ensures w in s.workers && s.workers[w].Ready?
  {
    ReachedInv(c, s);
    w := SomeMember(Those(Live, s.workers));
  }

  // ---------- Whole calls of producers and workers ----------

  // Only the ring and its records differ.
  predicate OnlyRing(s: State, s': State) {
    s' == s.(sh := s.sh.(taskQ := s'.sh.taskQ, front := s'.sh.front, rear := s'.sh.rear, size := s'.sh.size),
             accepted := s'.accepted, taken := s'.taken)
  }

  // One complete threadPoolAdd that finds room.
  lemma PutOne(c: Conf, s: State, p: int) returns (s': State)
    requires Reached(c, s) && s.lock.Free? && !s.sh.shutdown
    requires p in c.callers && p in s.producers && s.producers[p].Outside? && s.sh.size != c.capacity
    ensures Reached(c, s') && OnlyRing(s, s') && s'.sh.size == s.sh.size + 1
  {
    hide Reached;
    s' := Go(c, s, Call(p, 0));
    s' := Go(c, s', TestFull(p));
    s' := Go(c, s', Decide(p));
    s' := Go(c, s', DoPut(p));
    assert s'.producers == s.producers;
  }

  // A call that finds the ring full blocks.
  lemma Block(c: Conf, s: State, p: int) returns (s': State)
    requires Reached(c, s) && s.lock.Free? && !s.sh.shutdown && s.sh.size == c.capacity
    requires p in c.callers && p in s.producers && s.producers[p].Outside?
    ensures Reached(c, s') && s' == s.(producers := s.producers[p := Blocked(0, false)])
  {
    hide Reached;
    s' := Go(c, s, Call(p, 0));
    s' := Go(c, s', TestFull(p));
    assert s'.producers == s.producers[p := Blocked(0, false)];
  }

  // A producer that does not test again puts its task whatever the ring holds.
  lemma WakeAndPut(c: Conf, s: State, p: int) returns (s': State)
    requires Reached(c, s) && s.lock.Free? && !s.sh.shutdown && !c.rechecks
    requires p in s.producers && s.producers[p].Blocked? && (c.spurious || s.producers[p].signalled)
    ensures Reached(c, s') && OnlyRing(s.(producers := s.producers[p := Outside]), s') && s'.sh.size == s.sh.size + 1
  {
    hide Reached;
    s' := Go(c, s, WakeProducer(p));
    s' := Go(c, s', Decide(p));
    s' := Go(c, s', DoPut(p));
    assert s'.producers == s.producers[p := Outside];
  }

  // A worker takes one task, signals the producers and runs the task.
  lemma TakeOne(c: Conf, s: State, w: Tid) returns (s': State)
    requires Reached(c, s) && s.lock.Free? && !s.sh.shutdown && s.sh.size > 0
    requires w in s.workers && s.workers[w].Ready?
    ensures Reached(c, s') && OnlyRing(s.(producers := Signalled(s.producers)), s') && s'.sh.size == s.sh.size - 1
  {
    hide Reached;
    s' := Go(c, s, Lock(w));
    s' := Go(c, s', TestEmpty(w));
    s' := Go(c, s', Judge(w));
    s' := Go(c, s', DoTake(w));
    s' := Go(c, s', BusyUp(w));
    s' := Go(c, s', BusyDown(w));
    assert s'.workers == s.workers;
  }

  lemma SignalNobody(m: map<int, Producer>)
    requires forall p :: p in m ==> m[p].Outside?
    ensures Signalled(m) == m
  {
    assert Signalled(m).Keys == m.Keys;
    forall p | p in m.Keys ensures Signalled(m)[p] == m[p] {
      assert m[p].Outside?;
    }
  }

  lemma SignalOne(m: map<int, Producer>, p: int)
    requires p in m && forall q :: q in m ==> m[q].Outside?
    ensures Signalled(m[p := Blocked(0, false)]) == m[p := Blocked(0, true)]
  {
    var b := m[p := Blocked(0, false)];
    assert Signalled(b).Keys == b.Keys == m[p := Blocked(0, true)].Keys;
    forall q | q in b.Keys ensures Signalled(b)[q] == m[p := Blocked(0, true)][q] {
      if q != p { assert m[q].Outside?; }
    }
  }

  lemma {:induction false} Drain(c: Conf, s: State) returns (s': State)
    requires Rest(c, s) && s.sh.live > 0
    ensures Rest(c, s') && OnlyRing(s, s') && s'.sh.size == 0
    decreases s.sh.size
  {
    RestFacts(c, s);
    s' := s;
    if s.sh.size > 0 {
      var w := SomeWorker(c, s);
      s' := TakeOne(c, s, w);
      SignalNobody(s.producers);
      s' := Drain(c, s');
    }
  }

  // ---------- Filling the ring, and more ----------

  // The ring is full and is made to overflow by one task.
  lemma Burst(c: Conf, s: State) returns (s': State)
    requires Rest(c, s) && !PoolFifo.Careful(c) && s.sh.size == c.capacity && (c.spurious || s.sh.live > 0)
    ensures Rest(c, s') && OnlyRing(s, s') && s'.sh.size == c.capacity + 1
  {
    RestFacts(c, s);
    if c.spurious {
      var p := SomeMember(c.callers);
      s' := Block(c, s, p);
      s' := WakeAndPut(c, s', p);
      assert s'.producers == s.producers;
    } else {
      assert !PoolFifo.Single(c);
      var p, q :| p in c.callers && q in c.callers && p != q;
      s' := CrowdedBurst(c, s, p, q);
    }
  }

  // One producer blocks, a worker makes room and signals it, and another producer takes the room.
  lemma CrowdedBurst(c: Conf, s: State, p: int, q: int) returns (s': State)
    requires Rest(c, s) && !c.rechecks && s.sh.size == c.capacity > 0 && s.sh.live > 0
    requires p in c.callers && q in c.callers && p != q
    ensures Rest(c, s') && OnlyRing(s, s') && s'.sh.size == c.capacity + 1
  {
    RestFacts(c, s);
    var w := SomeWorker(c, s);
    s' := Block(c, s, p);
    s' := TakeOne(c, s', w);
    SignalOne(s.producers, p);
    s' := PutOne(c, s', q);
    s' := WakeAndPut(c, s', p);
    assert s'.producers == s.producers;
  }

  // At least `n` tasks wait.
  lemma {:induction false} Flood(c: Conf, s: State, n: nat) returns (s': State)
    requires Rest(c, s) && c.callers != {}
    requires n <= c.capacity || (!PoolFifo.Careful(c) && (c.spurious || s.sh.live > 0))
    ensures Rest(c, s') && OnlyRing(s, s') && s'.sh.size >= n
    decreases n - s.sh.size
  {
    RestFacts(c, s);
    s' := s;
    if s.sh.size < n {
      if s.sh.size == c.capacity {
        s' := Burst(c, s);
      } else {
        var p := SomeMember(c.callers);
        s' := PutOne(c, s, p);
      }
      s' := Flood(c, s', n);
    }
  }

  // ---------- A turn of the manager ----------

  // An id that no thread has.
  lemma {:induction false} AboveAll(ws: set<Tid>) returns (t: Tid)
    ensures t > 0 && forall w: Tid :: w in ws ==> w < t
  {
    if ws == {} {
      t := 1;
    } else {
      var x := SomeMember(ws);
      var u := AboveAll(ws - {x});
      t := if x < u then u else x + 1;
      forall w: Tid | w in ws ensures w < t {
        assert w == x || w in ws - {x};
      }
    }
  }

  // Free slots from `i` on.
  function Vacant(slots: seq<Tid>, i: nat): nat
    requires i <= |slots|
    decreases |slots| - i
  {
    if i == |slots| then 0 else One(slots[i] == 0) + Vacant(slots, i + 1)
  }

  lemma {:induction false} VacantFromStart(slots: seq<Tid>, i: nat)
    requires i <= |slots|
    ensures Vacant(slots, i) + Occupied(slots[i..]) == |slots| - i
    decreases |slots| - i
  {
    if i < |slots| {
      VacantFromStart(slots, i + 1);
      assert slots[i..][0] == slots[i] && slots[i..][1..] == slots[i + 1..];
    }
  }

  lemma {:induction false} VacantBehind(slots: seq<Tid>, i: nat, j: nat, w: Tid)
    requires i < j <= |slots|
    ensures Vacant(slots[i := w], j) == Vacant(slots, j)
    decreases |slots| - j
  {
    if j < |slots| { VacantBehind(slots, i, j + 1, w); }
  }

  function Least(a: int, b: int): int { if a < b then a else b }

  // The same state, but for new workers that are ready and their slots.
  ghost predicate Grew(s: State, s': State) {
    && s' == s.(manager := s'.manager, lock := s'.lock, workers := s'.workers,
                sh := s.sh.(slots := s'.sh.slots, live := s'.sh.live))
    && (forall w :: w in s'.workers ==> if w in s.workers then s'.workers[w] == s.workers[w] else s'.workers[w].Ready?)
  }

  // The grow loop fills free slots, up to NUMBER of them.
  lemma {:induction false} GrowLoop(c: Conf, s: State) returns (s': State)
    requires Reached(c, s) && s.manager.Growing? && s.lock.ByManager? && |s.sh.slots| == c.maxNum
    requires s.manager.i <= c.maxNum && s.manager.counter <= NUMBER && s.manager.l < c.maxNum
    requires !c.variant.Stale? ==> s.sh.live + Vacant(s.sh.slots, s.manager.i) <= c.maxNum
    ensures Reached(c, s') && Grew(s, s') && s'.lock.Free? && s'.manager == Weighing(s.manager.l, s.manager.b)
    ensures s'.sh.live == s.sh.live + Least(NUMBER - s.manager.counter, Vacant(s.sh.slots, s.manager.i))
    decreases c.maxNum - s.manager.i
  {
    hide Reached;
    var t := AboveAll(s.workers.Keys);
    assert t !in s.workers.Keys;
    s' := Go(c, s, Manage(t));
    if s'.manager.Growing? {
      VacantBehind(s.sh.slots, s.manager.i, s.manager.i + 1, t);
      s' := GrowLoop(c, s');
    }
  }

  // From the tests for shrinking back to the top of the manager's loop.
  lemma EndTurn(c: Conf, s: State) returns (s': State)
    requires Reached(c, s) && s.lock.Free? && s.manager.Weighing?
    ensures Reached(c, s') && s' == s.(manager := AtTop, sh := s.sh.(exitNum := s'.sh.exitNum))
  {
    hide Reached;
    s' := Go(c, s, Manage(0));
    if s'.manager.Halving? { s' := Go(c, s', Manage(0)); }
    if s'.manager.Flooring? { s' := Go(c, s', Manage(0)); }
    if s'.manager.Shrinking? { s' := Go(c, s', Manage(0)); }
  }

  // The manager takes its copies.
  lemma Count(c: Conf, s: State) returns (s': State)
    requires Reached(c, s) && s.lock.Free? && !s.sh.shutdown && s.manager.AtTop?
    ensures Reached(c, s') && s' == s.(manager := Choosing(s.sh.size, s.sh.live, s.sh.busy))
  {
    hide Reached;
    s' := Go(c, s, Manage(0));
    s' := Go(c, s', Manage(0));
    if c.variant.Manager2? { s' := Go(c, s', Manage(0)); }
  }

  // With more tasks than workers, a turn adds as many workers as it may.
  lemma Grow(c: Conf, s: State) returns (s': State)
    requires Rest(c, s) && s.sh.live < c.maxNum && s.sh.live < s.sh.size
    ensures Rest(c, s') && s'.sh.size == s.sh.size && s'.producers == s.producers
    ensures s'.sh.live == s.sh.live + Least(NUMBER, c.maxNum - s.sh.live)
  {
    RestFacts(c, s);
    VacantFromStart(s.sh.slots, 0);
    assert s.sh.slots[0..] == s.sh.slots;
    hide Reached;
    s' := Count(c, s);
    s' := Go(c, s', Manage(0));
    s' := GrowLoop(c, s');
    s' := EndTurn(c, s');
  }
}
