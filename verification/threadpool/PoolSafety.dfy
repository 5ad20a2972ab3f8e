// What every interleaving of the pool keeps: mutual exclusion, no read from an empty ring, the
// thread counts and the thread slots.

module PoolSafety {
  import opened PoolModel

  predicate IsProducer(a: Action) {
    a.Call? || a.TestFull? || a.WakeProducer? || a.Decide? || a.DoPut?
  }

  predicate IsManager(a: Action) {
    a.Manage? || a.Shutdown?
  }

  // ---------- The lock ----------

  // Exactly the holder is inside a locked region.
  ghost predicate LockInv(c: Conf, s: State) {
    && (forall p :: p in s.producers ==> (s.producers[p].Holds() <==> s.lock == ByProducer(p)))
    && (forall w :: w in s.workers ==> (s.workers[w].Holds() <==> s.lock == ByWorker(w)))
    && (s.manager.Growing? <==> s.lock == ByManager)
    && (s.lock.ByProducer? ==> s.lock.p in s.producers)
    && (s.lock.ByWorker? ==> s.lock.w in s.workers)
    && s.producers.Keys == c.callers
    && |s.sh.slots| == c.maxNum && |s.sh.taskQ| == c.capacity
  }

  lemma LockKeptByProducer(c: Conf, s: State, a: Action)
    requires LockInv(c, s) && Enabled(c, s, a) && IsProducer(a)
    ensures LockInv(c, Next(c, s, a))
  {
  }

  lemma LockKeptByWorker(c: Conf, s: State, a: Action)
    requires LockInv(c, s) && Enabled(c, s, a) && !IsProducer(a) && !IsManager(a)
    ensures LockInv(c, Next(c, s, a))
  {
  }

  lemma LockKeptByManager(c: Conf, s: State, a: Action)
    requires LockInv(c, s) && Enabled(c, s, a) && IsManager(a)
    ensures LockInv(c, Next(c, s, a))
  {
  }

  lemma LockKept(c: Conf, s: State, a: Action)
    requires LockInv(c, s) && Enabled(c, s, a)
    ensures LockInv(c, Next(c, s, a))
  {
    hide LockInv, Enabled, Next;
    if IsProducer(a) {
      LockKeptByProducer(c, s, a);
    } else if IsManager(a) {
      LockKeptByManager(c, s, a);
    } else {
      LockKeptByWorker(c, s, a);
    }
  }

  // ---------- No task is read from an empty ring ----------

  // Shutdown is only ever set, so the shutdown test may rely on the queue test before it.
  ghost predicate WorkerInv(s: State) {
    && s.sh.size >= 0
    && forall w :: w in s.workers ==>
         (s.workers[w].Judging? ==> s.sh.size > 0 || s.sh.shutdown) && (s.workers[w].Taking? ==> s.sh.size > 0)
  }

  lemma WorkerKept(c: Conf, s: State, a: Action)
    requires LockInv(c, s) && WorkerInv(s) && Enabled(c, s, a)
    ensures WorkerInv(Next(c, s, a))
  {
  }

  // ---------- Counting workers ----------

  datatype Kind = Live | Busy | Slotted | Departing | Gone

  predicate Is(k: Kind, w: Worker) {
    match k
    case Live => !w.Retiring? && !w.Retired?     // counted in liveNum
    case Busy => w.Running?
    case Slotted => !w.Retired? && !w.Left?      // still has its slot
    case Departing => w.Retiring?                // counted out, slot not cleared yet
    case Gone => w.Left?                         // left through shutdown, slot cleared
  }

  function Those(k: Kind, m: map<Tid, Worker>): set<Tid> {
    set w | w in m && Is(k, m[w])
  }

  function One(b: bool): nat {
    if b then 1 else 0
  }

  // One worker moves from one place to another.
  lemma Moved(k: Kind, m: map<Tid, Worker>, w: Tid, x: Worker)
    ensures |Those(k, m[w := x])| == |Those(k, m)| - One(w in m && Is(k, m[w])) + One(Is(k, x))
  {
    hide Those, Is;
    MovedSet(k, m, w, x);
    Plus(Those(k, m), w);
    Minus(Those(k, m), w);
  }

  lemma MovedSet(k: Kind, m: map<Tid, Worker>, w: Tid, x: Worker)
    ensures Those(k, m[w := x]) == if Is(k, x) then Those(k, m) + {w} else Those(k, m) - {w}
    ensures w in Those(k, m) <==> w in m && Is(k, m[w])
  {
  }

  lemma Plus(a: set<Tid>, w: Tid)
    ensures |a + {w}| == |a| + One(w !in a)
  {
    if w in a { assert a + {w} == a; }
  }

  lemma Minus(a: set<Tid>, w: Tid)
    ensures |a - {w}| == |a| - One(w in a)
  {
    if w !in a { assert a - {w} == a; }
  }

  lemma Subset(k: Kind, k': Kind, m: map<Tid, Worker>)
    requires forall x: Worker :: Is(k, x) ==> Is(k', x)
    ensures |Those(k, m)| <= |Those(k', m)|
  {
    SetSize(Those(k, m), Those(k', m));
  }

  lemma {:induction false} SetSize(a: set<Tid>, b: set<Tid>)
    requires a <= b
    ensures |a| <= |b|
  {
    if a != {} {
      var x :| x in a;
      SetSize(a - {x}, b - {x});
    }
  }

  // liveNum counts the workers that have not retired, busyNum those between its two updates.
  ghost predicate CountInv(c: Conf, s: State) {
    && c.minNum <= s.sh.live && 0 <= s.sh.exitNum <= NUMBER
    && s.sh.live == |Those(Live, s.workers)|
    && s.sh.busy == |Those(Busy, s.workers)|
  }

  lemma CountKeptByWorker(c: Conf, s: State, a: Action)
    requires LockInv(c, s) && CountInv(c, s) && Enabled(c, s, a) && !IsProducer(a) && !IsManager(a)
    ensures CountInv(c, Next(c, s, a))
  {
    hide Those, LockInv;
    var w, s' := a.w, Next(c, s, a);
    Moved(Live, s.workers, w, s'.workers[w]);
    Moved(Busy, s.workers, w, s'.workers[w]);
  }

  lemma CountKeptByOthers(c: Conf, s: State, a: Action)
    requires LockInv(c, s) && CountInv(c, s) && Enabled(c, s, a) && (IsProducer(a) || IsManager(a))
    ensures CountInv(c, Next(c, s, a))
  {
    hide Those, LockInv;
    if a.Manage? {
      Moved(Live, s.workers, a.tid, Ready);
      Moved(Busy, s.workers, a.tid, Ready);
    }
  }

  lemma CountKept(c: Conf, s: State, a: Action)
    requires LockInv(c, s) && CountInv(c, s) && Enabled(c, s, a)
    ensures CountInv(c, Next(c, s, a))
  {
    hide LockInv, CountInv, Enabled, Next;
    if IsProducer(a) || IsManager(a) { CountKeptByOthers(c, s, a); } else { CountKeptByWorker(c, s, a); }
  }

  lemma BusyAtMostLive(c: Conf, s: State)
    requires CountInv(c, s)
    ensures 0 <= s.sh.busy <= s.sh.live
  {
    Subset(Busy, Live, s.workers);
  }

  // ---------- Thread slots ----------

  // The occupied slots hold exactly the threads `ws`, each of them once.
  ghost predicate SlotsHold(slots: seq<Tid>, ws: set<Tid>) {
    && (forall i :: 0 <= i < |slots| && slots[i] != 0 ==> slots[i] in ws)
    && (forall i, j :: 0 <= i < j < |slots| && slots[i] != 0 ==> slots[i] != slots[j])
    && (forall w :: w in ws ==> w in slots && w != 0)
  }

  // How far a worker's scan has come.
  function Passed(x: Worker): nat {
    match x
    case Retiring(i) => i
    case Leaving(i) => i
    case _ => 0
  }

  // A worker's own slot is not among those that its scan has passed.
  ghost predicate ScanInv(s: State) {
    forall w, i :: w in s.workers && 0 <= i < |s.sh.slots| && i < Passed(s.workers[w]) ==> s.sh.slots[i] != w
  }

  // Every worker that has not cleared its slot has exactly one, and nobody else has one.
  ghost predicate SlotInv(s: State) {
    0 !in s.workers && SlotsHold(s.sh.slots, Those(Slotted, s.workers)) && ScanInv(s)
  }

  lemma ClearedMeaning(slots: seq<Tid>, ws: set<Tid>, w: Tid)
    requires SlotsHold(slots, ws) && w in ws
    ensures SlotsHold(Cleared(slots, w), ws - {w})
  {
    var at :| 0 <= at < |slots| && slots[at] == w;
    ClearedIs(slots, w, at);
    FreedMeaning(slots, ws, at);
  }

  lemma FreedMeaning(slots: seq<Tid>, ws: set<Tid>, at: nat)
    requires SlotsHold(slots, ws) && at < |slots| && slots[at] in ws
    ensures SlotsHold(slots[at := 0], ws - {slots[at]})
  {
    var w := slots[at];
    forall x | x in ws - {w} ensures x in slots[at := 0] {
      var i :| 0 <= i < |slots| && slots[i] == x;
      assert slots[at := 0][i] == x;
    }
  }

  lemma {:induction false} ClearedIs(slots: seq<Tid>, w: Tid, at: nat)
    requires at < |slots| && slots[at] == w
    requires forall i :: 0 <= i < |slots| && i != at ==> slots[i] != w
    ensures Cleared(slots, w) == slots[at := 0]
  {
    if at > 0 {
      ClearedIs(slots[1..], w, at - 1);
    }
  }

  lemma FilledMeaning(slots: seq<Tid>, ws: set<Tid>, i: nat, w: Tid)
    requires SlotsHold(slots, ws) && i < |slots| && slots[i] == 0 && w != 0 && w !in ws
    ensures SlotsHold(slots[i := w], ws + {w})
  {
    var slots' := slots[i := w];
    forall x | x in ws + {w} ensures x in slots' {
      if x == w {
        assert slots'[i] == x;
      } else {
        var j :| 0 <= j < |slots| && slots[j] == x;
        assert slots'[j] == x;
      }
    }
  }

  // The scan finds its slot: it does not run off the end.
  lemma ScanEnds(s: State, w: Tid)
    requires SlotInv(s) && w in s.workers && (s.workers[w].Retiring? || s.workers[w].Leaving?)
    ensures Passed(s.workers[w]) < |s.sh.slots|
  {
    assert w in Those(Slotted, s.workers);
    var at :| 0 <= at < |s.sh.slots| && s.sh.slots[at] == w;
  }

  lemma ScanStepKept(c: Conf, s: State, w: Tid)
    requires SlotInv(s) && Enabled(c, s, Scan(w)) && |s.sh.slots| == c.maxNum
    ensures SlotInv(Next(c, s, Scan(w)))
  {
    hide SlotsHold, Those;
    var s' := Next(c, s, Scan(w));
    ScanEnds(s, w);
    MovedSet(Slotted, s.workers, w, s'.workers[w]);
    if s.sh.slots[s.workers[w].i] == w {
      FreedMeaning(s.sh.slots, Those(Slotted, s.workers), s.workers[w].i);
    } else {
      assert Those(Slotted, s.workers) + {w} == Those(Slotted, s.workers);
    }
  }

  lemma SlotKeptByWorker(c: Conf, s: State, a: Action)
    requires SlotInv(s) && Enabled(c, s, a) && !IsProducer(a) && !IsManager(a) && !a.Scan?
    ensures SlotInv(Next(c, s, a))
  {
    hide SlotsHold, Those;
    MovedSet(Slotted, s.workers, a.w, Next(c, s, a).workers[a.w]);
    assert Those(Slotted, s.workers) + {a.w} == Those(Slotted, s.workers);
  }

  lemma SlotKeptByOthers(c: Conf, s: State, a: Action)
    requires SlotInv(s) && Enabled(c, s, a) && (IsProducer(a) || IsManager(a))
    ensures SlotInv(Next(c, s, a))
  {
    hide SlotsHold, Those;
    if a.Manage? && Creates(c, s) {
      MovedSet(Slotted, s.workers, a.tid, Ready);
      FilledMeaning(s.sh.slots, Those(Slotted, s.workers), s.manager.i, a.tid);
    }
  }

  lemma SlotKept(c: Conf, s: State, a: Action)
    requires SlotInv(s) && |s.sh.slots| == c.maxNum && Enabled(c, s, a)
    ensures SlotInv(Next(c, s, a))
  {
    hide SlotInv, Enabled, Next;
    if a.Scan? {
      ScanStepKept(c, s, a.w);
    } else if IsProducer(a) || IsManager(a) {
      SlotKeptByOthers(c, s, a);
    } else {
      SlotKeptByWorker(c, s, a);
    }
  }

  // Number of occupied slots.
  function Occupied(slots: seq<Tid>): nat {
    if slots == [] then 0 else One(slots[0] != 0) + Occupied(slots[1..])
  }

  lemma {:induction false} OccupiedCounts(slots: seq<Tid>, ws: set<Tid>)
    requires SlotsHold(slots, ws)
    ensures Occupied(slots) == |ws| <= |slots|
  {
    if slots == [] {
      assert ws == {};
    } else {
      OccupiedCounts(slots[1..], ws - {slots[0]});
      Minus(ws, slots[0]);
    }
  }

  // Occupied slots, plus those already given up through shutdown, are the live workers and
  // the retired ones that still sit in their slot.
  lemma SlotsAndCounts(c: Conf, s: State)
    requires SlotInv(s) && CountInv(c, s)
    ensures Occupied(s.sh.slots) + |Those(Gone, s.workers)| == s.sh.live + |Those(Departing, s.workers)|
    ensures Occupied(s.sh.slots) <= |s.sh.slots|
  {
    OccupiedCounts(s.sh.slots, Those(Slotted, s.workers));
    Partition(s.workers);
  }

  lemma Partition(m: map<Tid, Worker>)
    ensures |Those(Slotted, m)| + |Those(Gone, m)| == |Those(Live, m)| + |Those(Departing, m)|
  {
    var a, b, d, e := Those(Slotted, m), Those(Gone, m), Those(Live, m), Those(Departing, m);
    assert a + b == d + e;
    Sizes(a, b);
    Sizes(d, e);
  }

  lemma Sizes(a: set<Tid>, b: set<Tid>)
    requires a !! b
    ensures |a + b| == |a| + |b|
  {
  }

  // ---------- Everything together ----------

  // The manager's copy of liveNum is out of date in one direction only: workers may have retired
  // since. While it grows the pool it adds at most NUMBER workers to that copy, and managers that
  // test liveNum itself never let it pass maxNum.
  ghost predicate GrowthInv(c: Conf, s: State) {
    && s.sh.live <= (if c.variant.Stale? then c.maxNum + NUMBER - 1 else c.maxNum)
    && match s.manager
       case Counted(q, l) => c.minNum <= l && s.sh.live <= l
       case Choosing(q, l, b) => c.minNum <= l && s.sh.live <= l
       case Growing(i, counter, l, b) =>
         && c.minNum <= l < c.maxNum && s.sh.live <= l + counter
         && counter <= NUMBER && counter <= i <= c.maxNum
       case _ => true
  }

  // Only the manager raises liveNum.
  lemma OthersDoNotGrow(c: Conf, s: State, a: Action)
    requires Enabled(c, s, a) && !IsManager(a)
    ensures Next(c, s, a).manager == s.manager && Next(c, s, a).sh.live <= s.sh.live
  {
  }

  lemma GrowthKeptByManager(c: Conf, s: State, a: Action)
    requires GrowthInv(c, s) && c.minNum <= s.sh.live && Enabled(c, s, a) && IsManager(a)
    ensures GrowthInv(c, Next(c, s, a))
  {
  }

  lemma GrowthKept(c: Conf, s: State, a: Action)
    requires GrowthInv(c, s) && c.minNum <= s.sh.live && Enabled(c, s, a)
    ensures GrowthInv(c, Next(c, s, a))
  {
    hide Enabled, Next;
    if IsManager(a) { GrowthKeptByManager(c, s, a); } else { OthersDoNotGrow(c, s, a); }
  }

  ghost predicate PoolInv(c: Conf, s: State) {
    LockInv(c, s) && WorkerInv(s) && CountInv(c, s) && SlotInv(s) && GrowthInv(c, s)
  }

  lemma InitSlots(c: Conf, s: State, ids: seq<Tid>)
    requires Init(c, s, ids)
    ensures SlotInv(s)
  {
    assert forall w :: w in Those(Slotted, s.workers) <==> w in ids;
    forall w | w in ids ensures w in s.sh.slots {
      var i :| 0 <= i < |ids| && ids[i] == w;
      assert s.sh.slots[i] == w;
    }
  }

  lemma InitCounts(c: Conf, s: State, ids: seq<Tid>)
    requires Init(c, s, ids)
    ensures CountInv(c, s)
  {
    assert Those(Busy, s.workers) == {};
    assert Those(Live, s.workers) == set w | w in ids;
    OccupiedCounts(ids, Those(Live, s.workers));
    AllOccupied(ids);
  }

  lemma {:induction false} AllOccupied(ids: seq<Tid>)
    requires forall i :: 0 <= i < |ids| ==> ids[i] != 0
    ensures Occupied(ids) == |ids|
  {
    if ids != [] { AllOccupied(ids[1..]); }
  }

  lemma InitInv(c: Conf, s: State, ids: seq<Tid>)
    requires Init(c, s, ids)
    ensures PoolInv(c, s)
  {
    InitSlots(c, s, ids);
    InitCounts(c, s, ids);
  }

  lemma InvFacts(c: Conf, s: State)
    requires LockInv(c, s) && CountInv(c, s)
    ensures |s.sh.slots| == c.maxNum && c.minNum <= s.sh.live
  {
  }

  lemma StepInv(c: Conf, s: State, a: Action)
    requires PoolInv(c, s) && Enabled(c, s, a)
    ensures PoolInv(c, Next(c, s, a))
  {
    hide Enabled, Next, LockInv, WorkerInv, CountInv, SlotInv, GrowthInv;
    LockKept(c, s, a);
    WorkerKept(c, s, a);
    CountKept(c, s, a);
    InvFacts(c, s);
    SlotKept(c, s, a);
    GrowthKept(c, s, a);
  }

  lemma {:induction false} RunInv(c: Conf, s: State, acts: seq<Action>, s': State)
    requires PoolInv(c, s) && Runs(c, s, acts, s')
    ensures PoolInv(c, s')
    decreases |acts|
  {
    hide Enabled, Next, PoolInv;
    if acts != [] {
      StepInv(c, s, acts[0]);
      RunInv(c, Next(c, s, acts[0]), acts[1..], s');
    }
  }

  // In every state any interleaving can reach, for each of the three pools.
  lemma PoolSafe(c: Conf, ids: seq<Tid>, s0: State, acts: seq<Action>, s: State)
    requires Init(c, s0, ids) && Runs(c, s0, acts, s)
    ensures c.minNum <= s.sh.live && 0 <= s.sh.exitNum <= NUMBER
    ensures s.sh.busy == |Those(Busy, s.workers)| <= s.sh.live == |Those(Live, s.workers)|
    ensures forall w :: w in s.workers && s.workers[w].Taking? ==> s.sh.size > 0
    ensures Occupied(s.sh.slots) + |Those(Gone, s.workers)| == s.sh.live + |Those(Departing, s.workers)|
    ensures s.sh.live <= c.maxNum + |Those(Gone, s.workers)| && s.sh.live <= c.maxNum + NUMBER - 1
    ensures !c.variant.Stale? || Those(Gone, s.workers) == {} ==> s.sh.live <= c.maxNum
  {
    hide Init, Runs, Those;
    InitInv(c, s0, ids);
    RunInv(c, s0, acts, s);
    BusyAtMostLive(c, s);
    SlotsAndCounts(c, s);
  }
}
