// What becomes of every call and of every task, over whole runs of the pool, and how far a
// shutdown or an order to exit reaches.

module PoolHistory {
  import opened PoolModel
  import opened PoolSafety
  import PoolFifo

  // ---------- A record of a run ----------

  // Accepted(i): the call returned after its put, the i-th of all. Rejected: it returned without.
  datatype Outcome = Pending | Accepted(i: nat) | Rejected

  datatype CallRec = CallRec(p: int, task: Task, outcome: Outcome)

  // `open` says which call a producer made last; `finished` the tasks that workers ran to the end.
  datatype History = History(calls: seq<CallRec>, open: map<int, nat>, finished: seq<Task>)

  const Blank := History([], map[], [])

  function Close(h: History, p: int, o: Outcome): History {
    if p in h.open && h.open[p] < |h.calls| then
      h.(calls := h.calls[h.open[p] := h.calls[h.open[p]].(outcome := o)])
    else h
  }

  function Record(c: Conf, h: History, s: State, a: Action): History
    requires Enabled(c, s, a)
  {
    match a
    case Call(p, task) => h.(calls := h.calls + [CallRec(p, task, Pending)], open := h.open[p := |h.calls|])
    case Decide(p) =>
      if p in Next(c, s, a).producers && Next(c, s, a).producers[p].Outside? then Close(h, p, Rejected) else h
    case DoPut(p) => Close(h, p, Accepted(|s.accepted|))
    case BusyDown(w) => h.(finished := h.finished + [s.workers[w].task])
    case _ => h
  }

  // A run and its record.
  ghost predicate Recorded(c: Conf, s: State, h: History, acts: seq<Action>, s': State, h': History)
    decreases |acts|
  {
    if acts == [] then s' == s && h' == h
    else Enabled(c, s, acts[0]) && Recorded(c, Next(c, s, acts[0]), Record(c, h, s, acts[0]), acts[1..], s', h')
  }

  lemma {:induction false} RecordedRuns(c: Conf, s: State, h: History, acts: seq<Action>, s': State, h': History)
    requires Recorded(c, s, h, acts, s', h')
    ensures Runs(c, s, acts, s')
    decreases |acts|
  {
    hide Enabled, Next, Record;
    if acts != [] { RecordedRuns(c, Next(c, s, acts[0]), Record(c, h, s, acts[0]), acts[1..], s', h'); }
  }

  // Every run has a record.
  lemma {:induction false} RunsRecorded(c: Conf, s: State, h: History, acts: seq<Action>, s': State) returns (h': History)
    requires Runs(c, s, acts, s')
    ensures Recorded(c, s, h, acts, s', h')
    decreases |acts|
  {
    hide Enabled, Next, Record;
    if acts == [] {
      h' := h;
    } else {
      h' := RunsRecorded(c, Next(c, s, acts[0]), Record(c, h, s, acts[0]), acts[1..], s');
    }
  }

  // ---------- The record holds the calls that were made ----------

  function CallsIn(acts: seq<Action>): seq<(int, Task)> {
    if acts == [] then []
    else (if acts[0].Call? then [(acts[0].p, acts[0].task)] else []) + CallsIn(acts[1..])
  }

  function Made(calls: seq<CallRec>): seq<(int, Task)> {
    seq(|calls|, i requires 0 <= i < |calls| => (calls[i].p, calls[i].task))
  }

  lemma RecordMade(c: Conf, h: History, s: State, a: Action)
    requires Enabled(c, s, a)
    ensures Made(Record(c, h, s, a).calls) == Made(h.calls) + if a.Call? then [(a.p, a.task)] else []
  {
    hide Enabled, Next;
  }

  lemma {:induction false} CallsRecorded(c: Conf, s: State, h: History, acts: seq<Action>, s': State, h': History)
    requires Recorded(c, s, h, acts, s', h')
    ensures Made(h'.calls) == Made(h.calls) + CallsIn(acts)
    decreases |acts|
  {
    hide Enabled, Next, Record, Made;
    if acts != [] {
      RecordMade(c, h, s, acts[0]);
      CallsRecorded(c, Next(c, s, acts[0]), Record(c, h, s, acts[0]), acts[1..], s', h');
    }
  }

  // ---------- What a call contributes ----------

  // Exactly the producers inside a call have a pending one, which holds the task they carry.
  ghost predicate PendingInv(s: State, h: History) {
    && (forall p :: p in s.producers && !s.producers[p].Outside? ==>
          && p in h.open && h.open[p] < |h.calls|
          && h.calls[h.open[p]] == CallRec(p, s.producers[p].task, Pending))
    && (forall n :: 0 <= n < |h.calls| && h.calls[n].outcome.Pending? ==>
          && h.calls[n].p in s.producers && !s.producers[h.calls[n].p].Outside?
          && h.calls[n].p in h.open && h.open[h.calls[n].p] == n)
  }

  ghost predicate IsPut(h: History, n: int, i: nat) {
    0 <= n < |h.calls| && h.calls[n].outcome == Accepted(i)
  }

  // Accepted entries and accepted calls are the same, one by one, with the same task; a call is
  // rejected only in a pool that shuts down.
  ghost predicate OutcomeInv(s: State, h: History) {
    && (forall n, i: nat :: IsPut(h, n, i) ==> i < |s.accepted| && s.accepted[i] == h.calls[n].task)
    && (forall n, m, i: nat :: IsPut(h, n, i) && IsPut(h, m, i) ==> n == m)
    && (forall i: nat :: i < |s.accepted| ==> Somebody(h, i))
    && (forall n :: 0 <= n < |h.calls| && h.calls[n].outcome.Rejected? ==> s.sh.shutdown)
  }

  ghost predicate Somebody(h: History, i: nat) {
    exists n :: IsPut(h, n, i)
  }

  ghost predicate CallInv(s: State, h: History) {
    PendingInv(s, h) && OutcomeInv(s, h)
  }

  // Nobody enters or leaves a call, and nobody's task changes.
  ghost predicate SameCalls(s: State, s': State) {
    && s'.producers.Keys == s.producers.Keys
    && (forall p :: p in s.producers ==> (s'.producers[p].Outside? <==> s.producers[p].Outside?))
    && (forall p :: p in s.producers && !s.producers[p].Outside? ==> s'.producers[p].task == s.producers[p].task)
    && s'.accepted == s.accepted && (s.sh.shutdown ==> s'.sh.shutdown)
  }

  lemma SameCallsKeep(s: State, s': State, h: History, h': History)
    requires CallInv(s, h) && SameCalls(s, s') && h'.calls == h.calls && h'.open == h.open
    ensures CallInv(s', h')
  {
    assert forall n, i: nat :: IsPut(h', n, i) <==> IsPut(h, n, i);
    forall i: nat | i < |s'.accepted| ensures Somebody(h', i) {
      assert Somebody(h, i);
      var n :| IsPut(h, n, i);
      assert IsPut(h', n, i);
    }
  }

  // The steps that neither begin nor end a call.
  predicate Inner(c: Conf, s: State, a: Action) {
    !a.Call? && !a.DoPut? && (a.Decide? ==> !s.sh.shutdown)
  }

  lemma InnerSame(c: Conf, s: State, h: History, a: Action)
    requires Enabled(c, s, a) && Inner(c, s, a)
    ensures SameCalls(s, Next(c, s, a))
    ensures Record(c, h, s, a).calls == h.calls && Record(c, h, s, a).open == h.open
  {
  }

  // A call begins.
  lemma CallBegins(s: State, s': State, h: History, h': History, p: int, task: Task)
    requires CallInv(s, h) && p in s.producers && s.producers[p].Outside?
    requires s'.producers == s.producers[p := Testing(task)] && s'.accepted == s.accepted && s'.sh == s.sh
    requires h' == h.(calls := h.calls + [CallRec(p, task, Pending)], open := h.open[p := |h.calls|])
    ensures CallInv(s', h')
  {
    assert forall n, i: nat :: IsPut(h', n, i) <==> IsPut(h, n, i);
    forall i: nat | i < |s'.accepted| ensures Somebody(h', i) {
      assert Somebody(h, i);
      var n :| IsPut(h, n, i);
      assert IsPut(h', n, i);
    }
  }

  // A call ends.
  lemma CallEnds(s: State, s': State, h: History, p: int, o: Outcome)
    requires CallInv(s, h) && p in s.producers && !s.producers[p].Outside?
    requires s'.producers == s.producers[p := Outside] && !o.Pending?
    ensures PendingInv(s', Close(h, p, o))
  {
  }

  lemma PutEnds(s: State, s': State, h: History, p: int)
    requires CallInv(s, h) && p in s.producers && !s.producers[p].Outside?
    requires s'.accepted == s.accepted + [s.producers[p].task] && s'.sh.shutdown == s.sh.shutdown
    ensures OutcomeInv(s', Close(h, p, Accepted(|s.accepted|)))
  {
    var k, h' := h.open[p], Close(h, p, Accepted(|s.accepted|));
    assert forall n, i: nat :: IsPut(h', n, i) <==> if n == k then i == |s.accepted| else IsPut(h, n, i);
    forall i: nat | i < |s'.accepted| ensures Somebody(h', i) {
      if i == |s.accepted| {
        assert IsPut(h', k, i);
      } else {
        assert Somebody(h, i);
        var n :| IsPut(h, n, i);
        assert IsPut(h', n, i);
      }
    }
  }

  lemma RejectEnds(s: State, s': State, h: History, p: int)
    requires CallInv(s, h) && p in s.producers && !s.producers[p].Outside?
    requires s'.accepted == s.accepted && s'.sh.shutdown && s.sh.shutdown
    ensures OutcomeInv(s', Close(h, p, Rejected))
  {
    var k, h' := h.open[p], Close(h, p, Rejected);
    assert forall n, i: nat :: IsPut(h', n, i) <==> IsPut(h, n, i);
    forall i: nat | i < |s'.accepted| ensures Somebody(h', i) {
      assert Somebody(h, i);
      var n :| IsPut(h, n, i);
      assert IsPut(h', n, i);
    }
  }

  lemma CallKept(c: Conf, s: State, h: History, a: Action)
    requires CallInv(s, h) && Enabled(c, s, a)
    ensures CallInv(Next(c, s, a), Record(c, h, s, a))
  {
    hide PendingInv, OutcomeInv, SameCalls, Close;
    var s', h' := Next(c, s, a), Record(c, h, s, a);
    if a.Call? {
      CallBegins(s, s', h, h', a.p, a.task);
    } else if a.DoPut? {
      CallEnds(s, s', h, a.p, Accepted(|s.accepted|));
      PutEnds(s, s', h, a.p);
    } else if a.Decide? && s.sh.shutdown {
      CallEnds(s, s', h, a.p, Rejected);
      RejectEnds(s, s', h, a.p);
    } else {
      InnerSame(c, s, h, a);
      SameCallsKeep(s, s', h, h');
    }
  }

  // ---------- What becomes of a task ----------

  // The task in the hands of a worker, before and during its run.
  function InHand(x: Worker): multiset<Task> {
    match x
    case Holding(task) => multiset{task}
    case Running(task) => multiset{task}
    case _ => multiset{}
  }

  ghost function HandsOf(m: map<Tid, Worker>, ws: set<Tid>): multiset<Task>
    requires ws <= m.Keys
    decreases |ws|
  {
    if ws == {} then multiset{}
    else var w :| w in ws; InHand(m[w]) + HandsOf(m, ws - {w})
  }

  ghost function Hands(m: map<Tid, Worker>): multiset<Task> {
    HandsOf(m, m.Keys)
  }

  // It does not matter who is counted first.
  lemma {:induction false} HandsApart(m: map<Tid, Worker>, ws: set<Tid>, w: Tid)
    requires ws <= m.Keys && w in ws
    ensures HandsOf(m, ws) == InHand(m[w]) + HandsOf(m, ws - {w})
    decreases |ws|
  {
    var v := FirstCounted(m, ws);
    hide InHand, HandsOf;
    if v != w {
      HandsApart(m, ws - {v}, w);
      HandsApart(m, ws - {w}, v);
      assert ws - {v} - {w} == ws - {w} - {v};
      Swap(InHand(m[v]), InHand(m[w]), HandsOf(m, ws - {v} - {w}));
    }
  }

  lemma FirstCounted(m: map<Tid, Worker>, ws: set<Tid>) returns (v: Tid)
    requires ws <= m.Keys && ws != {}
    ensures v in ws && HandsOf(m, ws) == InHand(m[v]) + HandsOf(m, ws - {v})
  {
    v :| v in ws && HandsOf(m, ws) == InHand(m[v]) + HandsOf(m, ws - {v});
  }

  lemma Swap(a: multiset<Task>, b: multiset<Task>, c: multiset<Task>)
    ensures a + (b + c) == b + (a + c)
  {
  }

  lemma {:induction false} HandsSame(m: map<Tid, Worker>, m': map<Tid, Worker>, ws: set<Tid>)
    requires ws <= m.Keys && ws <= m'.Keys && forall w :: w in ws ==> m[w] == m'[w]
    ensures HandsOf(m, ws) == HandsOf(m', ws)
    decreases |ws|
  {
    if ws != {} {
      var v := FirstCounted(m, ws);
      HandsSame(m, m', ws - {v});
      HandsApart(m', ws, v);
    }
  }

  lemma HandsMoved(m: map<Tid, Worker>, w: Tid, x: Worker)
    requires w in m.Keys
    ensures Hands(m) == InHand(m[w]) + HandsOf(m, m.Keys - {w})
    ensures Hands(m[w := x]) == InHand(x) + HandsOf(m, m.Keys - {w})
  {
    hide InHand, HandsOf;
    var m' := m[w := x];
    assert m'.Keys == m.Keys;
    HandsApart(m, m.Keys, w);
    HandsApart(m', m'.Keys, w);
    HandsSame(m, m', m.Keys - {w});
  }

  lemma HandsAdded(m: map<Tid, Worker>, w: Tid, x: Worker)
    requires w !in m.Keys
    ensures Hands(m[w := x]) == InHand(x) + Hands(m)
  {
    hide InHand, HandsOf;
    var m' := m[w := x];
    assert m'.Keys - {w} == m.Keys;
    HandsApart(m', m'.Keys, w);
    HandsSame(m, m', m.Keys);
  }

  // Every task taken is in the hands of one worker, or was run to the end, once.
  ghost predicate TaskInv(s: State, h: History) {
    multiset(s.taken) == Hands(s.workers) + multiset(h.finished)
  }

  // A step of worker `w` changes nothing but where that worker stands, ...
  lemma WorkerOnly(c: Conf, s: State, a: Action)
    requires Enabled(c, s, a) && !IsProducer(a) && !IsManager(a)
    ensures var s' := Next(c, s, a);
      a.w in s.workers && s'.workers == s.workers[a.w := s'.workers[a.w]] && (!a.DoTake? ==> s'.taken == s.taken)
  {
  }

  lemma OtherSteps(c: Conf, s: State, a: Action)
    requires Enabled(c, s, a) && !IsProducer(a) && !IsManager(a) && !a.DoTake? && !a.BusyDown? && !a.BusyUp?
    ensures a.w in s.workers && a.w in Next(c, s, a).workers
    ensures var x, x' := s.workers[a.w], Next(c, s, a).workers[a.w];
      !x.Holding? && !x.Running? && !x'.Holding? && !x'.Running?
  {
  }

  lemma HandKept(c: Conf, s: State, h: History, a: Action)
    requires Enabled(c, s, a) && !IsProducer(a) && !IsManager(a) && !a.DoTake? && !a.BusyDown?
    ensures a.w in s.workers && a.w in Next(c, s, a).workers && Record(c, h, s, a).finished == h.finished
    ensures InHand(Next(c, s, a).workers[a.w]) == InHand(s.workers[a.w])
  {
    if !a.BusyUp? {
      hide Enabled, Next;
      OtherSteps(c, s, a);
    }
  }

  // ... and moves its task on: from the ring into its hands, or out of them.
  lemma WorkerMoves(c: Conf, s: State, h: History, a: Action)
    requires Enabled(c, s, a) && !IsProducer(a) && !IsManager(a)
    ensures var s', h' := Next(c, s, a), Record(c, h, s, a);
      && a.w in s.workers && s'.workers == s.workers[a.w := s'.workers[a.w]]
      && multiset(s'.taken) + InHand(s.workers[a.w]) + multiset(h.finished)
         == multiset(s.taken) + InHand(s'.workers[a.w]) + multiset(h'.finished)
  {
    WorkerOnly(c, s, a);
    if a.DoTake? {
      assert Next(c, s, a).taken == s.taken + [Head(s.sh)];
    } else if a.BusyDown? {
      assert Record(c, h, s, a).finished == h.finished + [s.workers[a.w].task];
    } else {
      hide Enabled, Next, Record, InHand;
      HandKept(c, s, h, a);
    }
  }

  lemma OthersMoveNothing(c: Conf, s: State, h: History, a: Action)
    requires Enabled(c, s, a) && (IsProducer(a) || IsManager(a))
    ensures var s', h' := Next(c, s, a), Record(c, h, s, a);
      && s'.taken == s.taken && h'.finished == h.finished
      && (s'.workers == s.workers || (a.Manage? && a.tid !in s.workers && s'.workers == s.workers[a.tid := Ready]))
  {
  }

  lemma Balance(t: multiset<Task>, t': multiset<Task>, x: multiset<Task>, x': multiset<Task>,
                rest: multiset<Task>, f: multiset<Task>, f': multiset<Task>)
    requires t' + x + f == t + x' + f' && t == x + rest + f
    ensures t' == x' + rest + f'
  {
    forall k: Task ensures t'[k] == (x' + rest + f')[k] {
      assert (t' + x + f)[k] == (t + x' + f')[k] && t[k] == (x + rest + f)[k];
    }
  }

  lemma TaskKept(c: Conf, s: State, h: History, a: Action)
    requires TaskInv(s, h) && Enabled(c, s, a)
    ensures TaskInv(Next(c, s, a), Record(c, h, s, a))
  {
    hide Hands, HandsOf, InHand, Enabled, Next, Record;
    var s', h' := Next(c, s, a), Record(c, h, s, a);
    if IsProducer(a) || IsManager(a) {
      OthersMoveNothing(c, s, h, a);
      if s'.workers != s.workers {
        HandsAdded(s.workers, a.tid, Ready);
        assert InHand(Ready) == multiset{} by { NothingInHand(); }
      }
    } else {
      var w := a.w;
      WorkerMoves(c, s, h, a);
      HandsMoved(s.workers, w, s'.workers[w]);
      Balance(multiset(s.taken), multiset(s'.taken), InHand(s.workers[w]), InHand(s'.workers[w]),
              HandsOf(s.workers, s.workers.Keys - {w}), multiset(h.finished), multiset(h'.finished));
    }
  }

  lemma NothingInHand()
    ensures InHand(Ready) == multiset{}
  {
  }

  // ---------- Whole runs ----------

  lemma HistoryStart(c: Conf, s: State, ids: seq<Tid>)
    requires Init(c, s, ids)
    ensures CallInv(s, Blank) && TaskInv(s, Blank)
  {
    HandsEmpty(s.workers, s.workers.Keys);
  }

  lemma {:induction false} HandsEmpty(m: map<Tid, Worker>, ws: set<Tid>)
    requires ws <= m.Keys && forall w :: w in ws ==> InHand(m[w]) == multiset{}
    ensures HandsOf(m, ws) == multiset{}
    decreases |ws|
  {
    if ws != {} {
      var v := FirstCounted(m, ws);
      HandsEmpty(m, ws - {v});
    }
  }

  lemma {:induction false} HistoryKept(c: Conf, s: State, h: History, acts: seq<Action>, s': State, h': History)
    requires CallInv(s, h) && TaskInv(s, h) && Recorded(c, s, h, acts, s', h')
    ensures CallInv(s', h') && TaskInv(s', h')
    decreases |acts|
  {
    hide Enabled, Next, Record, CallInv, TaskInv;
    if acts != [] {
      CallKept(c, s, h, acts[0]);
      TaskKept(c, s, h, acts[0]);
      HistoryKept(c, Next(c, s, acts[0]), Record(c, h, s, acts[0]), acts[1..], s', h');
    }
  }

  // In every run of each pool: the record holds the calls that were made; each accepted entry is
  // the task of a call, and no two entries are of the same one; a call that has returned put its
  // own task, once, unless it was rejected by a pool that shuts down, and then it put none.
  lemma CallsAnswered(c: Conf, ids: seq<Tid>, s0: State, acts: seq<Action>, s: State, h: History)
    requires Init(c, s0, ids) && Recorded(c, s0, Blank, acts, s, h)
    ensures Made(h.calls) == CallsIn(acts)
    ensures forall i: nat :: i < |s.accepted| ==> Somebody(h, i)
    ensures |CallsIn(acts)| == |h.calls|
    ensures forall n, i: nat :: IsPut(h, n, i) ==>
      0 <= n < |h.calls| && i < |s.accepted| && s.accepted[i] == CallsIn(acts)[n].1
    ensures forall n, m, i: nat :: IsPut(h, n, i) && IsPut(h, m, i) ==> n == m
    ensures forall n :: 0 <= n < |h.calls| && h.calls[n].outcome.Rejected? ==> s.sh.shutdown
    ensures forall n :: 0 <= n < |h.calls| && h.calls[n].outcome.Pending? ==>
      h.calls[n].p in s.producers && !s.producers[h.calls[n].p].Outside?
  {
    hide Init, Recorded, TaskInv, CallInv, Made, CallsIn, IsPut, Somebody;
    HistoryStart(c, s0, ids);
    HistoryKept(c, s0, Blank, acts, s, h);
    CallsRecorded(c, s0, Blank, acts, s, h);
    NothingMade();
    assert [] + CallsIn(acts) == CallsIn(acts);
    CallFacts(s, h, acts);
  }

  lemma NothingMade()
    ensures Made(Blank.calls) == []
  {
  }

  lemma CallFacts(s: State, h: History, acts: seq<Action>)
    requires CallInv(s, h) && Made(h.calls) == CallsIn(acts)
    ensures |CallsIn(acts)| == |h.calls|
    ensures forall i: nat :: i < |s.accepted| ==> Somebody(h, i)
    ensures forall n, i: nat :: IsPut(h, n, i) ==>
      0 <= n < |h.calls| && i < |s.accepted| && s.accepted[i] == CallsIn(acts)[n].1
    ensures forall n, m, i: nat :: IsPut(h, n, i) && IsPut(h, m, i) ==> n == m
    ensures forall n :: 0 <= n < |h.calls| && h.calls[n].outcome.Rejected? ==> s.sh.shutdown
    ensures forall n :: 0 <= n < |h.calls| && h.calls[n].outcome.Pending? ==>
      h.calls[n].p in s.producers && !s.producers[h.calls[n].p].Outside?
  {
    hide CallsIn;
    assert forall n :: 0 <= n < |h.calls| ==> Made(h.calls)[n] == (h.calls[n].p, h.calls[n].task);
  }

  // In every run of each pool: each task taken is in the hands of one worker or was run once.
  lemma TasksRunOnce(c: Conf, ids: seq<Tid>, s0: State, acts: seq<Action>, s: State, h: History)
    requires Init(c, s0, ids) && Recorded(c, s0, Blank, acts, s, h)
    ensures multiset(s.taken) == Hands(s.workers) + multiset(h.finished)
    ensures PoolFifo.Careful(c) ==>
      && 0 <= s.sh.size <= |s.sh.taskQ|
      && multiset(s.accepted) == multiset(PoolFifo.Queue(s.sh)) + Hands(s.workers) + multiset(h.finished)
  {
    hide Init, Recorded, Runs, CallInv, Hands, PoolFifo.Queue;
    HistoryStart(c, s0, ids);
    HistoryKept(c, s0, Blank, acts, s, h);
    if PoolFifo.Careful(c) {
      RecordedRuns(c, s0, Blank, acts, s, h);
      PoolFifo.BoundedFifo(c, ids, s0, acts, s);
      assert multiset(s.accepted) == multiset(s.taken) + multiset(PoolFifo.Queue(s.sh));
    }
  }

  // ---------- After a shutdown ----------

  // Somebody has passed the shutdown test and holds the lock until it has put or taken a task.
  function Committed(s: State): nat {
    match s.lock
    case ByProducer(p) => One(p in s.producers && s.producers[p].Putting?)
    case ByWorker(w) => One(w in s.workers && s.workers[w].Taking?)
    case _ => 0
  }

  function Moves(s: State): nat { |s.accepted| + |s.taken| + Committed(s) }

  lemma ShutdownByProducer(c: Conf, s: State, a: Action)
    requires LockInv(c, s) && s.sh.shutdown && Enabled(c, s, a) && IsProducer(a)
    ensures Next(c, s, a).sh.shutdown && Moves(Next(c, s, a)) <= Moves(s)
  {
  }

  lemma ShutdownByWorker(c: Conf, s: State, a: Action)
    requires LockInv(c, s) && s.sh.shutdown && Enabled(c, s, a) && !IsProducer(a) && !IsManager(a)
    ensures Next(c, s, a).sh.shutdown && Moves(Next(c, s, a)) <= Moves(s)
  {
  }

  lemma ShutdownByManager(c: Conf, s: State, a: Action)
    requires LockInv(c, s) && s.sh.shutdown && Enabled(c, s, a) && IsManager(a)
    ensures Next(c, s, a).sh.shutdown && Moves(Next(c, s, a)) <= Moves(s)
  {
  }

  // Once the pool shuts down, at most one more task is put or taken, by the thread that had
  // already passed its test; the tasks that wait are left where they are.
  lemma {:induction false} AfterShutdown(c: Conf, s: State, acts: seq<Action>, s': State)
    requires LockInv(c, s) && s.sh.shutdown && Runs(c, s, acts, s')
    ensures |s'.accepted| + |s'.taken| <= |s.accepted| + |s.taken| + 1
    ensures Moves(s') <= Moves(s) && Committed(s) <= 1
    decreases |acts|
  {
    hide Enabled, Next, LockInv;
    if acts != [] {
      var a := acts[0];
      if IsProducer(a) {
        ShutdownByProducer(c, s, a);
      } else if IsManager(a) {
        ShutdownByManager(c, s, a);
      } else {
        ShutdownByWorker(c, s, a);
      }
      LockKept(c, s, a);
      AfterShutdown(c, Next(c, s, a), acts[1..], s');
    }
  }

  // Everybody who waits in the second state has waited since the first.
  ghost predicate NoNewWaits(s: State, s': State) {
    && (forall p :: p in s'.producers && s'.producers[p].Blocked? ==> p in s.producers && s.producers[p].Blocked?)
    && (forall w :: w in s'.workers && s'.workers[w].Sleeping? ==> w in s.workers && s.workers[w].Sleeping?)
  }

  lemma WaitsByProducer(c: Conf, s: State, a: Action)
    requires s.sh.shutdown && Enabled(c, s, a) && IsProducer(a)
    ensures Next(c, s, a).sh.shutdown && NoNewWaits(s, Next(c, s, a))
  {
  }

  lemma WaitsByWorker(c: Conf, s: State, a: Action)
    requires s.sh.shutdown && Enabled(c, s, a) && !IsProducer(a) && !IsManager(a)
    ensures Next(c, s, a).sh.shutdown && NoNewWaits(s, Next(c, s, a))
  {
  }

  lemma WaitsByManager(c: Conf, s: State, a: Action)
    requires s.sh.shutdown && Enabled(c, s, a) && IsManager(a)
    ensures Next(c, s, a).sh.shutdown && NoNewWaits(s, Next(c, s, a))
  {
  }

  // And nobody begins to wait, for a task or for room.
  lemma {:induction false} NobodyWaits(c: Conf, s: State, acts: seq<Action>, s': State)
    requires s.sh.shutdown && Runs(c, s, acts, s')
    ensures NoNewWaits(s, s')
    decreases |acts|
  {
    hide Enabled, Next;
    if acts != [] {
      var a := acts[0];
      if IsProducer(a) {
        WaitsByProducer(c, s, a);
      } else if IsManager(a) {
        WaitsByManager(c, s, a);
      } else {
        WaitsByWorker(c, s, a);
      }
      NobodyWaits(c, Next(c, s, a), acts[1..], s');
    }
  }

  // A manager that is not in a turn then begins none: it creates no thread and orders no exit.
  lemma {:induction false} ManagerStops(c: Conf, s: State, acts: seq<Action>, s': State)
    requires s.sh.shutdown && (s.manager.AtTop? || s.manager.Stopped?) && Runs(c, s, acts, s')
    ensures s'.manager.AtTop? || s'.manager.Stopped?
    ensures s'.sh.live <= s.sh.live && s'.workers.Keys == s.workers.Keys && s'.sh.exitNum <= s.sh.exitNum
    decreases |acts|
  {
    hide Enabled, Next;
    if acts != [] {
      IdleStep(c, s, acts[0]);
      ManagerStops(c, Next(c, s, acts[0]), acts[1..], s');
    }
  }

  lemma IdleStep(c: Conf, s: State, a: Action)
    requires s.sh.shutdown && (s.manager.AtTop? || s.manager.Stopped?) && Enabled(c, s, a)
    ensures var s' := Next(c, s, a);
      && s'.sh.shutdown && (s'.manager.AtTop? || s'.manager.Stopped?)
      && s'.sh.live <= s.sh.live && s'.workers.Keys == s.workers.Keys && s'.sh.exitNum <= s.sh.exitNum
  {
  }

  // ---------- Orders to exit ----------

  // How often the manager orders workers to exit.
  function Orders(c: Conf, s: State, acts: seq<Action>): nat
    decreases |acts|
  {
    if acts == [] || !Enabled(c, s, acts[0]) then 0
    else One(s.manager.Shrinking? && acts[0].Manage?) + Orders(c, Next(c, s, acts[0]), acts[1..])
  }

  // Workers that were created and do not count any more, and those still ordered to exit.
  function Exits(s: State): int { |s.workers| - s.sh.live + s.sh.exitNum }

  lemma ExitsByManager(c: Conf, s: State, a: Action)
    requires 0 <= s.sh.exitNum && Enabled(c, s, a) && IsManager(a)
    ensures 0 <= Next(c, s, a).sh.exitNum
    ensures Exits(Next(c, s, a)) <= Exits(s) + NUMBER * One(s.manager.Shrinking? && a.Manage?)
  {
  }

  lemma ExitsByOthers(c: Conf, s: State, a: Action)
    requires 0 <= s.sh.exitNum && Enabled(c, s, a) && !IsManager(a)
    ensures 0 <= Next(c, s, a).sh.exitNum && Exits(Next(c, s, a)) <= Exits(s)
  {
  }

  lemma {:induction false} ExitsKept(c: Conf, s: State, acts: seq<Action>, s': State)
    requires 0 <= s.sh.exitNum && Runs(c, s, acts, s')
    ensures 0 <= s'.sh.exitNum && Exits(s') <= Exits(s) + NUMBER * Orders(c, s, acts)
    decreases |acts|
  {
    hide Enabled, Next;
    if acts != [] {
      if IsManager(acts[0]) { ExitsByManager(c, s, acts[0]); } else { ExitsByOthers(c, s, acts[0]); }
      ExitsKept(c, Next(c, s, acts[0]), acts[1..], s');
    }
  }

  // In every run each order lets at most NUMBER workers retire.
  lemma OrdersBound(c: Conf, ids: seq<Tid>, s0: State, acts: seq<Action>, s: State)
    requires Init(c, s0, ids) && Runs(c, s0, acts, s)
    ensures |s.workers| - |Those(Live, s.workers)| <= NUMBER * Orders(c, s0, acts)
  {
    hide Init, Runs, Those;
    InitInv(c, s0, ids);
    ExitsKept(c, s0, acts, s);
    RunInv(c, s0, acts, s);
    NoneRetired(c, s0, ids);
  }

  lemma NoneRetired(c: Conf, s: State, ids: seq<Tid>)
    requires Init(c, s, ids)
    ensures |s.workers| == s.sh.live && s.sh.exitNum == 0
  {
    InitCounts(c, s, ids);
    assert Those(Live, s.workers) == s.workers.Keys;
  }
}
