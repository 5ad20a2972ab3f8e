// The elastic thread pools as a step-based protocol. One step is one lock-protected test or
// update, or one access made without the lock; steps of all threads interleave freely.

module PoolModel {

  type Task = int      // a function pointer and its argument
  type Tid = nat       // a pthread_t; 0 marks a free slot

  const NUMBER: int := 2

  // Manager2 is threadpool/src3/pthreadpool2.cpp, Manager3 threadpool/src3/pthreadpool.cpp and
  // Stale threadpool/src/threadpool.cpp, whose grow loop tests a copy of the live count.
  datatype Variant = Manager2 | Manager3 | Stale

  // `rechecks`: a woken producer tests the queue again (while) or goes on (if).
  // `spurious`: a waiting producer may wake although nobody signalled it.
  datatype Conf = Conf(variant: Variant, rechecks: bool, spurious: bool,
                       capacity: nat, minNum: nat, maxNum: nat, callers: set<int>)

  // The fields of struct ThreadPool that the threads share.
  datatype Shared = Shared(taskQ: seq<Task>, front: nat, rear: nat, size: int,
                           slots: seq<Tid>, live: int, busy: int, exitNum: int, shutdown: bool)

  // Where a producer stands in threadPoolAdd.
  datatype Producer =
    | Outside                              // not in the call
    | Testing(task: Task)                  // holds the lock, at the queue-full test
    | Blocked(task: Task, signalled: bool) // in pthread_cond_wait on notFull
    | Deciding(task: Task)                 // holds the lock, at the shutdown test
    | Putting(task: Task)                  // holds the lock, about to write the ring
  {
    predicate Holds() { Testing? || Deciding? || Putting? }
  }

  // Where a worker stands.
  datatype Worker =
    | Ready                     // about to lock
    | Looking                   // holds the lock, at the queue-empty test
    | Sleeping                  // in pthread_cond_wait on notEmpty
    | Judging                   // holds the lock, at the shutdown test
    | Taking                    // holds the lock, about to read the ring
    | Holding(task: Task)       // has a task, before busyNum++
    | Running(task: Task)       // between busyNum++ and busyNum--
    | Retiring(i: nat)          // counted out of liveNum, at slot `i` of the scan for its own
    | Leaving(i: nat)           // leaving because of shutdown, at slot `i` of that scan
    | Retired                   // gone by retirement
    | Left                      // gone by shutdown
  {
    predicate Holds() { Looking? || Judging? || Taking? }
  }

  // Where the manager stands; `q`, `l`, `b` are its local copies of queueSize, liveNum, busyNum.
  datatype Manager =
    | AtTop
    | Awake
    | Counted(q: int, l: int)
    | Choosing(q: int, l: int, b: int)
    | Growing(i: nat, counter: nat, l: int, b: int)  // holds the lock
    | Weighing(l: int, b: int)
    | Halving(b: int)           // Stale only: has read busyNum, about to read liveNum
    | Flooring                  // Stale only: about to read liveNum again
    | Shrinking
    | Stopped

  datatype Holder = Free | ByProducer(p: int) | ByWorker(w: Tid) | ByManager

  // `accepted` and `taken` record the tasks put into and read out of the ring, in order.
  datatype State = State(sh: Shared, producers: map<int, Producer>, workers: map<Tid, Worker>,
                         manager: Manager, lock: Holder, accepted: seq<Task>, taken: seq<Task>)

  // ---------- Updates of the shared fields ----------

  function Wrap(x: nat, capacity: nat): nat {
    if capacity == 0 then 0 else x % capacity
  }

  function Put(sh: Shared, task: Task): Shared {
    sh.(taskQ := if sh.rear < |sh.taskQ| then sh.taskQ[sh.rear := task] else sh.taskQ,
        rear := Wrap(sh.rear + 1, |sh.taskQ|), size := sh.size + 1)
  }

  function Head(sh: Shared): Task {
    if sh.front < |sh.taskQ| then sh.taskQ[sh.front] else 0
  }

  function Take(sh: Shared): Shared {
    sh.(front := Wrap(sh.front + 1, |sh.taskQ|), size := sh.size - 1)
  }

  // A woken worker answers an exit order; it retires if that leaves enough workers.
  function Ordered(sh: Shared): Shared {
    if sh.exitNum > 0 then sh.(exitNum := sh.exitNum - 1) else sh
  }

  predicate Retires(sh: Shared, minNum: nat) {
    sh.exitNum > 0 && sh.live > minNum
  }

  // The first slot that holds `w` becomes free: what an undisturbed scan comes to.
  function Cleared(slots: seq<Tid>, w: Tid): seq<Tid> {
    if slots == [] then []
    else if slots[0] == w then [0] + slots[1..]
    else [slots[0]] + Cleared(slots[1..], w)
  }

  // pthread_cond_signal on notFull: every blocked producer counts as signalled.
  function Signalled(m: map<int, Producer>): map<int, Producer> {
    map p | p in m :: if m[p].Blocked? then m[p].(signalled := true) else m[p]
  }

  // ---------- Steps ----------

  datatype Action =
    | Call(p: int, task: Task)
    | TestFull(p: int)
    | WakeProducer(p: int)
    | Decide(p: int)
    | DoPut(p: int)
    | Lock(w: Tid)
    | TestEmpty(w: Tid)
    | WakeWorker(w: Tid)
    | Judge(w: Tid)
    | DoTake(w: Tid)
    | BusyUp(w: Tid)
    | BusyDown(w: Tid)
    | Scan(w: Tid)       // one round of the unlocked loop in threadExit
    | Manage(tid: Tid)   // any step of the manager; `tid` is the id of a thread it may create
    | Shutdown           // the unlocked write in threadPoolDestroy

  // The test the manager is at.
  predicate Wants(c: Conf, m: Manager, sh: Shared) {
    match m
    case Choosing(q, l, b) =>
      (if c.variant.Manager3? then q > l - b else q > l) && l < c.maxNum
    case Growing(i, counter, l, b) =>
      i < c.maxNum && counter < NUMBER && (if c.variant.Stale? then l else sh.live) < c.maxNum
    case Weighing(l, b) => b * 2 < l && l > c.minNum
    case Halving(b) => b * 2 < sh.live
    case Flooring => sh.live > c.minNum
    case _ => true
  }

  // The manager's next step needs the lock.
  predicate Locks(c: Conf, s: State) {
    s.manager.Awake? || s.manager.Shrinking? || (s.manager.Choosing? && Wants(c, s.manager, s.sh))
  }

  // The manager's next step creates a thread.
  predicate Creates(c: Conf, s: State) {
    s.manager.Growing? && Wants(c, s.manager, s.sh) && s.manager.i < |s.sh.slots| && s.sh.slots[s.manager.i] == 0
  }

  predicate Enabled(c: Conf, s: State, a: Action) {
    match a
    case Call(p, _) => p in c.callers && p in s.producers && s.producers[p].Outside? && s.lock.Free?
    case TestFull(p) => p in s.producers && s.producers[p].Testing?
    case WakeProducer(p) =>
      p in s.producers && s.producers[p].Blocked? && s.lock.Free? && (c.spurious || s.producers[p].signalled)
    case Decide(p) => p in s.producers && s.producers[p].Deciding?
    case DoPut(p) => p in s.producers && s.producers[p].Putting?
    case Lock(w) => w in s.workers && s.workers[w].Ready? && s.lock.Free?
    case TestEmpty(w) => w in s.workers && s.workers[w].Looking?
    case WakeWorker(w) => w in s.workers && s.workers[w].Sleeping? && s.lock.Free?
    case Judge(w) => w in s.workers && s.workers[w].Judging?
    case DoTake(w) => w in s.workers && s.workers[w].Taking?
    case BusyUp(w) => w in s.workers && s.workers[w].Holding?
    case BusyDown(w) => w in s.workers && s.workers[w].Running?
    case Scan(w) => w in s.workers && (s.workers[w].Retiring? || s.workers[w].Leaving?)
    case Manage(tid) =>
      && !s.manager.Stopped? && (Locks(c, s) ==> s.lock.Free?)
      && (Creates(c, s) ==> tid != 0 && tid !in s.workers)
    case Shutdown => true
  }

  function ManagerNext(c: Conf, s: State, tid: Tid): State {
    match s.manager
    case AtTop => s.(manager := if s.sh.shutdown then Stopped else Awake)
    case Awake =>
      s.(manager := if c.variant.Manager2? then Counted(s.sh.size, s.sh.live)
                    else Choosing(s.sh.size, s.sh.live, s.sh.busy))
    case Counted(q, l) => s.(manager := Choosing(q, l, s.sh.busy))
    case Choosing(q, l, b) =>
      if Wants(c, s.manager, s.sh) then s.(manager := Growing(0, 0, l, b), lock := ByManager)
      else s.(manager := Weighing(l, b))
    case Growing(i, counter, l, b) =>
      if !Wants(c, s.manager, s.sh) then s.(manager := Weighing(l, b), lock := Free)
      else if Creates(c, s) then
        s.(manager := Growing(i + 1, counter + 1, l, b),
           sh := s.sh.(slots := s.sh.slots[i := tid], live := s.sh.live + 1),
           workers := s.workers[tid := Ready])
      else s.(manager := Growing(i + 1, counter, l, b))
    case Weighing(l, b) =>
      if c.variant.Stale? then s.(manager := Halving(s.sh.busy))
      else s.(manager := if Wants(c, s.manager, s.sh) then Shrinking else AtTop)
    case Halving(b) => s.(manager := if Wants(c, s.manager, s.sh) then Flooring else AtTop)
    case Flooring => s.(manager := if Wants(c, s.manager, s.sh) then Shrinking else AtTop)
    case Shrinking => s.(manager := AtTop, sh := s.sh.(exitNum := NUMBER))
    case Stopped => s
  }

  // threadExit looks at one slot after the other, frees the one that holds its own id, and ends.
  function ScanNext(c: Conf, s: State, w: Tid): State
    requires w in s.workers && (s.workers[w].Retiring? || s.workers[w].Leaving?)
  {
    var x := s.workers[w];
    var done := if x.Retiring? then Retired else Left;
    if x.i < c.maxNum && x.i < |s.sh.slots| then
      if s.sh.slots[x.i] == w then
        s.(sh := s.sh.(slots := s.sh.slots[x.i := 0]), workers := s.workers[w := done])
      else s.(workers := s.workers[w := x.(i := x.i + 1)])
    else s.(workers := s.workers[w := done])
  }

  function Next(c: Conf, s: State, a: Action): State
    requires Enabled(c, s, a)
  {
    match a
    case Call(p, task) => s.(producers := s.producers[p := Testing(task)], lock := ByProducer(p))
    case TestFull(p) =>
      var task := s.producers[p].task;
      if s.sh.size == c.capacity && !s.sh.shutdown
      then s.(producers := s.producers[p := Blocked(task, false)], lock := Free)
      else s.(producers := s.producers[p := Deciding(task)])
    case WakeProducer(p) =>
      var task := s.producers[p].task;
      s.(producers := s.producers[p := if c.rechecks then Testing(task) else Deciding(task)], lock := ByProducer(p))
    case Decide(p) =>
      if s.sh.shutdown then s.(producers := s.producers[p := Outside], lock := Free)
      else s.(producers := s.producers[p := Putting(s.producers[p].task)])
    case DoPut(p) =>
      var task := s.producers[p].task;
      s.(sh := Put(s.sh, task), accepted := s.accepted + [task],
         producers := s.producers[p := Outside], lock := Free)
    case Lock(w) => s.(workers := s.workers[w := Looking], lock := ByWorker(w))
    case TestEmpty(w) =>
      if s.sh.size == 0 && !s.sh.shutdown then s.(workers := s.workers[w := Sleeping], lock := Free)
      else s.(workers := s.workers[w := Judging])
    case WakeWorker(w) =>
      if Retires(s.sh, c.minNum)
      then s.(sh := Ordered(s.sh).(live := s.sh.live - 1), workers := s.workers[w := Retiring(0)])
      else s.(sh := Ordered(s.sh), workers := s.workers[w := Looking], lock := ByWorker(w))
    case Judge(w) =>
      if s.sh.shutdown then s.(workers := s.workers[w := Leaving(0)], lock := Free)
      else s.(workers := s.workers[w := Taking])
    case DoTake(w) =>
      s.(sh := Take(s.sh), taken := s.taken + [Head(s.sh)], producers := Signalled(s.producers),
         workers := s.workers[w := Holding(Head(s.sh))], lock := Free)
    case BusyUp(w) =>
      s.(sh := s.sh.(busy := s.sh.busy + 1), workers := s.workers[w := Running(s.workers[w].task)])
    case BusyDown(w) => s.(sh := s.sh.(busy := s.sh.busy - 1), workers := s.workers[w := Ready])
    case Scan(w) => ScanNext(c, s, w)
    case Manage(tid) => ManagerNext(c, s, tid)
    case Shutdown => s.(sh := s.sh.(shutdown := true))
  }

  // ---------- Start states and runs ----------

  // `ids` are the threads that threadPoolCreate starts.
  ghost predicate Init(c: Conf, s: State, ids: seq<Tid>) {
    && |ids| == c.minNum <= c.maxNum
    && (forall i :: 0 <= i < |ids| ==> ids[i] != 0)
    && (forall i, j :: 0 <= i < j < |ids| ==> ids[i] != ids[j])
    && |s.sh.taskQ| == c.capacity && s.sh.front == s.sh.rear == 0 && s.sh.size == 0
    && s.sh.slots == ids + seq(c.maxNum - c.minNum, _ => 0)
    && s.sh.live == c.minNum && s.sh.busy == 0 && s.sh.exitNum == 0 && !s.sh.shutdown
    && s.producers == (map p | p in c.callers :: Outside)
    && s.workers == (map w | w in ids :: Ready)
    && s.manager == AtTop && s.lock == Free && s.accepted == [] && s.taken == []
  }

  // A run: actions that are enabled one after the other.
  ghost predicate Runs(c: Conf, s: State, acts: seq<Action>, s': State)
    decreases |acts|
  {
    if acts == [] then s' == s
    else Enabled(c, s, acts[0]) && Runs(c, Next(c, s, acts[0]), acts[1..], s')
  }
}
