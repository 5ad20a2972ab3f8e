// Producers and consumers that meet at a linked list guarded by two counting semaphores and a
// mutex, as a step-based protocol over any number of threads.

module ProdCons {

  type Id = int

  // The value psem starts with.
  const Slots: nat := 5

  // The list that `head` points to, newest node first; [] is NULL.
  type List = seq<int>

  datatype Producer =
    | Idle                           // about to wait on psem
    | Admitted                       // took a slot, about to lock
    | Making(num: int)               // holds the mutex, node allocated
    | Linked(num: int, next: List)   // holds the mutex, pnew->next copied from head
    | Stored                         // holds the mutex, head moved
    | Announcing                     // unlocked, about to post csem
  {
    predicate Holds() { Making? || Linked? || Stored? }
    predicate Unused() { Admitted? || Making? || Linked? }
    predicate Unposted() { Stored? || Announcing? }
  }

  datatype Consumer =
    | Waiting                        // about to wait on csem
    | Called                         // took a token, about to lock
    | Looking                        // holds the mutex
    | Seen(node: List)               // holds the mutex, pnew copied from head
    | Cut                            // holds the mutex, head moved
    | Returning                      // unlocked, about to post psem
  {
    predicate Holds() { Looking? || Seen? || Cut? }
    predicate Unserved() { Called? || Looking? || Seen? }
    predicate Unposted() { Cut? || Returning? }
  }

  datatype Holder = Free | ByProducer(p: Id) | ByConsumer(q: Id)

  datatype Event = Pushed(num: int) | Popped(num: int)

  // `log` records what was pushed and popped; `crashed` a read through a NULL head.
  datatype State = State(list: List, psem: nat, csem: nat, mutex: Holder,
                         producers: map<Id, Producer>, consumers: map<Id, Consumer>,
                         log: seq<Event>, crashed: bool)

  // One step of producer `p`, which makes `num` when it makes a node, or of consumer `q`.
  datatype Action = Produce(p: Id, num: int) | Consume(q: Id)

  predicate Enabled(s: State, a: Action) {
    !s.crashed &&
    match a
    case Produce(p, _) =>
      && p in s.producers
      && (s.producers[p].Idle? ==> s.psem > 0)
      && (s.producers[p].Admitted? ==> s.mutex.Free?)
    case Consume(q) =>
      && q in s.consumers
      && (s.consumers[q].Waiting? ==> s.csem > 0)
      && (s.consumers[q].Called? ==> s.mutex.Free?)
  }

  function Next(s: State, a: Action): State
    requires Enabled(s, a)
  {
    match a
    case Produce(p, num) => ProducerNext(s, p, num)
    case Consume(q) => ConsumerNext(s, q)
  }

  function ProducerNext(s: State, p: Id, num: int): State
    requires Enabled(s, Produce(p, num))
  {
    match s.producers[p]
    case Idle => s.(psem := s.psem - 1, producers := s.producers[p := Admitted])
    case Admitted => s.(mutex := ByProducer(p), producers := s.producers[p := Making(num)])
    case Making(n) => s.(producers := s.producers[p := Linked(n, s.list)])
    case Linked(n, next) =>
      s.(list := [n] + next, log := s.log + [Pushed(n)], producers := s.producers[p := Stored])
    case Stored => s.(mutex := Free, producers := s.producers[p := Announcing])
    case Announcing => s.(csem := s.csem + 1, producers := s.producers[p := Idle])
  }

  function ConsumerNext(s: State, q: Id): State
    requires Enabled(s, Consume(q))
  {
    match s.consumers[q]
    case Waiting => s.(csem := s.csem - 1, consumers := s.consumers[q := Called])
    case Called => s.(mutex := ByConsumer(q), consumers := s.consumers[q := Looking])
    case Looking => s.(consumers := s.consumers[q := Seen(s.list)])
    case Seen(node) =>
      if node == [] then s.(crashed := true)
      else s.(list := node[1..], log := s.log + [Popped(node[0])], consumers := s.consumers[q := Cut])
    case Cut => s.(mutex := Free, consumers := s.consumers[q := Returning])
    case Returning => s.(psem := s.psem + 1, consumers := s.consumers[q := Waiting])
  }

  ghost predicate Init(s: State) {
    && s.list == [] && s.psem == Slots && s.csem == 0 && s.mutex == Free && s.log == [] && !s.crashed
    && (forall p :: p in s.producers ==> s.producers[p] == Idle)
    && (forall q :: q in s.consumers ==> s.consumers[q] == Waiting)
  }

  ghost predicate Runs(s: State, acts: seq<Action>, s': State)
    decreases |acts|
  {
    if acts == [] then s' == s
    else Enabled(s, acts[0]) && Runs(Next(s, acts[0]), acts[1..], s')
  }

  // ---------- Who holds the mutex ----------

  ghost predicate MutexInv(s: State) {
    && (forall p :: p in s.producers ==> (s.producers[p].Holds() <==> s.mutex == ByProducer(p)))
    && (forall q :: q in s.consumers ==> (s.consumers[q].Holds() <==> s.mutex == ByConsumer(q)))
    && (s.mutex.ByProducer? ==> s.mutex.p in s.producers)
    && (s.mutex.ByConsumer? ==> s.mutex.q in s.consumers)
  }

  // What a thread copied from `head` inside the mutex is still what `head` holds.
  ghost predicate CopyInv(s: State) {
    && (forall p :: p in s.producers && s.producers[p].Linked? ==> s.producers[p].next == s.list)
    && (forall q :: q in s.consumers && s.consumers[q].Seen? ==> s.consumers[q].node == s.list)
  }

  lemma MutexKept(s: State, a: Action)
    requires MutexInv(s) && CopyInv(s) && Enabled(s, a)
    ensures MutexInv(Next(s, a)) && CopyInv(Next(s, a))
  {
  }

  // ---------- Counting threads ----------

  function Unused(m: map<Id, Producer>): set<Id> { set p | p in m && m[p].Unused() }
  function Unannounced(m: map<Id, Producer>): set<Id> { set p | p in m && m[p].Unposted() }
  function Unserved(m: map<Id, Consumer>): set<Id> { set q | q in m && m[q].Unserved() }
  function Unreturned(m: map<Id, Consumer>): set<Id> { set q | q in m && m[q].Unposted() }

  // Every node in the list is announced in csem, or about to be, or promised to a consumer;
  // and every slot is in psem, with a producer, in the list, or with a consumer.
  ghost predicate TokenInv(s: State) {
    && |s.list| == s.csem + |Unserved(s.consumers)| + |Unannounced(s.producers)|
    && s.psem + |Unused(s.producers)| + |s.list| + |Unreturned(s.consumers)| == Slots
  }

  function Bit(b: bool): int { if b then 1 else 0 }

  lemma Moved(m: set<Id>, m': set<Id>, x: Id)
    requires m - {x} == m' - {x}
    ensures |m'| - |m| == Bit(x in m') - Bit(x in m)
  {
    assert |m - {x}| == |m| - Bit(x in m);
    assert |m' - {x}| == |m'| - Bit(x in m');
  }

  lemma ProducerMoved(m: map<Id, Producer>, p: Id, x: Producer)
    requires p in m
    ensures |Unused(m[p := x])| - |Unused(m)| == Bit(x.Unused()) - Bit(m[p].Unused())
    ensures |Unannounced(m[p := x])| - |Unannounced(m)| == Bit(x.Unposted()) - Bit(m[p].Unposted())
  {
    Moved(Unused(m), Unused(m[p := x]), p);
    Moved(Unannounced(m), Unannounced(m[p := x]), p);
  }

  lemma ConsumerMoved(m: map<Id, Consumer>, q: Id, x: Consumer)
    requires q in m
    ensures |Unserved(m[q := x])| - |Unserved(m)| == Bit(x.Unserved()) - Bit(m[q].Unserved())
    ensures |Unreturned(m[q := x])| - |Unreturned(m)| == Bit(x.Unposted()) - Bit(m[q].Unposted())
  {
    Moved(Unserved(m), Unserved(m[q := x]), q);
    Moved(Unreturned(m), Unreturned(m[q := x]), q);
  }

  // A consumer that read `head` read a node.
  lemma SeesNode(s: State, q: Id)
    requires TokenInv(s) && CopyInv(s) && q in s.consumers && s.consumers[q].Unserved()
    ensures s.list != []
    ensures s.consumers[q].Seen? ==> s.consumers[q].node != []
  {
    assert q in Unserved(s.consumers);
  }

  lemma TokensKept(s: State, a: Action)
    requires TokenInv(s) && CopyInv(s) && Enabled(s, a)
    ensures TokenInv(Next(s, a)) && !Next(s, a).crashed
  {
    hide Unused, Unannounced, Unserved, Unreturned;
    match a
    case Produce(p, num) => ProducerMoved(s.producers, p, Next(s, a).producers[p]);
    case Consume(q) =>
      if s.consumers[q].Unserved() { SeesNode(s, q); }
      ConsumerMoved(s.consumers, q, Next(s, a).consumers[q]);
  }

  // ---------- What was popped ----------

  // The list is a stack: replaying the log pops each time the newest number still there.
  ghost predicate Replays(log: seq<Event>, list: List) {
    if log == [] then list == []
    else match log[|log| - 1]
      case Pushed(n) => list != [] && list[0] == n && Replays(log[..|log| - 1], list[1..])
      case Popped(n) => Replays(log[..|log| - 1], [n] + list)
  }

  function Pushes(log: seq<Event>): multiset<int> {
    if log == [] then multiset{}
    else Pushes(log[..|log| - 1]) + (if log[|log| - 1].Pushed? then multiset{log[|log| - 1].num} else multiset{})
  }

  function Pops(log: seq<Event>): multiset<int> {
    if log == [] then multiset{}
    else Pops(log[..|log| - 1]) + (if log[|log| - 1].Popped? then multiset{log[|log| - 1].num} else multiset{})
  }

  lemma HeadApart(n: int, list: List)
    ensures multiset([n] + list) == multiset{n} + multiset(list)
  {
  }

  // Nothing is lost, nothing is consumed twice.
  lemma {:induction false} NothingLost(log: seq<Event>, list: List)
    requires Replays(log, list)
    ensures Pushes(log) == Pops(log) + multiset(list)
  {
    hide Pushes, Pops, Replays;
    if log == [] {
      EmptyLog(list);
    } else {
      LastEvent(log, list);
      var rest, e := log[..|log| - 1], log[|log| - 1];
      NothingLost(rest, if e.Pushed? then list[1..] else [e.num] + list);
      HeadApart(e.num, if e.Pushed? then list[1..] else list);
    }
  }

  lemma EmptyLog(list: List)
    requires Replays([], list)
    ensures Pushes([]) == Pops([]) == multiset{} && list == []
  {
  }

  lemma LastEvent(log: seq<Event>, list: List)
    requires log != [] && Replays(log, list)
    ensures var rest, e := log[..|log| - 1], log[|log| - 1];
      if e.Pushed? then
        && list != [] && list == [e.num] + list[1..] && Replays(rest, list[1..])
        && Pushes(log) == Pushes(rest) + multiset{e.num} && Pops(log) == Pops(rest)
      else
        && Replays(rest, [e.num] + list)
        && Pushes(log) == Pushes(rest) && Pops(log) == Pops(rest) + multiset{e.num}
  {
  }

  lemma ReplaysPush(log: seq<Event>, list: List, n: int)
    requires Replays(log, list)
    ensures Replays(log + [Pushed(n)], [n] + list)
  {
    assert (log + [Pushed(n)])[..|log|] == log;
    assert ([n] + list)[1..] == list;
  }

  lemma ReplaysPop(log: seq<Event>, list: List)
    requires Replays(log, list) && list != []
    ensures Replays(log + [Popped(list[0])], list[1..])
  {
    assert (log + [Popped(list[0])])[..|log|] == log;
    assert [list[0]] + list[1..] == list;
  }

  lemma LogKept(s: State, a: Action)
    requires Replays(s.log, s.list) && CopyInv(s) && Enabled(s, a) && !Next(s, a).crashed
    ensures Replays(Next(s, a).log, Next(s, a).list)
  {
    hide Replays;
    match a
    case Produce(p, _) =>
      if s.producers[p].Linked? { ReplaysPush(s.log, s.list, s.producers[p].num); }
    case Consume(q) =>
      if s.consumers[q].Seen? { ReplaysPop(s.log, s.list); }
  }

  // ---------- Runs ----------

  ghost predicate Inv(s: State) {
    !s.crashed && MutexInv(s) && CopyInv(s) && TokenInv(s) && Replays(s.log, s.list)
  }

  lemma {:induction false} Kept(s: State, acts: seq<Action>, s': State)
    requires Inv(s) && Runs(s, acts, s')
    ensures Inv(s') && s'.producers.Keys == s.producers.Keys && s'.consumers.Keys == s.consumers.Keys
    decreases |acts|
  {
    hide MutexInv, CopyInv, TokenInv, Replays;
    if acts != [] {
      MutexKept(s, acts[0]);
      TokensKept(s, acts[0]);
      LogKept(s, acts[0]);
      Kept(Next(s, acts[0]), acts[1..], s');
    }
  }

  // In every run, whoever the threads are: the list holds at most Slots nodes and never crashes
  // a consumer, tokens and slots are conserved, and the numbers come out as from a stack.
  lemma RunsSafely(s0: State, acts: seq<Action>, s: State)
    requires Init(s0) && Runs(s0, acts, s)
    ensures !s.crashed && |s.list| <= Slots
    ensures |s.list| == s.csem + |Unserved(s.consumers)| + |Unannounced(s.producers)|
    ensures s.psem + |Unused(s.producers)| + |s.list| + |Unreturned(s.consumers)| == Slots
    ensures forall q :: q in s.consumers && s.consumers[q].Seen? ==> s.consumers[q].node == s.list != []
    ensures Replays(s.log, s.list) && Pushes(s.log) == Pops(s.log) + multiset(s.list)
  {
    InitInv(s0);
    Kept(s0, acts, s);
    NothingLost(s.log, s.list);
    forall q | q in s.consumers && s.consumers[q].Seen? ensures s.consumers[q].node == s.list != [] {
      SeesNode(s, q);
    }
  }

  lemma InitInv(s: State)
    requires Init(s)
    ensures Inv(s)
  {
    forall p | p in s.producers ensures !s.producers[p].Unused() && !s.producers[p].Unposted() {}
    forall q | q in s.consumers ensures !s.consumers[q].Unserved() && !s.consumers[q].Unposted() {}
    NoMember(Unused(s.producers));
    NoMember(Unannounced(s.producers));
    NoMember(Unserved(s.consumers));
    NoMember(Unreturned(s.consumers));
  }

  lemma NoMember<T>(m: set<T>)
    requires forall x :: x !in m
    ensures m == {}
  {
  }

  // ---------- Deadlock ----------

  ghost predicate Stuck(s: State) {
    forall a :: !Enabled(s, a)
  }

  ghost predicate DeadlockFree(s0: State) {
    forall acts, s :: Runs(s0, acts, s) ==> !Stuck(s)
  }

  // From a start state no run gets stuck exactly when there are both a producer and a consumer.
  lemma DeadlockFreeExactly(s0: State)
    requires Init(s0)
    ensures DeadlockFree(s0) <==> s0.producers.Keys != {} && s0.consumers.Keys != {}
  {
    hide Init, Runs, Inv;
    if s0.producers.Keys == {} {
      NobodyProduces(s0);
    } else if s0.consumers.Keys == {} {
      NobodyConsumes(s0);
    } else {
      var p := SomeMember(s0.producers.Keys);
      var q := SomeMember(s0.consumers.Keys);
      InitInv(s0);
      forall acts, s | Runs(s0, acts, s) ensures !Stuck(s) {
        Kept(s0, acts, s);
        var a := CanStep(s, p, q);
      }
    }
  }

  // With a producer and a consumer, some thread can always step.
  lemma CanStep(s: State, p: Id, q: Id) returns (a: Action)
    requires Inv(s) && p in s.producers.Keys && q in s.consumers.Keys
    ensures Enabled(s, a)
  {
    if s.mutex.ByProducer? { return Produce(s.mutex.p, 0); }
    if s.mutex.ByConsumer? { return Consume(s.mutex.q); }
    if !s.producers[p].Idle? || s.psem > 0 { return Produce(p, 0); }
    if !s.consumers[q].Waiting? || s.csem > 0 { return Consume(q); }
    if Unused(s.producers) != {} {
      var p' := SomeMember(Unused(s.producers));
      return Produce(p', 0);
    }
    if Unannounced(s.producers) != {} {
      var p' := SomeMember(Unannounced(s.producers));
      return Produce(p', 0);
    }
    if Unserved(s.consumers) != {} {
      var q' := SomeMember(Unserved(s.consumers));
      return Consume(q');
    }
    var q' := SomeMember(Unreturned(s.consumers));
    return Consume(q');
  }

  lemma SomeMember<T>(m: set<T>) returns (x: T)
    requires m != {}
    ensures x in m
  {
    x :| x in m;
  }

  lemma NobodyProduces(s0: State)
    requires Init(s0) && s0.producers.Keys == {}
    ensures !DeadlockFree(s0)
  {
    forall a ensures !Enabled(s0, a) {
      if a.Produce? { assert a.p !in s0.producers.Keys; }
    }
    assert Runs(s0, [], s0);
  }

  // Without consumers the producers fill the slots and all wait.
  lemma NobodyConsumes(s0: State)
    requires Init(s0) && s0.producers.Keys != {} && s0.consumers.Keys == {}
    ensures !DeadlockFree(s0)
  {
    hide Runs;
    var p := SomeMember(s0.producers.Keys);
    var acts, s := Fill(s0, p, Slots);
    forall a ensures !Enabled(s, a) {
      if a.Consume? { assert a.q !in s.consumers.Keys; }
    }
    assert Stuck(s);
  }

  ghost predicate Resting(s0: State, s: State, n: nat) {
    && n <= Slots && s.psem == Slots - n && s.csem == n && s.mutex == Free && !s.crashed
    && s.producers == s0.producers && s.consumers == s0.consumers
  }

  // Producer `p` goes round `n` times.
  lemma {:induction false} Fill(s0: State, p: Id, n: nat) returns (acts: seq<Action>, s: State)
    requires Init(s0) && p in s0.producers.Keys && n <= Slots
    ensures Runs(s0, acts, s) && Resting(s0, s, n)
  {
    hide Runs;
    if n == 0 {
      acts, s := [], s0;
      NoSteps(s0);
    } else {
      acts, s := Fill(s0, p, n - 1);
      var start := s.producers;
      acts, s := Onward(s0, acts, s, p);
      acts, s := Onward(s0, acts, s, p);
      acts, s := Onward(s0, acts, s, p);
      acts, s := Onward(s0, acts, s, p);
      acts, s := Onward(s0, acts, s, p);
      acts, s := Onward(s0, acts, s, p);
      assert s.producers == start;
    }
  }

  lemma NoSteps(s: State)
    ensures Runs(s, [], s)
  {
  }

  lemma Onward(s0: State, acts: seq<Action>, s: State, p: Id) returns (acts': seq<Action>, s': State)
    requires Runs(s0, acts, s) && Enabled(s, Produce(p, 0))
    ensures s' == ProducerNext(s, p, 0) && Runs(s0, acts', s')
  {
    acts', s' := acts + [Produce(p, 0)], ProducerNext(s, p, 0);
    Extend(s0, acts, s, Produce(p, 0));
  }

  lemma {:induction false} Extend(s0: State, acts: seq<Action>, s: State, a: Action)
    requires Runs(s0, acts, s) && Enabled(s, a)
    ensures Runs(s0, acts + [a], Next(s, a))
    decreases |acts|
  {
    if acts == [] {
      assert Runs(Next(s, a), [], Next(s, a));
      assert ([a])[1..] == [];
    } else {
      Extend(Next(s0, acts[0]), acts[1..], s, a);
      assert (acts + [a])[1..] == acts[1..] + [a];
    }
  }
}
