// The linked list behind `head`, changed in place inside the mutex.

module Store {
  import opened ProdCons

  class Node {
    var num: int
    var next: Node?

    constructor (num: int, next: Node?)
      ensures this.num == num && this.next == next
    {
      this.num, this.next := num, next;
    }
  }

  function NodeAt(nodes: seq<Node>, i: nat): Node? {
    if i < |nodes| then nodes[i] else null
  }

  class Chain {
    var head: Node?
    ghost var nodes: seq<Node>

    ghost predicate Valid()
      reads this, nodes
    {
      && head == NodeAt(nodes, 0)
      && (forall i :: 0 <= i < |nodes| ==> nodes[i].next == NodeAt(nodes, i + 1))
    }

    // What `head` leads to.
    ghost function Nums(): (s: List)
      reads this, nodes
      ensures |s| == |nodes|
    {
      seq(|nodes|, i requires 0 <= i < |nodes| reads this, nodes => nodes[i].num)
    }

    constructor ()
      ensures Valid() && Nums() == []
    {
      head, nodes := null, [];
    }

    // The producer's part inside the mutex.
    method Push(num: int)
      requires Valid()
      modifies this
      ensures Valid() && Nums() == [num] + old(Nums())
      ensures fresh(head) && nodes == [head] + old(nodes)
    {
      var pnew := new Node(num, head);
      head, nodes := pnew, [pnew] + nodes;
      forall i | 0 <= i < |nodes| ensures nodes[i].next == NodeAt(nodes, i + 1) {
        if i > 0 { assert nodes[i] == old(nodes)[i - 1]; }
      }
    }

    // The consumer's part: it reads through `head`, which ConsumerMayPop shows is not NULL.
    method Pop() returns (num: int)
      requires Valid() && head != null
      modifies this
      ensures Valid() && old(Nums()) == [num] + Nums()
      ensures nodes == old(nodes)[1..]
    {
      var pnew := head;
      num := pnew.num;
      head, nodes := pnew.next, nodes[1..];
      forall i | 0 <= i < |nodes| ensures nodes[i].next == NodeAt(nodes, i + 1) {
        assert nodes[i] == old(nodes)[i + 1];
      }
      assert NodeAt(nodes, 0) == NodeAt(old(nodes), 1);
    }
  }

  // Whenever the chain is the list of a reachable state, a consumer that took a token may pop.
  lemma ConsumerMayPop(chain: Chain, s0: State, acts: seq<Action>, s: State, q: Id)
    requires Init(s0) && Runs(s0, acts, s) && q in s.consumers && s.consumers[q].Unserved()
    requires chain.Valid() && chain.Nums() == s.list
    ensures chain.head != null
  {
    InitInv(s0);
    Kept(s0, acts, s);
    SeesNode(s, q);
  }

  // The protocol's step past `pnew = head`, done to the chain.
  method ConsumeStep(chain: Chain, ghost s: State, ghost q: Id) returns (num: int)
    requires Inv(s) && q in s.consumers && s.consumers[q].Seen?
    requires chain.Valid() && chain.Nums() == s.list
    modifies chain
    ensures chain.Valid() && chain.Nums() == Next(s, Consume(q)).list
    ensures Next(s, Consume(q)).log == s.log + [Popped(num)]
  {
    SeesNode(s, q);
    num := chain.Pop();
  }

  // The protocol's step past `pnew->next = head`, done to the chain.
  method ProduceStep(chain: Chain, ghost s: State, ghost p: Id, num: int)
    requires Inv(s) && p in s.producers && s.producers[p].Linked? && s.producers[p].num == num
    requires chain.Valid() && chain.Nums() == s.list
    modifies chain
    ensures chain.Valid() && chain.Nums() == Next(s, Produce(p, num)).list
    ensures Next(s, Produce(p, num)).log == s.log + [Pushed(num)]
  {
    chain.Push(num);
  }
}
