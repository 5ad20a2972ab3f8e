// A producer that waits under `if` overflows the ring whenever the care of PoolFifo is not taken.

module PoolOverflow {
  import opened PoolModel
  import PoolFifo
  import opened PoolRuns

  lemma SpuriousOverflow(c: Conf, p: int) returns (s: State)
    requires c.minNum <= c.maxNum && !c.rechecks && c.spurious && p in c.callers
    ensures Reached(c, s) && s.sh.size > c.capacity
  {
    StartRests(c);
    s := Flood(c, Start(c), c.capacity + 1);
  }

  lemma CrowdedOverflow(c: Conf, p: int, q: int) returns (s: State)
    requires c.minNum <= c.maxNum && !c.rechecks && c.capacity > 0 && c.maxNum > 0
    requires p in c.callers && q in c.callers && p != q
    ensures Reached(c, s) && s.sh.size > c.capacity
  {
    StartRests(c);
    s := Start(c);
    if c.minNum == 0 {
      s := Flood(c, s, 1);
      s := Grow(c, s);
    }
    RestFacts(c, s);
    s := Flood(c, s, c.capacity + 1);
  }

  ghost predicate NeverOverflows(c: Conf) {
    forall ids, s0, acts, s :: Init(c, s0, ids) && Runs(c, s0, acts, s) ==> s.sh.size <= c.capacity
  }

  // The ring stays within its capacity in every run exactly when the care is taken.
  lemma OverflowExactly(c: Conf)
    requires c.minNum <= c.maxNum
    ensures NeverOverflows(c) <==> PoolFifo.Careful(c)
  {
    hide Init, Runs;
    if PoolFifo.Careful(c) {
      forall ids, s0, acts, s | Init(c, s0, ids) && Runs(c, s0, acts, s) ensures s.sh.size <= c.capacity {
        PoolFifo.BoundedFifo(c, ids, s0, acts, s);
      }
    } else {
      var p := SomeMember(c.callers);
      var s;
      if c.spurious {
        s := SpuriousOverflow(c, p);
      } else {
        assert !PoolFifo.Single(c);
        var q, q' :| q in c.callers && q' in c.callers && q != q';
        s := CrowdedOverflow(c, q, q');
      }
      StartInit(c);
      var acts :| Runs(c, Start(c), acts, s);
    }
  }
}
