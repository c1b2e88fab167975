/**
 The back-shift that the comments of isz_buffer_cache_evict describe: an entry whose home is at or
 before the hole moves into it, and the walk restarts behind the new hole. It terminates because each
 move brings an entry nearer to its home, also when the table was full, and it is right for every
 table and hash.
 */
module Backshift {
  import opened Options
  import opened ImportCache

  /** How far the entry in slot k is from its home. */
  function Cost(h: Hash, s: Slot, k: Index): nat {
    if s.Entry? then Dist(Home(h, s.fd), k) else 0
  }

  function TotalCost(h: Hash, t: Table, n: nat): nat
    requires n <= SLOTS
  {
    if n == 0 then 0 else TotalCost(h, t, n - 1) + Cost(h, t[n - 1], n - 1)
  }

  lemma {:induction false} CostOfUpdate(h: Hash, t: Table, k: Index, s: Slot, n: nat)
    requires n <= SLOTS
    ensures TotalCost(h, t[k := s], n) ==
            TotalCost(h, t, n) + (if k < n then Cost(h, s, k) - Cost(h, t[k], k) else 0)
  {
    if n > 0 {
      CostOfUpdate(h, t, k, s, n - 1);
    }
  }

  function Moved(t: Table, hole: Index, cur: Index): Table {
    t[hole := t[cur]][cur := Empty]
  }

  /** The entry in cur may fill the hole: its home is not strictly between the hole and cur, nor cur. */
  predicate Fits(h: Hash, t: Table, hole: Index, cur: Index) {
    t[cur].Entry? && Dist(Home(h, t[cur].fd), cur) >= Dist(hole, cur)
  }

  lemma MoveLowersCost(h: Hash, t: Table, hole: Index, cur: Index)
    requires t[hole].Empty? && hole != cur && Fits(h, t, hole, cur)
    ensures TotalCost(h, Moved(t, hole, cur), SLOTS) < TotalCost(h, t, SLOTS)
  {
    CostOfUpdate(h, t, hole, t[cur], SLOTS);
    CostOfUpdate(h, t[hole := t[cur]], cur, Empty, SLOTS);
  }

  function Refill(h: Hash, t: Table, hole: Index, i: nat): Table
    requires 1 <= i <= SLOTS && t[hole].Empty?
    decreases TotalCost(h, t, SLOTS), SLOTS - i
  {
    if i == SLOTS then t
    else
      var cur := Ahead(hole, i);
      if t[cur].Empty? then t
      else if Fits(h, t, hole, cur) then
        MoveLowersCost(h, t, hole, cur);
        Refill(h, Moved(t, hole, cur), cur, 1)
      else Refill(h, t, hole, i + 1)
  }

  function Remove(h: Hash, t: Table, fd: int): Table {
    match Probe(h, t, fd, 0)
    case None => t
    case Some(v) => Refill(h, t[v := Empty], v, 1)
  }

  // ---- the invariant of the walk ----

  /** The hole is the only gap. */
  ghost predicate OneGap(h: Hash, t: Table, hole: Index) {
    forall k: Index, j: Index :: OnPath(h, t, k, j) ==> t[j].Entry? || j == hole
  }

  /** None of the i - 1 slots behind the hole needs the hole on its path. */
  ghost predicate Passed(h: Hash, t: Table, hole: Index, i: nat) {
    forall k: Index :: Dist(hole, k) < i ==> !OnPath(h, t, k, hole)
  }

  lemma MoveKeepsOneGap(h: Hash, t: Table, hole: Index, cur: Index)
    requires OneGap(h, t, hole) && t[hole].Empty? && hole != cur && Fits(h, t, hole, cur)
    ensures OneGap(h, Moved(t, hole, cur), cur)
  {
    var u := Moved(t, hole, cur);
    forall k: Index, j: Index | OnPath(h, u, k, j) ensures u[j].Entry? || j == cur {
      if k == hole {
        assert OnPath(h, t, cur, j);
      } else {
        assert OnPath(h, t, k, j);
      }
    }
  }

  /** An empty slot ends the walk: whoever needed the hole would need that slot too. */
  lemma EmptyEndsCluster(h: Hash, t: Table, hole: Index, cur: Index)
    requires OneGap(h, t, hole) && t[hole].Empty? && t[cur].Empty? && hole != cur
    requires Passed(h, t, hole, Dist(hole, cur))
    ensures NoGap(h, t)
  {
    forall k: Index, j: Index | OnPath(h, t, k, j) ensures t[j].Entry? {
      if j == hole {
        assert OnPath(h, t, k, cur);
      }
    }
  }

  lemma {:induction false} RefillIsRight(h: Hash, t: Table, m: map<int, nat>, hole: Index, i: nat)
    requires 1 <= i <= SLOTS && t[hole].Empty?
    requires Holds(t, m) && OneGap(h, t, hole) && Passed(h, t, hole, i)
    ensures Refines(h, Refill(h, t, hole, i), m)
    decreases TotalCost(h, t, SLOTS), SLOTS - i
  {
    if i == SLOTS {
      assert forall k: Index :: Dist(hole, k) < SLOTS;
    } else {
      var cur := Ahead(hole, i);
      assert Dist(hole, cur) == i;
      if t[cur].Empty? {
        EmptyEndsCluster(h, t, hole, cur);
      } else if Fits(h, t, hole, cur) {
        MoveLowersCost(h, t, hole, cur);
        MoveKeepsPairs(t, m, hole, cur);
        MoveKeepsOneGap(h, t, hole, cur);
        RefillIsRight(h, Moved(t, hole, cur), m, cur, 1);
      } else {
        RefillIsRight(h, t, m, hole, i + 1);
      }
    }
  }

  /** The meant evict removes exactly fd, from every working table, full or not, for every hash. */
  lemma RemoveIsMapRemoval(h: Hash, t: Table, m: map<int, nat>, fd: int)
    requires Refines(h, t, m)
    ensures Refines(h, Remove(h, t, fd), m - {fd})
  {
    ProbeIsRight(h, t, fd, 0);
    match Probe(h, t, fd, 0)
    case None =>
      LookupIsMapLookup(h, t, m, fd);
      assert m - {fd} == m;
    case Some(v) =>
      var u: Table := t[v := Empty];
      RemovePairs(t, m, v);
      forall k: Index, j: Index | OnPath(h, u, k, j) ensures u[j].Entry? || j == v {
        assert OnPath(h, t, k, j);
      }
      RefillIsRight(h, u, m - {fd}, v, 1);
  }
}
