/**
 The per-client import cache: 32 open-addressed slots with linear probing, keyed by fd. The table is
 a sequence of slots; the hash is a parameter, so the results hold for any hash, and `CacheHash` is
 the one the code uses. `Shift` is the back-shift as written; `Backshift` is the one its comments
 describe (guard the right way round, index restarted when the hole moves).
 */
module ImportCache {
  import opened Options

  const SLOTS := 32

  datatype Slot = Empty | Entry(fd: int, buf: nat)

  type Table = t: seq<Slot> | |t| == SLOTS witness seq(SLOTS, i => Empty)

  type Index = i: int | 0 <= i < SLOTS

  type Hash = int -> nat

  function CacheHash(fd: int): nat {
    ((fd % 0x1_0000_0000) * 2654435761) % 0x1_0000_0000 % SLOTS
  }

  function Home(h: Hash, fd: int): Index {
    h(fd) % SLOTS
  }

  /** The slot i places after a, cyclically. */
  function Ahead(a: Index, i: nat): (k: Index)
    requires i < SLOTS
  {
    if a + i < SLOTS then a + i else a + i - SLOTS
  }

  /** How far b is after a, cyclically. */
  function Dist(a: Index, b: Index): (d: Index)
    ensures Ahead(a, d) == b
  {
    if a <= b then b - a else b - a + SLOTS
  }

  /** The source computes both with the remainder by the number of slots. */
  lemma CyclicIsModular(a: Index, b: Index, i: nat)
    requires i < SLOTS
    ensures Ahead(a, i) == (a + i) % SLOTS && Dist(a, b) == (b - a + SLOTS) % SLOTS
  {
  }

  /** j comes before slot k on the probe path from the home of the entry in k. */
  predicate OnPath(h: Hash, t: Table, k: Index, j: Index) {
    t[k].Entry? && Dist(Home(h, t[k].fd), j) < Dist(Home(h, t[k].fd), k)
  }

  /** No gap between a key's home and its slot. */
  ghost predicate NoGap(h: Hash, t: Table) {
    forall k: Index, j: Index :: OnPath(h, t, k, j) ==> t[j].Entry?
  }

  ghost predicate Distinct(t: Table) {
    forall j: Index, k: Index :: t[j].Entry? && t[k].Entry? && t[j].fd == t[k].fd ==> j == k
  }

  /** The slots hold exactly the pairs of m, each once. */
  ghost predicate Holds(t: Table, m: map<int, nat>) {
    Distinct(t) &&
    (forall k: Index :: t[k].Entry? ==> t[k].fd in m && m[t[k].fd] == t[k].buf) &&
    (forall fd :: fd in m ==> exists k: Index :: t[k] == Entry(fd, m[fd]))
  }

  /** The table is a working hash table for m. */
  ghost predicate Refines(h: Hash, t: Table, m: map<int, nat>) {
    Holds(t, m) && NoGap(h, t)
  }

  // ---- lookup ----

  /** The probe loop from its i-th slot on: where fd is, if it is met before an empty slot. */
  function Probe(h: Hash, t: Table, fd: int, i: nat): Option<Index>
    requires i <= SLOTS
    decreases SLOTS - i
  {
    if i == SLOTS then None
    else
      var k := Ahead(Home(h, fd), i);
      if t[k].Empty? then None
      else if t[k].fd == fd then Some(k)
      else Probe(h, t, fd, i + 1)
  }

  function Lookup(h: Hash, t: Table, fd: int): Option<nat> {
    match Probe(h, t, fd, 0)
    case None => None
    case Some(k) => if t[k].Entry? then Some(t[k].buf) else None
  }

  lemma {:induction false} ProbeIsRight(h: Hash, t: Table, fd: int, i: nat)
    requires i <= SLOTS
    ensures var p := Probe(h, t, fd, i);
            p.Some? ==> t[p.value].Entry? && t[p.value].fd == fd && i <= Dist(Home(h, fd), p.value) &&
                        forall j: Index :: i <= Dist(Home(h, fd), j) < Dist(Home(h, fd), p.value) ==> t[j].Entry?
    decreases SLOTS - i
  {
    if i < SLOTS {
      var k := Ahead(Home(h, fd), i);
      assert Dist(Home(h, fd), k) == i;
      if t[k].Entry? && t[k].fd != fd {
        ProbeIsRight(h, t, fd, i + 1);
      }
    }
  }

  lemma {:induction false} ProbeFinds(h: Hash, t: Table, k: Index, i: nat)
    requires t[k].Entry? && Distinct(t) && i <= Dist(Home(h, t[k].fd), k)
    requires forall j: Index :: OnPath(h, t, k, j) ==> t[j].Entry?
    ensures Probe(h, t, t[k].fd, i) == Some(k)
    decreases SLOTS - i
  {
    var j := Ahead(Home(h, t[k].fd), i);
    assert Dist(Home(h, t[k].fd), j) == i;
    if i < Dist(Home(h, t[k].fd), k) {
      assert OnPath(h, t, k, j);
      ProbeFinds(h, t, k, i + 1);
    }
  }

  /** Every cached fd is found exactly when there is no gap. */
  lemma FindableIffNoGap(h: Hash, t: Table)
    requires Distinct(t)
    ensures (forall k: Index :: t[k].Entry? ==> Probe(h, t, t[k].fd, 0) == Some(k)) <==> NoGap(h, t)
  {
    if NoGap(h, t) {
      forall k: Index | t[k].Entry? ensures Probe(h, t, t[k].fd, 0) == Some(k) {
        ProbeFinds(h, t, k, 0);
      }
    } else {
      var k: Index, j: Index :| OnPath(h, t, k, j) && t[j].Empty?;
      ProbeIsRight(h, t, t[k].fd, 0);
    }
  }

  /** Lookup in a working table is lookup in the map it stands for. */
  lemma LookupIsMapLookup(h: Hash, t: Table, m: map<int, nat>, fd: int)
    requires Refines(h, t, m)
    ensures Lookup(h, t, fd) == if fd in m then Some(m[fd]) else None
  {
    ProbeIsRight(h, t, fd, 0);
    if fd in m {
      var k: Index :| t[k] == Entry(fd, m[fd]);
      ProbeFinds(h, t, k, 0);
    }
  }

  // ---- insert ----

  /** The insert loop from its i-th slot on: the slot that holds fd, or the first empty one. */
  function Room(h: Hash, t: Table, fd: int, i: nat): Option<Index>
    requires i <= SLOTS
    decreases SLOTS - i
  {
    if i == SLOTS then None
    else
      var k := Ahead(Home(h, fd), i);
      if t[k].Empty? || t[k].fd == fd then Some(k) else Room(h, t, fd, i + 1)
  }

  /** The table after an insert, or None when the cache is full. */
  function Insert(h: Hash, t: Table, fd: int, buf: nat): Option<Table> {
    match Room(h, t, fd, 0)
    case None => None
    case Some(k) => Some(t[k := Entry(fd, buf)])
  }

  lemma {:induction false} RoomIsRight(h: Hash, t: Table, fd: int, i: nat)
    requires i <= SLOTS
    ensures var r := Room(h, t, fd, i);
            if r.Some? then
              (t[r.value].Empty? || t[r.value].fd == fd) &&
              forall j: Index :: i <= Dist(Home(h, fd), j) < Dist(Home(h, fd), r.value) ==>
                t[j].Entry? && t[j].fd != fd
            else
              forall j: Index :: i <= Dist(Home(h, fd), j) ==> t[j].Entry? && t[j].fd != fd
    decreases SLOTS - i
  {
    if i < SLOTS {
      var k := Ahead(Home(h, fd), i);
      assert Dist(Home(h, fd), k) == i;
      if t[k].Entry? && t[k].fd != fd {
        RoomIsRight(h, t, fd, i + 1);
      }
    }
  }

  /** Insert is map update, and it is refused exactly when the table is full and the fd is new. */
  lemma InsertIsMapUpdate(h: Hash, t: Table, m: map<int, nat>, fd: int, buf: nat)
    requires Refines(h, t, m)
    ensures var r := Insert(h, t, fd, buf);
            (r.None? <==> fd !in m && forall k: Index :: t[k].Entry?) &&
            (r.Some? ==> Refines(h, r.value, m[fd := buf]))
  {
    RoomIsRight(h, t, fd, 0);
    var r := Room(h, t, fd, 0);
    if r.Some? {
      InsertKeepsPairs(h, t, m, fd, buf, r.value);
      InsertKeepsPaths(h, t, fd, buf, r.value);
    }
  }

  lemma InsertKeepsPairs(h: Hash, t: Table, m: map<int, nat>, fd: int, buf: nat, k: Index)
    requires Refines(h, t, m) && (t[k].Empty? || t[k].fd == fd)
    requires forall j: Index :: Dist(Home(h, fd), j) < Dist(Home(h, fd), k) ==> t[j].Entry? && t[j].fd != fd
    ensures Holds(t[k := Entry(fd, buf)], m[fd := buf])
  {
    var u: Table := t[k := Entry(fd, buf)];
    forall j: Index | t[j].Entry? && t[j].fd == fd ensures j == k {
      assert OnPath(h, t, j, k) ==> t[k].Entry?;
    }
    var m' := m[fd := buf];
    forall x | x in m' ensures exists j: Index :: u[j] == Entry(x, m'[x]) {
      if x == fd {
        assert u[k] == Entry(x, buf);
      } else {
        var j: Index :| t[j] == Entry(x, m[x]);
        assert u[j] == Entry(x, m[x]);
      }
    }
  }

  lemma InsertKeepsPaths(h: Hash, t: Table, fd: int, buf: nat, k: Index)
    requires NoGap(h, t) && (t[k].Empty? || t[k].fd == fd)
    requires forall j: Index :: Dist(Home(h, fd), j) < Dist(Home(h, fd), k) ==> t[j].Entry?
    ensures NoGap(h, t[k := Entry(fd, buf)])
  {
    var u: Table := t[k := Entry(fd, buf)];
    forall x: Index, j: Index | OnPath(h, u, x, j) ensures u[j].Entry? {
      assert x != k ==> OnPath(h, t, x, j);
    }
  }

  // ---- evict as written ----

  /** The back-shift loop of the source: the guard keeps what should move, and i runs on. */
  function Shift(h: Hash, t: Table, hole: Index, i: nat): Table
    requires 1 <= i <= SLOTS
    decreases SLOTS - i
  {
    if i == SLOTS then t
    else
      var cur := Ahead(hole, i);
      if t[cur].Empty? then t
      else if Dist(Home(h, t[cur].fd), cur) >= Dist(hole, cur) then Shift(h, t, hole, i + 1)
      else Shift(h, t[hole := t[cur]][cur := Empty], cur, i + 1)
  }

  function Evict(h: Hash, t: Table, fd: int): Table {
    match Probe(h, t, fd, 0)
    case None => t
    case Some(v) => Shift(h, t[v := Empty], v, 1)
  }

  /** The condition under which the code keeps its promise: nothing sits right after the victim. */
  predicate NothingFollows(h: Hash, t: Table, fd: int) {
    match Probe(h, t, fd, 0)
    case None => true
    case Some(v) => t[Ahead(v, 1)].Empty?
  }

  lemma MoveKeepsPairs(t: Table, m: map<int, nat>, hole: Index, cur: Index)
    requires Holds(t, m) && t[hole].Empty? && t[cur].Entry?
    ensures Holds(t[hole := t[cur]][cur := Empty], m)
  {
    var u: Table := t[hole := t[cur]][cur := Empty];
    forall k: Index | u[k].Entry? ensures u[k] == t[if k == hole then cur else k] {
    }
    forall fd | fd in m ensures exists k: Index :: u[k] == Entry(fd, m[fd]) {
      var k: Index :| t[k] == Entry(fd, m[fd]);
      assert u[if k == cur then hole else k] == Entry(fd, m[fd]);
    }
  }

  lemma {:induction false} ShiftKeepsPairs(h: Hash, t: Table, m: map<int, nat>, hole: Index, i: nat)
    requires 1 <= i <= SLOTS && Holds(t, m) && t[hole].Empty?
    ensures Holds(Shift(h, t, hole, i), m)
    decreases SLOTS - i
  {
    if i < SLOTS {
      var cur := Ahead(hole, i);
      if t[cur].Entry? {
        if Dist(Home(h, t[cur].fd), cur) >= Dist(hole, cur) {
          ShiftKeepsPairs(h, t, m, hole, i + 1);
        } else {
          MoveKeepsPairs(t, m, hole, cur);
          ShiftKeepsPairs(h, t[hole := t[cur]][cur := Empty], m, cur, i + 1);
        }
      }
    }
  }

  /** Once the hole lies on somebody's path, no later pass repairs it: every move puts an entry before its home. */
  lemma {:induction false} ShiftNeverRepairs(h: Hash, t: Table, hole: Index, i: nat, k: Index)
    requires 1 <= i <= SLOTS && t[hole].Empty? && OnPath(h, t, k, hole)
    ensures !NoGap(h, Shift(h, t, hole, i))
    decreases SLOTS - i
  {
    if i < SLOTS {
      var cur := Ahead(hole, i);
      if t[cur].Entry? {
        if Dist(Home(h, t[cur].fd), cur) >= Dist(hole, cur) {
          ShiftNeverRepairs(h, t, hole, i + 1, k);
        } else {
          var u: Table := t[hole := t[cur]][cur := Empty];
          assert OnPath(h, u, hole, cur);
          ShiftNeverRepairs(h, u, cur, i + 1, hole);
        }
      }
    }
  }

  lemma RemovePairs(t: Table, m: map<int, nat>, v: Index)
    requires Holds(t, m) && t[v].Entry?
    ensures Holds(t[v := Empty], m - {t[v].fd})
  {
    var u: Table := t[v := Empty];
    forall fd | fd in m - {t[v].fd} ensures exists k: Index :: u[k] == Entry(fd, m[fd]) {
      var k: Index :| t[k] == Entry(fd, m[fd]);
      assert u[k] == Entry(fd, m[fd]);
    }
  }

  lemma DistNext(a: Index, v: Index)
    ensures Dist(a, Ahead(v, 1)) == if a == Ahead(v, 1) then 0 else Dist(a, v) + 1
    ensures a == Ahead(v, 1) ==> Dist(a, v) == SLOTS - 1
  {
  }

  lemma AloneLeavesNoGap(h: Hash, t: Table, v: Index)
    requires NoGap(h, t) && t[v].Entry? && t[Ahead(v, 1)].Empty?
    ensures NoGap(h, t[v := Empty])
  {
    var u: Table := t[v := Empty];
    var next := Ahead(v, 1);
    forall k: Index, j: Index | OnPath(h, u, k, j) ensures u[j].Entry? {
      assert OnPath(h, t, k, j);
      if j == v {
        DistNext(Home(h, t[k].fd), v);
        assert OnPath(h, t, k, next);
      }
    }
  }

  lemma FollowedLeavesGap(h: Hash, t: Table, v: Index)
    requires t[v].Entry? && t[Ahead(v, 1)].Entry?
    ensures !NoGap(h, Shift(h, t[v := Empty], v, 1))
  {
    var u: Table := t[v := Empty];
    var next := Ahead(v, 1);
    DistNext(Home(h, t[next].fd), v);
    assert Dist(v, next) == 1 && v != next;
    if Home(h, t[next].fd) == next {
      var w: Table := u[v := u[next]][next := Empty];
      assert Shift(h, u, v, 1) == Shift(h, w, next, 2);
      ShiftNeverRepairs(h, w, next, 2, v);
    } else {
      assert OnPath(h, u, next, v);
      ShiftNeverRepairs(h, u, v, 2, next);
    }
  }

  /**
   Evict as written removes exactly fd and leaves a working table if and only if fd is not cached or
   the slot after it is empty. For every hash and every table.
   */
  lemma EvictIsMapRemovalIff(h: Hash, t: Table, m: map<int, nat>, fd: int)
    requires Refines(h, t, m)
    ensures Refines(h, Evict(h, t, fd), m - {fd}) <==> NothingFollows(h, t, fd)
  {
    ProbeIsRight(h, t, fd, 0);
    match Probe(h, t, fd, 0)
    case None =>
      LookupIsMapLookup(h, t, m, fd);
      assert m - {fd} == m;
    case Some(v) =>
      if t[Ahead(v, 1)].Empty? {
        RemovePairs(t, m, v);
        AloneLeavesNoGap(h, t, v);
      } else {
        FollowedLeavesGap(h, t, v);
      }
  }

  /** What goes wrong otherwise: another fd is still in the table and can no longer be found. */
  lemma EvictLosesAnotherFd(h: Hash, t: Table, m: map<int, nat>, fd: int) returns (lost: int)
    requires Refines(h, t, m) && !NothingFollows(h, t, fd)
    ensures lost in m && lost != fd && Lookup(h, Evict(h, t, fd), lost) == None
    ensures Holds(Evict(h, t, fd), m - {fd})
  {
    var v := Probe(h, t, fd, 0).value;
    ProbeIsRight(h, t, fd, 0);
    RemovePairs(t, m, v);
    ShiftKeepsPairs(h, t[v := Empty], m - {fd}, v, 1);
    FollowedLeavesGap(h, t, v);
    var u := Evict(h, t, fd);
    FindableIffNoGap(h, u);
    var k: Index :| u[k].Entry? && Probe(h, u, u[k].fd, 0) != Some(k);
    lost := u[k].fd;
    ProbeIsRight(h, u, lost, 0);
  }
}
