/**
 What the three walks over the import cache do, in the arithmetic of the source and apart from the table
 functions: where a lookup ends, which slot an insert takes, and which entries the as-written evict
 moves.
 */
module CacheWalks {
  import opened Options
  import opened ImportCache
  import opened BufferCache

  // ---- lookup and insert ----

  /** Steps from the home of fd to slot j, going forward. */
  function Steps(h: Hash, fd: int, j: Index): nat {
    (j - h(fd) % SLOTS + SLOTS) % SLOTS
  }

  lemma StepsIsDist(h: Hash, fd: int, j: Index)
    ensures Steps(h, fd, j) == Dist(Home(h, fd), j)
  {
    CyclicIsModular(Home(h, fd), j, 0);
  }

  /** Every slot before k on the way from fd's home has another fd. */
  ghost predicate OthersBefore(h: Hash, t: Table, fd: int, k: Index) {
    forall j: Index :: Steps(h, fd, j) < Steps(h, fd, k) ==> t[j].Entry? && t[j].fd != fd
  }

  lemma {:induction false} ProbeFrom(h: Hash, t: Table, fd: int, k: Index, i: nat)
    requires i <= Steps(h, fd, k) && t[k].Entry? && t[k].fd == fd && OthersBefore(h, t, fd, k)
    ensures Probe(h, t, fd, i) == Some(k)
    decreases SLOTS - i
  {
    StepsIsDist(h, fd, k);
    var j := Ahead(Home(h, fd), i);
    StepsIsDist(h, fd, j);
    assert Dist(Home(h, fd), j) == i;
    if i < Steps(h, fd, k) {
      ProbeFrom(h, t, fd, k, i + 1);
    }
  }

  lemma {:induction false} ProbeStops(h: Hash, t: Table, fd: int, i: nat)
    requires i <= SLOTS && forall j: Index :: Steps(h, fd, j) < i ==> t[j].Entry? && t[j].fd != fd
    ensures var p := Probe(h, t, fd, i);
            p.Some? ==> t[p.value].Entry? && t[p.value].fd == fd && OthersBefore(h, t, fd, p.value)
    decreases SLOTS - i
  {
    if i < SLOTS {
      var k := Ahead(Home(h, fd), i);
      StepsIsDist(h, fd, k);
      assert Dist(Home(h, fd), k) == i;
      forall j: Index | Steps(h, fd, j) < i + 1 && j != k ensures Steps(h, fd, j) < i {
        StepsIsDist(h, fd, j);
      }
      if t[k].Entry? && t[k].fd != fd {
        ProbeStops(h, t, fd, i + 1);
      }
    }
  }

  /** A lookup ends at k exactly if k has the fd and every slot before it has another one; any table. */
  lemma LookupEndsAt(h: Hash, t: Table, fd: int, k: Index)
    ensures Probe(h, t, fd, 0) == Some(k) <==> t[k].Entry? && t[k].fd == fd && OthersBefore(h, t, fd, k)
  {
    ProbeStops(h, t, fd, 0);
    if t[k].Entry? && t[k].fd == fd && OthersBefore(h, t, fd, k) {
      ProbeFrom(h, t, fd, k, 0);
    }
  }

  lemma {:induction false} RoomFrom(h: Hash, t: Table, fd: int, k: Index, i: nat)
    requires i <= Steps(h, fd, k) && (t[k].Empty? || t[k].fd == fd) && OthersBefore(h, t, fd, k)
    ensures Room(h, t, fd, i) == Some(k)
    decreases SLOTS - i
  {
    StepsIsDist(h, fd, k);
    var j := Ahead(Home(h, fd), i);
    StepsIsDist(h, fd, j);
    assert Dist(Home(h, fd), j) == i;
    if i < Steps(h, fd, k) {
      RoomFrom(h, t, fd, k, i + 1);
    }
  }

  /** An insert takes slot k exactly if k is empty or has the fd and every slot before it has another one. */
  lemma InsertTakes(h: Hash, t: Table, fd: int, buf: nat, k: Index)
    ensures Room(h, t, fd, 0) == Some(k) <==> (t[k].Empty? || t[k].fd == fd) && OthersBefore(h, t, fd, k)
    ensures Room(h, t, fd, 0) == Some(k) ==> Insert(h, t, fd, buf) == Some(t[k := Entry(fd, buf)])
  {
    RoomIsRight(h, t, fd, 0);
    if Room(h, t, fd, 0) == Some(k) {
      forall j: Index | Steps(h, fd, j) < Steps(h, fd, k) ensures t[j].Entry? && t[j].fd != fd {
        StepsIsDist(h, fd, j);
        StepsIsDist(h, fd, k);
      }
    }
    if (t[k].Empty? || t[k].fd == fd) && OthersBefore(h, t, fd, k) {
      RoomFrom(h, t, fd, k, 0);
    }
  }

  // ---- evict as written ----

  /** Forward distance as the source computes it. */
  function Forward(a: Index, b: Index): nat {
    (b - a + SLOTS) % SLOTS
  }

  /** Whether the loop leaves the entry of slot cur alone when the hole is at `hole`. */
  predicate Stays(h: Hash, t: Table, hole: Index, cur: Index) {
    t[cur].Entry? && Forward(h(t[cur].fd) % SLOTS, cur) >= Forward(hole, cur)
  }

  /**
   Pass i of the loop with its hole at `hole`: the slot i places on is occupied; its entry stays, and so
   does the hole, or it moves into the hole and its slot is the new hole.
   */
  ghost predicate Pass(h: Hash, t: Table, hole: Index, i: nat, u: Table, next: Index) {
    var cur := (hole + i) % SLOTS;
    t[cur].Entry? &&
    if Stays(h, t, hole, cur) then u == t && next == hole
    else u == t[hole := t[cur]][cur := Empty] && next == cur
  }

  /** The tables and holes before each pass, and after the last one. */
  ghost predicate Walk(h: Hash, tables: seq<Table>, holes: seq<Index>) {
    1 <= |tables| <= SLOTS && |holes| == |tables| &&
    forall j :: 0 <= j < |tables| - 1 ==> Pass(h, tables[j], holes[j], j + 1, tables[j + 1], holes[j + 1])
  }

  /** The loop ends after pass 31, or at an empty slot. */
  ghost predicate Ended(tables: seq<Table>, holes: seq<Index>)
    requires |holes| == |tables| >= 1
  {
    var n := |tables|;
    n == SLOTS || tables[n - 1][(holes[n - 1] + n) % SLOTS].Empty?
  }

  lemma PassIsShift(h: Hash, t: Table, hole: Index, i: nat, u: Table, next: Index)
    requires 1 <= i < SLOTS && Pass(h, t, hole, i, u, next)
    ensures Shift(h, t, hole, i) == Shift(h, u, next, i + 1)
  {
    var cur := Ahead(hole, i);
    CyclicIsModular(hole, cur, i);
    CyclicIsModular(Home(h, t[cur].fd), cur, 0);
  }

  lemma EndIsShift(h: Hash, t: Table, hole: Index, i: nat)
    requires 1 <= i <= SLOTS && (i == SLOTS || t[(hole + i) % SLOTS].Empty?)
    ensures Shift(h, t, hole, i) == t
  {
    if i < SLOTS {
      CyclicIsModular(hole, hole, i);
    }
  }

  /** Any walk that has ended, ends with what the loop leaves. */
  lemma {:induction false} WalkIsShift(h: Hash, tables: seq<Table>, holes: seq<Index>, j: nat)
    requires Walk(h, tables, holes) && Ended(tables, holes) && j < |tables|
    ensures Shift(h, tables[j], holes[j], j + 1) == tables[|tables| - 1]
    decreases |tables| - j
  {
    if j < |tables| - 1 {
      assert Pass(h, tables[j], holes[j], j + 1, tables[j + 1], holes[j + 1]);
      PassIsShift(h, tables[j], holes[j], j + 1, tables[j + 1], holes[j + 1]);
      WalkIsShift(h, tables, holes, j + 1);
    } else {
      EndIsShift(h, tables[j], holes[j], j + 1);
    }
  }

  /** Every walk that has not ended has a next pass. */
  lemma NextPass(h: Hash, t: Table, hole: Index, i: nat) returns (u: Table, next: Index)
    requires 1 <= i < SLOTS && t[(hole + i) % SLOTS].Entry?
    ensures Pass(h, t, hole, i, u, next)
  {
    var cur := (hole + i) % SLOTS;
    if Stays(h, t, hole, cur) {
      u, next := t, hole;
    } else {
      u, next := t[hole := t[cur]][cur := Empty], cur;
    }
  }

  lemma {:induction false} WalkOn(h: Hash, tables: seq<Table>, holes: seq<Index>)
      returns (all: seq<Table>, ways: seq<Index>)
    requires Walk(h, tables, holes)
    ensures Walk(h, all, ways) && Ended(all, ways) && all[0] == tables[0] && ways[0] == holes[0]
    decreases SLOTS - |tables|
  {
    if Ended(tables, holes) {
      all, ways := tables, holes;
    } else {
      var n := |tables|;
      var u, next := NextPass(h, tables[n - 1], holes[n - 1], n);
      all, ways := WalkOn(h, tables + [u], holes + [next]);
    }
  }

  /** Evict as written: the slot v of the fd is emptied, the loop walks from there and ends. */
  lemma EvictWalks(h: Hash, t: Table, fd: int, v: Index) returns (tables: seq<Table>, holes: seq<Index>)
    requires t[v].Entry? && t[v].fd == fd && OthersBefore(h, t, fd, v)
    ensures Walk(h, tables, holes) && Ended(tables, holes) && tables[0] == t[v := Empty] && holes[0] == v
    ensures Evict(h, t, fd) == tables[|tables| - 1]
  {
    LookupEndsAt(h, t, fd, v);
    tables, holes := WalkOn(h, [t[v := Empty]], [v]);
    WalkIsShift(h, tables, holes, 0);
  }

  /** An fd that a lookup does not find changes nothing. */
  lemma EvictOfAbsent(h: Hash, t: Table, fd: int)
    requires forall k: Index :: t[k].Entry? && t[k].fd == fd ==> !OthersBefore(h, t, fd, k)
    ensures Evict(h, t, fd) == t
  {
    if Probe(h, t, fd, 0).Some? {
      LookupEndsAt(h, t, fd, Probe(h, t, fd, 0).value);
    }
  }

  /** Whatever walks from v by these rules and has ended, ends with the table that evict leaves. */
  lemma WalkIsUnique(h: Hash, t: Table, fd: int, v: Index, tables: seq<Table>, holes: seq<Index>)
    requires t[v].Entry? && t[v].fd == fd && OthersBefore(h, t, fd, v)
    requires Walk(h, tables, holes) && Ended(tables, holes) && tables[0] == t[v := Empty] && holes[0] == v
    ensures Evict(h, t, fd) == tables[|tables| - 1]
  {
    LookupEndsAt(h, t, fd, v);
    WalkIsShift(h, tables, holes, 0);
  }

  // ---- three fds ----

  const THREE: Table := BOTH[21 := Entry(5, 300)]

  lemma FiveHasHome21()
    ensures Home(CacheHash, 5) == 21
  {
    assert 5 * 2654435761 == 3 * 0x1_0000_0000 + 387276917 && 387276917 == 12102403 * SLOTS + 21;
  }

  lemma EvictThree()
    ensures Evict(CacheHash, THREE, 3) == NONE[19 := Entry(5, 300)][20 := Entry(35, 200)]
  {
    BothShareHome19();
    FiveHasHome21();
    var u: Table := THREE[19 := Empty];
    var w: Table := u[19 := u[21]][21 := Empty];
    assert Probe(CacheHash, THREE, 3, 0) == Some(19);
    assert Shift(CacheHash, u, 19, 1) == Shift(CacheHash, u, 19, 2) == Shift(CacheHash, w, 21, 3) == w;
    assert w == NONE[19 := Entry(5, 300)][20 := Entry(35, 200)];
  }

  /**
   3 and 35 at home in 19, 5 at home in 21. Evicting 3 passes over 35, moves 5 before its home and ends:
   35 is still found and 5 is lost.
   */
  lemma EvictingThreeLosesFive()
    ensures var t := Evict(CacheHash, THREE, 3);
            Lookup(CacheHash, THREE, 5) == Some(300) && Lookup(CacheHash, t, 35) == Some(200) &&
            Lookup(CacheHash, t, 5) == None
  {
    BothShareHome19();
    FiveHasHome21();
    EvictThree();
    var t: Table := NONE[19 := Entry(5, 300)][20 := Entry(35, 200)];
    assert Probe(CacheHash, t, 35, 0) == Probe(CacheHash, t, 35, 1) == Some(20);
  }
}
