/**
 The import cache in place: the probe, insert, evict and teardown loops over the slot array, each proved
 against the table functions. Evict exists twice, as the source has it and as its comments mean it.
 The buffer whose reference an operation drops is an out-parameter; `CacheAccounting` ties the slots'
 references to those of the retirement protocol.
 */
module BufferCache {
  import opened Options
  import opened ImportCache
  import Backshift

  // ---- references held by the table ----

  function Holding(s: Slot, b: nat): nat {
    if s.Entry? && s.buf == b then 1 else 0
  }

  /** The references to b that the first n slots own: one for each slot that names it. */
  function RefsTo(t: Table, n: nat, b: nat): nat
    requires n <= SLOTS
  {
    if n == 0 then 0 else RefsTo(t, n - 1, b) + Holding(t[n - 1], b)
  }

  lemma {:induction false} RefsOfUpdate(t: Table, k: Index, s: Slot, n: nat, b: nat)
    requires n <= SLOTS
    ensures RefsTo(t[k := s], n, b) ==
            RefsTo(t, n, b) + (if k < n then Holding(s, b) - Holding(t[k], b) else 0)
  {
    if n > 0 {
      RefsOfUpdate(t, k, s, n - 1, b);
    }
  }

  lemma {:induction false} ShiftKeepsRefs(h: Hash, t: Table, hole: Index, i: nat, b: nat)
    requires 1 <= i <= SLOTS && t[hole].Empty?
    ensures RefsTo(Shift(h, t, hole, i), SLOTS, b) == RefsTo(t, SLOTS, b)
    decreases SLOTS - i
  {
    if i < SLOTS {
      var cur := Ahead(hole, i);
      if t[cur].Entry? {
        if Dist(Home(h, t[cur].fd), cur) >= Dist(hole, cur) {
          ShiftKeepsRefs(h, t, hole, i + 1, b);
        } else {
          RefsOfUpdate(t, hole, t[cur], SLOTS, b);
          RefsOfUpdate(t[hole := t[cur]], cur, Empty, SLOTS, b);
          ShiftKeepsRefs(h, t[hole := t[cur]][cur := Empty], cur, i + 1, b);
        }
      }
    }
  }

  /** Evict as written drops exactly the victim's reference, even where it loses other entries. */
  lemma EvictDropsOneRef(h: Hash, t: Table, fd: int, b: nat)
    ensures RefsTo(t, SLOTS, b) == RefsTo(Evict(h, t, fd), SLOTS, b) +
            match Probe(h, t, fd, 0)
            case None => 0
            case Some(v) => Holding(t[v], b)
  {
    if Probe(h, t, fd, 0).Some? {
      var v := Probe(h, t, fd, 0).value;
      RefsOfUpdate(t, v, Empty, SLOTS, b);
      ShiftKeepsRefs(h, t[v := Empty], v, 1, b);
    }
  }

  /** Insert takes one reference to the new buffer and drops the one it replaces. */
  lemma InsertTakesOneRef(h: Hash, t: Table, fd: int, buf: nat, b: nat)
    requires Insert(h, t, fd, buf).Some?
    ensures RefsTo(Insert(h, t, fd, buf).value, SLOTS, b) + Holding(t[Room(h, t, fd, 0).value], b) ==
            RefsTo(t, SLOTS, b) + (if b == buf then 1 else 0)
  {
    RefsOfUpdate(t, Room(h, t, fd, 0).value, Entry(fd, buf), SLOTS, b);
  }

  // ---- what one slot more or less means for the map ----

  /** The walk for room and the walk for fd are one: the slot found holds what lookup returns. */
  lemma {:induction false} RoomMeetsProbe(h: Hash, t: Table, fd: int, i: nat)
    requires i <= SLOTS
    ensures Probe(h, t, fd, i) ==
            match Room(h, t, fd, i)
            case None => None
            case Some(k) => if t[k].Entry? then Some(k) else None
    decreases SLOTS - i
  {
    if i < SLOTS {
      RoomMeetsProbe(h, t, fd, i + 1);
    }
  }

  lemma InsertMeans(h: Hash, t: Table, m: map<int, nat>, fd: int, buf: nat)
    requires Refines(h, t, m)
    ensures Insert(h, t, fd, buf).None? <==> fd !in m && forall k: Index :: t[k].Entry?
    ensures Insert(h, t, fd, buf).Some? ==>
              Refines(h, Insert(h, t, fd, buf).value, m[fd := buf]) &&
              |m[fd := buf]| == |m| + if Lookup(h, t, fd).None? then 1 else 0
  {
    InsertIsMapUpdate(h, t, m, fd, buf);
    LookupIsMapLookup(h, t, m, fd);
    GrownSize(m, fd, buf);
  }

  lemma GrownSize(m: map<int, nat>, fd: int, buf: nat)
    ensures |m[fd := buf]| == |m| + if fd in m then 0 else 1
  {
    assert m[fd := buf].Keys == m.Keys + {fd};
  }

  lemma ShrunkSize(m: map<int, nat>, fd: int)
    ensures |m - {fd}| == |m| - if fd in m then 1 else 0
    ensures fd !in m ==> m - {fd} == m
  {
    assert (m - {fd}).Keys == m.Keys - {fd};
  }

  lemma EvictMeans(h: Hash, t: Table, m: map<int, nat>, fd: int)
    requires Refines(h, t, m)
    ensures |m - {fd}| == |m| - if Lookup(h, t, fd).Some? then 1 else 0
    ensures Lookup(h, t, fd).None? ==> m - {fd} == m && Probe(h, t, fd, 0).None?
    ensures Refines(h, Evict(h, t, fd), m - {fd}) <==> NothingFollows(h, t, fd)
    ensures Refines(h, Backshift.Remove(h, t, fd), m - {fd})
  {
    LookupIsMapLookup(h, t, m, fd);
    ProbeIsRight(h, t, fd, 0);
    ShrunkSize(m, fd);
    EvictIsMapRemovalIff(h, t, m, fd);
    Backshift.RemoveIsMapRemoval(h, t, m, fd);
  }

  // ---- the array ----

  class Cache {
    const hash: Hash
    const slots: array<Slot>
    var count: nat
    ghost var contents: map<int, nat>

    /** The slots are a working table for `contents`. Evict as written can end this. */
    ghost predicate Valid()
      reads this, slots
    {
      slots.Length == SLOTS && Refines(hash, slots[..], contents) && count == |contents| &&
      forall fd :: fd in contents ==> fd >= 0
    }

    constructor (h: Hash)
      ensures Valid() && hash == h && contents == map[] && fresh(slots)
    {
      hash := h;
      slots := new Slot[SLOTS](i => Empty);
      count := 0;
      contents := map[];
    }

    /** The slot of fd, found by probing from its home until an empty slot. */
    method Find(fd: int) returns (r: Option<Index>)
      requires slots.Length == SLOTS
      ensures r == Probe(hash, slots[..], fd, 0)
    {
      var start := hash(fd) % SLOTS;
      for i := 0 to SLOTS
        invariant Probe(hash, slots[..], fd, 0) == Probe(hash, slots[..], fd, i)
      {
        CyclicIsModular(start, start, i);
        var k := (start + i) % SLOTS;
        if slots[k].Empty? {
          return None;
        }
        if slots[k].fd == fd {
          return Some(k);
        }
      }
      return None;
    }

    /** Finds what the probe path leads to, and in a working table exactly what is cached. */
    method Get(fd: int) returns (r: Option<nat>)
      requires slots.Length == SLOTS
      ensures r == if fd < 0 then None else Lookup(hash, slots[..], fd)
      ensures Valid() ==> r == if fd in contents then Some(contents[fd]) else None
    {
      if fd < 0 {
        return None;
      }
      var k := Find(fd);
      ProbeIsRight(hash, slots[..], fd, 0);
      if Valid() {
        LookupIsMapLookup(hash, slots[..], contents, fd);
      }
      return if k.None? then None else Some(slots[k.value].buf);
    }

    /** The slot of fd, or the first empty one on its probe path. */
    method FindRoom(fd: int) returns (r: Option<Index>)
      requires slots.Length == SLOTS
      ensures r == Room(hash, slots[..], fd, 0)
    {
      var start := hash(fd) % SLOTS;
      for i := 0 to SLOTS
        invariant Room(hash, slots[..], fd, 0) == Room(hash, slots[..], fd, i)
      {
        CyclicIsModular(start, start, i);
        var k := (start + i) % SLOTS;
        if slots[k].Empty? || slots[k].fd == fd {
          return Some(k);
        }
      }
      return None;
    }

    /** Fills a slot; the reference it held before is dropped. */
    method Store(k: Index, fd: int, buf: nat) returns (displaced: Option<nat>)
      requires slots.Length == SLOTS
      modifies this`count, slots
      ensures slots[..] == old(slots[..])[k := Entry(fd, buf)]
      ensures displaced == if old(slots[k]).Entry? then Some(old(slots[k]).buf) else None
      ensures count == old(count) + if displaced.None? then 1 else 0
    {
      if slots[k].Entry? {
        displaced := Some(slots[k].buf);
      } else {
        displaced := None;
        count := count + 1;
      }
      slots[k] := Entry(fd, buf);
    }

    /**
     The buffer takes its fd's slot or the first empty one, or nothing changes. In a working table this
     is map update, refused exactly when the table is full and the fd is new.
     */
    method Put(fd: int, buf: nat) returns (ok: bool, displaced: Option<nat>)
      requires slots.Length == SLOTS
      modifies this, slots
      ensures ok <==> fd >= 0 && Insert(hash, old(slots[..]), fd, buf).Some?
      ensures slots[..] == if ok then Insert(hash, old(slots[..]), fd, buf).value else old(slots[..])
      ensures displaced == if ok then Lookup(hash, old(slots[..]), fd) else None
      ensures count == old(count) + if ok && displaced.None? then 1 else 0
      ensures contents == if ok then old(contents)[fd := buf] else old(contents)
      ensures old(Valid()) ==> Valid()
      ensures old(Valid()) && fd >= 0 ==> (ok <==> fd in old(contents) || exists k: Index :: old(slots[..])[k].Empty?)
    {
      if fd < 0 {
        return false, None;
      }
      if Valid() {
        InsertMeans(hash, slots[..], contents, fd, buf);
      }
      RoomMeetsProbe(hash, slots[..], fd, 0);
      var k := FindRoom(fd);
      if k.None? {
        return false, None;
      }
      displaced := Store(k.value, fd, buf);
      contents := contents[fd := buf];
      return true, displaced;
    }

    /** Finds the slot of fd and empties it; both evicts begin like this. */
    method Vacate(fd: int) returns (v: Option<Index>, dropped: Option<nat>)
      requires slots.Length == SLOTS
      modifies this`count, slots
      ensures v == Probe(hash, old(slots[..]), fd, 0)
      ensures slots[..] == if v.Some? then old(slots[..])[v.value := Empty] else old(slots[..])
      ensures dropped == Lookup(hash, old(slots[..]), fd)
      ensures count == if dropped.Some? && old(count) > 0 then old(count) - 1 else old(count)
    {
      v := Find(fd);
      ProbeIsRight(hash, slots[..], fd, 0);
      if v.None? {
        return v, None;
      }
      dropped := Some(slots[v.value].buf);
      slots[v.value] := Empty;
      if count > 0 {
        count := count - 1;
      }
    }

    /** isz_buffer_cache_evict as written, on any table. */
    method EvictSlots(fd: int) returns (dropped: Option<nat>)
      requires slots.Length == SLOTS
      modifies this`count, slots
      ensures slots[..] == if fd < 0 then old(slots[..]) else Evict(hash, old(slots[..]), fd)
      ensures dropped == if fd < 0 then None else Lookup(hash, old(slots[..]), fd)
      ensures count == if dropped.Some? && old(count) > 0 then old(count) - 1 else old(count)
    {
      if fd < 0 {
        return None;
      }
      var v;
      v, dropped := Vacate(fd);
      if v.Some? {
        ShiftSlots(v.value);
      }
    }

    /** A working cache still works after the evict as written exactly when nothing followed the victim. */
    method EvictAsWritten(fd: int) returns (dropped: Option<nat>)
      requires slots.Length == SLOTS
      modifies this, slots
      ensures slots[..] == if fd < 0 then old(slots[..]) else Evict(hash, old(slots[..]), fd)
      ensures dropped == if fd < 0 then None else Lookup(hash, old(slots[..]), fd)
      ensures count == if dropped.Some? && old(count) > 0 then old(count) - 1 else old(count)
      ensures contents == old(contents) - {fd}
      ensures old(Valid()) ==> (Valid() <==> NothingFollows(hash, old(slots[..]), fd))
    {
      ghost var works, t := Valid(), slots[..];
      if works {
        EvictMeans(hash, t, contents, fd);
        LookupIsMapLookup(hash, t, contents, fd);
      }
      dropped := EvictSlots(fd);
      contents := contents - {fd};
    }

    /** Forward distance from a to b, as the source computes it. */
    method Measure(a: Index, b: Index) returns (d: nat)
      ensures d == Dist(a, b)
    {
      CyclicIsModular(a, b, 0);
      d := (b - a + SLOTS) % SLOTS;
    }

    /** One pass of the back-shift loop as written; `done` means an empty slot ended it. */
    method ShiftOne(hole: Index, i: nat) returns (done: bool, next: Index)
      requires slots.Length == SLOTS && 1 <= i < SLOTS
      modifies slots
      ensures done ==> slots[..] == old(slots[..]) && Shift(hash, slots[..], hole, i) == slots[..]
      ensures !done ==> Shift(hash, old(slots[..]), hole, i) == Shift(hash, slots[..], next, i + 1)
    {
      CyclicIsModular(hole, hole, i);
      var cur := (hole + i) % SLOTS;
      if slots[cur].Empty? {
        return true, hole;
      }
      var distCur := Measure(hole, cur);
      var distHome := Measure(hash(slots[cur].fd) % SLOTS, cur);
      if distHome >= distCur {
        return false, hole;
      }
      slots[hole] := slots[cur];
      slots[cur] := Empty;
      assert slots[..] == old(slots[..])[hole := old(slots[..])[cur]][cur := Empty];
      return false, cur;
    }

    /** The back-shift loop as written. */
    method ShiftSlots(victim: Index)
      requires slots.Length == SLOTS
      modifies slots
      ensures slots[..] == Shift(hash, old(slots[..]), victim, 1)
    {
      var hole := victim;
      for i := 1 to SLOTS
        invariant Shift(hash, slots[..], hole, i) == Shift(hash, old(slots[..]), victim, 1)
      {
        var done, next := ShiftOne(hole, i);
        if done {
          return;
        }
        hole := next;
      }
    }

    /** Teardown of any table: every slot's reference is dropped, in slot order, and the cache is empty. */
    method Destroy() returns (dropped: seq<nat>)
      requires slots.Length == SLOTS
      modifies this, slots
      ensures Valid() && contents == map[]
      ensures forall b: nat :: multiset(dropped)[b] == RefsTo(old(slots[..]), SLOTS, b)
    {
      dropped := [];
      for k := 0 to SLOTS
        invariant forall j :: 0 <= j < k ==> slots[j].Empty?
        invariant forall j :: k <= j < SLOTS ==> slots[j] == old(slots[j])
        invariant forall b: nat :: multiset(dropped)[b] == RefsTo(old(slots[..]), k, b)
      {
        if slots[k].Entry? {
          dropped := dropped + [slots[k].buf];
        }
        slots[k] := Empty;
      }
      count := 0;
      contents := map[];
    }

    /** The evict its comments describe: always exactly map removal. */
    method EvictAsMeant(fd: int) returns (dropped: Option<nat>)
      requires Valid()
      modifies this, slots
      ensures Valid() && contents == old(contents) - {fd}
      ensures dropped == if fd in old(contents) then Some(old(contents)[fd]) else None
    {
      EvictMeans(hash, slots[..], contents, fd);
      LookupIsMapLookup(hash, slots[..], contents, fd);
      contents := contents - {fd};
      if fd < 0 {
        return None;
      }
      var v;
      v, dropped := Vacate(fd);
      if v.Some? {
        RefillSlots(v.value);
      }
    }

    /** One pass of the repaired loop: the entry moves into the hole, or is passed over. */
    method RefillOne(hole: Index, i: nat) returns (done: bool, next: Index, j: nat)
      requires slots.Length == SLOTS && 1 <= i < SLOTS && slots[hole].Empty?
      modifies slots
      ensures done ==> slots[..] == old(slots[..]) && Backshift.Refill(hash, slots[..], hole, i) == slots[..]
      ensures !done ==> 1 <= j <= SLOTS && slots[next].Empty?
      ensures !done ==>
                Backshift.Refill(hash, old(slots[..]), hole, i) == Backshift.Refill(hash, slots[..], next, j)
      ensures !done ==>
                Backshift.TotalCost(hash, slots[..], SLOTS) < Backshift.TotalCost(hash, old(slots[..]), SLOTS) ||
                (slots[..] == old(slots[..]) && j > i)
    {
      CyclicIsModular(hole, hole, i);
      var cur := (hole + i) % SLOTS;
      if slots[cur].Empty? {
        return true, hole, i;
      }
      var distCur := Measure(hole, cur);
      var distHome := Measure(hash(slots[cur].fd) % SLOTS, cur);
      if distHome < distCur {
        return false, hole, i + 1;
      }
      Backshift.MoveLowersCost(hash, slots[..], hole, cur);
      slots[hole] := slots[cur];
      slots[cur] := Empty;
      assert slots[..] == Backshift.Moved(old(slots[..]), hole, cur);
      return false, cur, 1;
    }

    /** The repaired back-shift loop: guard reversed, index restarted when the hole moves. */
    method RefillSlots(victim: Index)
      requires slots.Length == SLOTS && slots[victim].Empty?
      modifies slots
      ensures slots[..] == Backshift.Refill(hash, old(slots[..]), victim, 1)
    {
      var hole, i := victim, 1;
      while i < SLOTS
        invariant 0 <= hole < SLOTS && 1 <= i <= SLOTS && slots[hole].Empty?
        invariant Backshift.Refill(hash, slots[..], hole, i) == Backshift.Refill(hash, old(slots[..]), victim, 1)
        decreases Backshift.TotalCost(hash, slots[..], SLOTS), SLOTS - i
      {
        var done, next, j := RefillOne(hole, i);
        if done {
          return;
        }
        hole, i := next, j;
      }
    }
  }

  // ---- the counterexample ----

  const NONE: Table := seq(SLOTS, i => Empty)

  const BOTH: Table := NONE[19 := Entry(3, 100)][20 := Entry(35, 200)]

  lemma BothShareHome19()
    ensures Home(CacheHash, 3) == 19 && Home(CacheHash, 35) == 19
  {
    assert 3 * 2654435761 == 1 * 0x1_0000_0000 + 3668339987 && 3668339987 == 114635624 * SLOTS + 19;
    assert 35 * 2654435761 == 21 * 0x1_0000_0000 + 2710938419 && 2710938419 == 84716825 * SLOTS + 19;
  }

  lemma FindingBoth()
    ensures Probe(CacheHash, BOTH, 3, 0) == Some(19) && Probe(CacheHash, BOTH, 35, 0) == Some(20)
  {
    BothShareHome19();
    assert Probe(CacheHash, BOTH, 35, 0) == Probe(CacheHash, BOTH, 35, 1);
  }

  /** 3 and 35 share home slot 19. With both inserted, evicting 3 leaves 35 in slot 20 and out of reach. */
  lemma EvictingThreeLoses35()
    ensures Insert(CacheHash, NONE, 3, 100) == Some(NONE[19 := Entry(3, 100)])
    ensures Insert(CacheHash, NONE[19 := Entry(3, 100)], 35, 200) == Some(BOTH)
    ensures Lookup(CacheHash, BOTH, 35) == Some(200)
    ensures Lookup(CacheHash, Evict(CacheHash, BOTH, 3), 35) == None
  {
    BothShareHome19();
    FindingBoth();
    var one: Table := NONE[19 := Entry(3, 100)];
    assert Room(CacheHash, one, 35, 0) == Room(CacheHash, one, 35, 1) == Some(20);
    var u: Table := BOTH[19 := Empty];
    assert Shift(CacheHash, u, 19, 1) == Shift(CacheHash, u, 19, 2) == u;
  }

  /** The meant evict moves 35 home. */
  lemma RemovingThreeKeeps35()
    ensures Lookup(CacheHash, Backshift.Remove(CacheHash, BOTH, 3), 35) == Some(200)
  {
    BothShareHome19();
    FindingBoth();
    var u: Table := BOTH[19 := Empty];
    var w := Backshift.Moved(u, 19, 20);
    assert Backshift.Refill(CacheHash, u, 19, 1) == Backshift.Refill(CacheHash, w, 20, 1) == w;
  }
}
