/**
 The import cache in the protocol's books: the references that the slots own are exactly the protocol's
 `cached` ones, and every cache operation is the cache step with the buffer that it displaces or drops.
 */
module CacheAccounting {
  import opened Options
  import opened Retirement
  import opened RetirementBooks
  import opened ImportCache
  import opened BufferCache

  /** Each cached reference is a slot's, and each slot's reference is counted. */
  ghost predicate Tied(s: State, t: Table) {
    forall b: nat :: s.cached[b] == RefsTo(t, SLOTS, b)
  }

  lemma {:induction false} SlotCounts(t: Table, k: Index, n: nat, b: nat)
    requires k < n <= SLOTS
    ensures RefsTo(t, n, b) >= Holding(t[k], b)
  {
    if k < n - 1 {
      SlotCounts(t, k, n - 1, b);
    }
  }

  lemma FoundIsCached(h: Hash, t: Table, fd: int, s: State)
    requires Tied(s, t) && Lookup(h, t, fd).Some?
    ensures Lookup(h, t, fd).value in s.cached
  {
    var k := Probe(h, t, fd, 0).value;
    SlotCounts(t, k, SLOTS, Lookup(h, t, fd).value);
  }

  /** What an insert displaces is what the walk for room finds. */
  lemma DisplacedIsHeld(h: Hash, t: Table, fd: int, b: nat)
    requires Room(h, t, fd, 0).Some?
    ensures Holding(t[Room(h, t, fd, 0).value], b) == if Lookup(h, t, fd) == Some(b) then 1 else 0
  {
    RoomMeetsProbe(h, t, fd, 0);
  }

  /** An insert is the protocol's insert step, whose obligation on the displaced buffer it meets. */
  lemma PutIsCacheInsert(h: Hash, t: Table, fd: int, buf: nat, s: State)
    requires Tied(s, t) && Insert(h, t, fd, buf).Some? && buf in s.holders
    ensures var step := CacheInsert(buf, Lookup(h, t, fd));
            Obliged(s, step) && Tied(Next(s, step), Insert(h, t, fd, buf).value)
  {
    var displaced := Lookup(h, t, fd);
    if displaced.Some? {
      FoundIsCached(h, t, fd, s);
      CacheRemoveFrame(s, displaced.value, displaced.value);
    }
    var u := Insert(h, t, fd, buf).value;
    forall b: nat ensures Next(s, CacheInsert(buf, displaced)).cached[b] == RefsTo(u, SLOTS, b) {
      InsertTakesOneRef(h, t, fd, buf, b);
      DisplacedIsHeld(h, t, fd, b);
    }
  }

  /** An evict as written is the protocol's evict step, even where it loses other entries. */
  lemma EvictIsCacheEvict(h: Hash, t: Table, fd: int, s: State)
    requires Tied(s, t)
    ensures var dropped := Lookup(h, t, fd);
            if dropped.Some? then
              Obliged(s, CacheEvict(dropped.value)) && Tied(Next(s, CacheEvict(dropped.value)), Evict(h, t, fd))
            else Tied(s, Evict(h, t, fd))
  {
    var dropped := Lookup(h, t, fd);
    ProbeIsRight(h, t, fd, 0);
    if dropped.Some? {
      FoundIsCached(h, t, fd, s);
      CacheRemoveFrame(s, dropped.value, dropped.value);
      forall b: nat ensures Next(s, CacheEvict(dropped.value)).cached[b] == RefsTo(Evict(h, t, fd), SLOTS, b) {
        EvictDropsOneRef(h, t, fd, b);
      }
    }
  }
}
