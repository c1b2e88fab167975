/**
 The portal consent table (src/isz_capture_consent.c): 32 slots keyed by (server, output, kind), each
 grant valid for 60 seconds, expired entries reclaimed lazily, the entry nearest to expiry evicted
 when the table is full. Clock readings are inputs.
 */
module Consent {
  import opened Options

  const SLOTS := 32

  const TIMEOUT := 60_000_000_000

  const UINT64_MAX := 0xFFFF_FFFF_FFFF_FFFF

  /** Pointers are numbers here; 0 is NULL. */
  datatype Key = Key(server: nat, output: nat, kind: int)

  datatype Entry = Entry(used: bool, key: Key, expires: nat)

  type Table = t: seq<Entry> | |t| == SLOTS witness seq(SLOTS, i => Entry(false, Key(0, 0, 0), 0))

  function EmptyTable(): Table {
    seq(SLOTS, i => Entry(false, Key(0, 0, 0), 0))
  }

  /** Screen capture, file access and notification are the kinds 0, 1 and 2. */
  predicate Acceptable(key: Key) {
    key.server != 0 && key.output != 0 && 0 <= key.kind <= 2
  }

  // ---- which slot ----

  /** The used slot of this key, from slot i on. */
  function Match(t: Table, key: Key, i: nat): (r: Option<nat>)
    requires i <= SLOTS
    ensures r.Some? ==> i <= r.value < SLOTS && t[r.value].used && t[r.value].key == key
    ensures r.None? ==> forall k :: i <= k < SLOTS && t[k].used ==> t[k].key != key
    decreases SLOTS - i
  {
    if i == SLOTS then None
    else if t[i].used && t[i].key == key then Some(i)
    else Match(t, key, i + 1)
  }

  /** The first free slot from slot i on. */
  function Free(t: Table, i: nat): (r: Option<nat>)
    requires i <= SLOTS
    ensures r.Some? ==> i <= r.value < SLOTS && !t[r.value].used
    ensures forall k :: i <= k < (if r.Some? then r.value else SLOTS) ==> t[k].used
    decreases SLOTS - i
  {
    if i == SLOTS then None else if !t[i].used then Some(i) else Free(t, i + 1)
  }

  /** The used slot among the first i that expires first; None if there is none before UINT64_MAX. */
  function Oldest(t: Table, i: nat): (r: Option<nat>)
    requires i <= SLOTS
    ensures r.Some? ==> r.value < i && t[r.value].used && t[r.value].expires < UINT64_MAX
    ensures forall k :: 0 <= k < i && t[k].used && t[k].expires < UINT64_MAX ==>
              r.Some? && t[r.value].expires <= t[k].expires
  {
    if i == 0 then None
    else
      var r := Oldest(t, i - 1);
      var bound := if r.Some? then t[r.value].expires else UINT64_MAX;
      if t[i - 1].used && t[i - 1].expires < bound then Some(i - 1) else r
  }

  /** Where a grant goes: the key's own slot, else a free one, else the one nearest to expiry. */
  function Place(t: Table, key: Key): Option<nat> {
    if Match(t, key, 0).Some? then Match(t, key, 0)
    else if Free(t, 0).Some? then Free(t, 0)
    else Oldest(t, SLOTS)
  }

  // ---- events ----

  datatype Event = Grant(key: Key, now: nat) | Check(key: Key, now: nat)

  function Expiry(now: nat): nat {
    (now + TIMEOUT) % (UINT64_MAX + 1)
  }

  function AfterGrant(t: Table, key: Key, now: nat): Table {
    if Acceptable(key) && Place(t, key).Some? then t[Place(t, key).value := Entry(true, key, Expiry(now))] else t
  }

  predicate Allowed(t: Table, key: Key, now: nat) {
    Acceptable(key) && var m := Match(t, key, 0); m.Some? && now < t[m.value].expires
  }

  function AfterCheck(t: Table, key: Key, now: nat): Table {
    var m := Match(t, key, 0);
    if Acceptable(key) && m.Some? && now >= t[m.value].expires then t[m.value := t[m.value].(used := false)] else t
  }

  function After(t: Table, e: Event): Table {
    match e
    case Grant(key, now) => AfterGrant(t, key, now)
    case Check(key, now) => AfterCheck(t, key, now)
  }

  function Run(events: seq<Event>): Table {
    if events == [] then EmptyTable()
    else After(Run(events[..|events| - 1]), events[|events| - 1])
  }

  /** The clock never goes back, and is far from the end of its 64 bits. */
  predicate Clocked(events: seq<Event>) {
    (forall i, j :: 0 <= i < j < |events| ==> events[i].now <= events[j].now) &&
    (forall i :: 0 <= i < |events| ==> events[i].now + TIMEOUT < UINT64_MAX)
  }

  /** The keys granted at a reading of at least t0. */
  function GrantedSince(events: seq<Event>, t0: nat): set<Key> {
    if events == [] then {}
    else
      var e := events[|events| - 1];
      GrantedSince(events[..|events| - 1], t0) +
      if e.Grant? && e.now >= t0 && Acceptable(e.key) then {e.key} else {}
  }

  // ---- invariants ----

  ghost predicate Distinct(t: Table) {
    forall i, j :: 0 <= i < j < SLOTS && t[i].used && t[j].used ==> t[i].key != t[j].key
  }

  /** Whatever expires at least a timeout after t0 was granted since t0. */
  ghost predicate Recent(t: Table, events: seq<Event>, t0: nat) {
    forall i :: 0 <= i < SLOTS && t[i].used ==>
      t[i].expires < UINT64_MAX && (t[i].expires >= t0 + TIMEOUT ==> t[i].key in GrantedSince(events, t0))
  }

  lemma StepKeepsDistinct(t: Table, e: Event)
    requires Distinct(t)
    ensures Distinct(After(t, e))
  {
  }

  lemma StepKeepsRecent(t: Table, events: seq<Event>, e: Event, t0: nat)
    requires Recent(t, events, t0) && e.now + TIMEOUT < UINT64_MAX
    ensures Recent(After(t, e), events + [e], t0)
  {
  }

  lemma PrefixClocked(events: seq<Event>, n: nat)
    requires Clocked(events) && n <= |events|
    ensures Clocked(events[..n])
  {
  }

  lemma {:induction false} RunIsRecent(events: seq<Event>, t0: nat)
    requires Clocked(events)
    ensures Distinct(Run(events)) && Recent(Run(events), events, t0)
  {
    if events != [] {
      var before, e := events[..|events| - 1], events[|events| - 1];
      PrefixClocked(events, |events| - 1);
      RunIsRecent(before, t0);
      StepKeepsDistinct(Run(before), e);
      StepKeepsRecent(Run(before), before, e, t0);
      assert before + [e] == events;
    }
  }

  /** In every run the used slots have pairwise different keys. */
  lemma {:induction false} KeysStayDistinct(events: seq<Event>)
    ensures Distinct(Run(events))
  {
    if events != [] {
      KeysStayDistinct(events[..|events| - 1]);
      StepKeepsDistinct(Run(events[..|events| - 1]), events[|events| - 1]);
    }
  }

  /** A live grant for another key is not evicted while some slot is free or expired. */
  lemma LiveGrantIsSpared(t: Table, key: Key, now: nat, i: nat, j: nat)
    requires i < SLOTS && t[i].used && now < t[i].expires && t[i].key != key
    requires j < SLOTS && (!t[j].used || t[j].expires <= now)
    ensures AfterGrant(t, key, now)[i] == t[i]
  {
  }

  // ---- the survival theorem ----

  function Keys(t: Table, n: nat): set<Key>
    requires n <= SLOTS
  {
    if n == 0 then {} else Keys(t, n - 1) + {t[n - 1].key}
  }

  lemma {:induction false} KeysAreSlotKeys(t: Table, n: nat, k: Key)
    requires n <= SLOTS
    ensures k in Keys(t, n) <==> exists i :: 0 <= i < n && t[i].key == k
  {
    if n > 0 {
      KeysAreSlotKeys(t, n - 1, k);
    }
  }

  lemma {:induction false} KeysCount(t: Table, n: nat)
    requires n <= SLOTS && Distinct(t) && forall i :: 0 <= i < SLOTS ==> t[i].used
    ensures |Keys(t, n)| == n
  {
    if n > 0 {
      KeysCount(t, n - 1);
      KeysAreSlotKeys(t, n - 1, t[n - 1].key);
    }
  }

  lemma SubsetSize<T>(a: set<T>, b: set<T>)
    requires a <= b
    ensures |a| <= |b|
  {
    assert b == a + (b - a);
  }

  /** Evicting a recent grant takes a full table of recent grants and one more key. */
  lemma EvictionNeedsManyKeys(t: Table, events: seq<Event>, t0: nat, i: nat, e: Event)
    requires Distinct(t) && Recent(t, events, t0) && e.Grant? && Acceptable(e.key) && e.now >= t0
    requires i < SLOTS && t[i].used && t[i].expires >= t0 + TIMEOUT && t[i].key != e.key
    requires Place(t, e.key) == Some(i)
    ensures |GrantedSince(events + [e], t0) - {t[i].key}| >= SLOTS
  {
    assert forall k :: 0 <= k < SLOTS ==> t[k].used && t[k].expires >= t[i].expires;
    KeysCount(t, SLOTS);
    var all := Keys(t, SLOTS);
    forall k | k in all ensures k in GrantedSince(events, t0) && k != e.key {
      KeysAreSlotKeys(t, SLOTS, k);
    }
    KeysAreSlotKeys(t, SLOTS, t[i].key);
    GrantedSincePush(events, e, t0);
    EnoughOthers(all, GrantedSince(events + [e], t0), t[i].key, e.key);
  }

  lemma GrantedSincePush(events: seq<Event>, e: Event, t0: nat)
    ensures GrantedSince(events + [e], t0) ==
            GrantedSince(events, t0) + if e.Grant? && e.now >= t0 && Acceptable(e.key) then {e.key} else {}
  {
  }

  lemma EnoughOthers<T>(all: set<T>, granted: set<T>, mine: T, extra: T)
    requires all + {extra} <= granted && mine in all && extra !in all
    ensures |granted - {mine}| >= |all|
  {
    SubsetSize(all - {mine} + {extra}, granted - {mine});
  }

  lemma {:induction false} GrantedSinceGrows(events: seq<Event>, n: nat, t0: nat)
    requires n <= |events|
    ensures GrantedSince(events[..n], t0) <= GrantedSince(events, t0)
    decreases |events|
  {
    if n < |events| {
      var shorter := events[..|events| - 1];
      assert shorter[..n] == events[..n];
      GrantedSinceGrows(shorter, n, t0);
    } else {
      assert events[..n] == events;
    }
  }

  /** The key has a used slot that expires no earlier than the bound. */
  predicate GrantedUntil(t: Table, key: Key, bound: nat) {
    var m := Match(t, key, 0);
    m.Some? && t[m.value].expires >= bound
  }

  lemma GrantTakesHold(t: Table, events: seq<Event>, key: Key, now: nat)
    requires Distinct(t) && Recent(t, events, now) && Acceptable(key) && now + TIMEOUT < UINT64_MAX
    ensures GrantedUntil(AfterGrant(t, key, now), key, now + TIMEOUT)
  {
    assert Oldest(t, SLOTS).None? ==> !t[0].used;
    StepKeepsDistinct(t, Grant(key, now));
    var p := Place(t, key).value;
    var u := AfterGrant(t, key, now);
    assert u[p] == Entry(true, key, now + TIMEOUT);
  }

  /** A slot that still names the key late enough is the one the key is found in. */
  lemma KeepsUntil(u: Table, key: Key, bound: nat, i: nat)
    requires Distinct(u) && i < SLOTS && u[i].used && u[i].key == key && u[i].expires >= bound
    ensures GrantedUntil(u, key, bound)
  {
  }

  lemma CheckKeepsGrant(t: Table, key: Key, at: nat, other: Key, now: nat)
    requires Distinct(t) && GrantedUntil(t, key, at + TIMEOUT) && now < at + TIMEOUT
    ensures GrantedUntil(AfterCheck(t, other, now), key, at + TIMEOUT)
  {
    StepKeepsDistinct(t, Check(other, now));
    KeepsUntil(AfterCheck(t, other, now), key, at + TIMEOUT, Match(t, key, 0).value);
  }

  lemma StepKeepsGrant(t: Table, events: seq<Event>, key: Key, at: nat, e: Event)
    requires Distinct(t) && Recent(t, events, at) && GrantedUntil(t, key, at + TIMEOUT)
    requires at <= e.now < at + TIMEOUT && e.now + TIMEOUT < UINT64_MAX
    requires |GrantedSince(events + [e], at) - {key}| < SLOTS
    ensures GrantedUntil(After(t, e), key, at + TIMEOUT)
  {
    var i := Match(t, key, 0).value;
    match e
    case Check(other, now) => CheckKeepsGrant(t, key, at, other, now);
    case Grant(other, now) =>
      if Acceptable(other) && other != key && Place(t, other) == Some(i) {
        EvictionNeedsManyKeys(t, events, at, i, e);
      } else {
        StepKeepsDistinct(t, e);
        KeepsUntil(AfterGrant(t, other, now), key, at + TIMEOUT, i);
      }
  }

  lemma RunOfPrefix(events: seq<Event>, n: nat)
    requires 0 < n <= |events|
    ensures Run(events[..n]) == After(Run(events[..n - 1]), events[n - 1])
    ensures events[..n] == events[..n - 1] + [events[n - 1]]
  {
    assert events[..n][..n - 1] == events[..n - 1];
  }

  lemma FewInPrefix(events: seq<Event>, n: nat, key: Key, at: nat)
    requires n <= |events| && |GrantedSince(events, at) - {key}| < SLOTS
    ensures |GrantedSince(events[..n], at) - {key}| < SLOTS
  {
    GrantedSinceGrows(events, n, at);
    SubsetSize(GrantedSince(events[..n], at) - {key}, GrantedSince(events, at) - {key});
  }

  lemma {:induction false} GrantLasts(events: seq<Event>, g: nat, key: Key, at: nat, n: nat)
    requires g < n <= |events| && events[g] == Grant(key, at) && Acceptable(key) && Clocked(events)
    requires events[n - 1].now < at + TIMEOUT
    requires |GrantedSince(events, at) - {key}| < SLOTS
    ensures GrantedUntil(Run(events[..n]), key, at + TIMEOUT)
    decreases n
  {
    if n - 1 == g {
      PrefixClocked(events, g);
      RunIsRecent(events[..g], at);
      RunOfPrefix(events, n);
      GrantTakesHold(Run(events[..g]), events[..g], key, at);
    } else {
      assert events[n - 2].now <= events[n - 1].now && events[g].now <= events[n - 1].now;
      GrantLasts(events, g, key, at, n - 1);
      GrantLastsOneMore(events, key, at, n);
    }
  }

  lemma GrantLastsOneMore(events: seq<Event>, key: Key, at: nat, n: nat)
    requires 0 < n <= |events| && Clocked(events) && at <= events[n - 1].now < at + TIMEOUT
    requires |GrantedSince(events, at) - {key}| < SLOTS && GrantedUntil(Run(events[..n - 1]), key, at + TIMEOUT)
    ensures GrantedUntil(Run(events[..n]), key, at + TIMEOUT)
  {
    PrefixClocked(events, n - 1);
    RunIsRecent(events[..n - 1], at);
    RunOfPrefix(events, n);
    FewInPrefix(events, n, key, at);
    StepKeepsGrant(Run(events[..n - 1]), events[..n - 1], key, at, events[n - 1]);
  }

  /**
   The grant made by event g still checks true at any reading before its own plus 60s, in every run
   with a nondecreasing clock in which fewer than 32 other keys are granted at readings from its own on.
   */
  lemma GrantSurvives(events: seq<Event>, g: nat, now: nat)
    requires g < |events| && events[g].Grant? && Acceptable(events[g].key) && Clocked(events)
    requires events[|events| - 1].now <= now < events[g].now + TIMEOUT
    requires |GrantedSince(events, events[g].now) - {events[g].key}| < SLOTS
    ensures Allowed(Run(events), events[g].key, now)
  {
    GrantLasts(events, g, events[g].key, events[g].now, |events|);
    assert events[..|events|] == events;
  }

  // ---- the other direction ----

  /** Every used slot comes from a grant of its key, a timeout before its expiry. */
  ghost predicate Backed(t: Table, events: seq<Event>) {
    forall i :: 0 <= i < SLOTS && t[i].used ==>
      exists g :: 0 <= g < |events| && events[g].Grant? && events[g].key == t[i].key &&
                  t[i].expires == events[g].now + TIMEOUT
  }

  /** A used slot that an event changed is a grant's. */
  lemma ChangedByGrant(t: Table, e: Event, i: nat)
    requires i < SLOTS && After(t, e)[i].used && After(t, e)[i] != t[i] && e.now + TIMEOUT < UINT64_MAX
    ensures e.Grant? && After(t, e)[i].key == e.key && After(t, e)[i].expires == e.now + TIMEOUT
  {
  }

  lemma {:induction false} RunIsBacked(events: seq<Event>)
    requires Clocked(events)
    ensures Backed(Run(events), events)
  {
    if events != [] {
      var before, e := events[..|events| - 1], events[|events| - 1];
      RunIsBacked(before);
      var t, u := Run(before), Run(events);
      forall i | 0 <= i < SLOTS && u[i].used
        ensures exists g :: 0 <= g < |events| && events[g].Grant? && events[g].key == u[i].key &&
                            u[i].expires == events[g].now + TIMEOUT
      {
        if u[i] == t[i] {
          var g :| 0 <= g < |before| && before[g].Grant? && before[g].key == t[i].key &&
                   t[i].expires == before[g].now + TIMEOUT;
          assert events[g] == before[g];
        } else {
          ChangedByGrant(t, e, i);
          assert events[|events| - 1] == e;
        }
      }
    }
  }

  /** Nothing is allowed without a grant of that very key less than 60s before. */
  lemma {:induction false} NoConsentWithoutGrant(events: seq<Event>, key: Key, now: nat)
    requires Clocked(events) && Allowed(Run(events), key, now)
    ensures exists g :: 0 <= g < |events| && events[g].Grant? && events[g].key == key &&
                        now < events[g].now + 60_000_000_000
  {
    RunIsBacked(events);
  }

  // ---- the table in place ----

  datatype GrantResult = Granted | InvalidArg | ResourceLimit

  class Registry {
    const slots: array<Entry>

    ghost predicate Valid()
      reads this
    {
      slots.Length == SLOTS
    }

    constructor ()
      ensures Valid() && slots[..] == EmptyTable() && fresh(slots)
    {
      slots := new Entry[SLOTS](i => Entry(false, Key(0, 0, 0), 0));
      new;
      assert slots[..] == EmptyTable();
    }

    /** isz_consent_find. */
    method Find(key: Key, findFree: bool) returns (r: Option<nat>)
      requires Valid()
      ensures r == if findFree then Place(slots[..], key) else Match(slots[..], key, 0)
    {
      ghost var t: Table := slots[..];
      var free: Option<nat>, oldest: Option<nat> := None, None;
      var oldestExpiry := UINT64_MAX;
      for i := 0 to SLOTS
        invariant Match(t, key, 0) == Match(t, key, i)
        invariant findFree ==> Free(t, 0) == if free.Some? then free else Free(t, i)
        invariant findFree ==> oldest == Oldest(t, i)
        invariant findFree ==> oldestExpiry == if oldest.Some? then t[oldest.value].expires else UINT64_MAX
      {
        if !slots[i].used {
          if findFree && free.None? {
            free := Some(i);
          }
        } else {
          if slots[i].key == key {
            return Some(i);
          }
          if findFree && slots[i].expires < oldestExpiry {
            oldestExpiry := slots[i].expires;
            oldest := Some(i);
          }
        }
      }
      if !findFree {
        return None;
      }
      return if free.Some? then free else oldest;
    }

    method GrantConsent(key: Key, now: nat) returns (code: GrantResult)
      requires Valid()
      modifies slots
      ensures slots[..] == AfterGrant(old(slots[..]), key, now)
      ensures code == if !Acceptable(key) then InvalidArg
                      else if Place(old(slots[..]), key).None? then ResourceLimit else Granted
    {
      if key.server == 0 || key.output == 0 || key.kind < 0 || key.kind > 2 {
        return InvalidArg;
      }
      var p := Find(key, true);
      if p.None? {
        return ResourceLimit;
      }
      slots[p.value] := Entry(true, key, (now + TIMEOUT) % (UINT64_MAX + 1));
      return Granted;
    }

    method CheckConsent(key: Key, now: nat) returns (allowed: bool)
      requires Valid()
      modifies slots
      ensures allowed == Allowed(old(slots[..]), key, now)
      ensures slots[..] == AfterCheck(old(slots[..]), key, now)
    {
      if key.server == 0 || key.output == 0 || key.kind < 0 || key.kind > 2 {
        return false;
      }
      var p := Find(key, false);
      if p.None? {
        return false;
      }
      if now >= slots[p.value].expires {
        slots[p.value] := slots[p.value].(used := false);
        return false;
      }
      return true;
    }
  }
}
