/**
 Whom a grant serves: a server, an output and one of the three kinds, for 60 seconds. And that the bound of
 32 keys is exact: one key more at the same reading, and the first grant is gone.
 */
module ConsentBound {
  import opened Options
  import opened Consent

  // ---- which keys ----

  /** In every run a grant to a server's output, of kind 0, 1 or 2, is valid at once and for 60 seconds. */
  lemma GrantIsValid(events: seq<Event>, key: Key, now: nat, later: nat)
    requires Clocked(events)
    requires key.server != 0 && key.output != 0 && (key.kind == 0 || key.kind == 1 || key.kind == 2)
    requires now + 60_000_000_000 < UINT64_MAX && now <= later < now + 60_000_000_000
    ensures Allowed(AfterGrant(Run(events), key, now), key, later)
  {
    RunIsRecent(events, now);
    GrantTakesHold(Run(events), events, key, now);
  }

  /** Without a server or an output, or with another kind, nothing is ever granted or allowed. */
  lemma OthersAreRefused(t: Table, key: Key, now: nat)
    requires key.server == 0 || key.output == 0 || key.kind < 0 || key.kind > 2
    ensures AfterGrant(t, key, now) == t && !Allowed(t, key, now) && AfterCheck(t, key, now) == t
  {
  }

  /** A check takes back exactly the slot of an expired grant of its key. */
  lemma CheckOutcome(t: Table, key: Key, now: nat, i: nat)
    requires i < SLOTS && Distinct(t)
    ensures var u := AfterCheck(t, key, now);
            u[i] == if Acceptable(key) && t[i].used && t[i].key == key && now >= t[i].expires
                    then t[i].(used := false) else t[i]
  {
  }

  // ---- the bound ----

  /** Pairwise different keys. */
  function Nth(i: nat): Key {
    Key(1, i + 1, 0)
  }

  /** n different keys granted at one reading. */
  function Grants(n: nat, now: nat): seq<Event> {
    if n == 0 then [] else Grants(n - 1, now) + [Grant(Nth(n - 1), now)]
  }

  /** The first n slots have the first n keys, the others are free. */
  ghost predicate HoldsFirst(t: Table, n: nat, now: nat) {
    forall i :: 0 <= i < SLOTS ==> if i < n then t[i] == Entry(true, Nth(i), Expiry(now)) else !t[i].used
  }

  lemma RunSnoc(events: seq<Event>, e: Event)
    ensures Run(events + [e]) == After(Run(events), e)
  {
    assert (events + [e])[..|events|] == events;
  }

  lemma FirstFree(t: Table, n: nat, now: nat)
    requires n < SLOTS && HoldsFirst(t, n, now)
    ensures Match(t, Nth(n), 0).None? && Free(t, 0) == Some(n)
  {
    assert !t[n].used;
  }

  lemma {:induction false} AfterGrants(n: nat, now: nat)
    requires n <= SLOTS
    ensures HoldsFirst(Run(Grants(n, now)), n, now)
  {
    if n > 0 {
      AfterGrants(n - 1, now);
      RunSnoc(Grants(n - 1, now), Grant(Nth(n - 1), now));
      FirstFree(Run(Grants(n - 1, now)), n - 1, now);
    }
  }

  lemma {:induction false} OldestIsFirst(t: Table, i: nat, now: nat)
    requires 1 <= i <= SLOTS && HoldsFirst(t, SLOTS, now) && Expiry(now) < UINT64_MAX
    ensures Oldest(t, i) == Some(0)
  {
    if i > 1 {
      OldestIsFirst(t, i - 1, now);
    }
  }

  lemma {:induction false} KeysGranted(n: nat, now: nat)
    requires n <= SLOTS + 1
    ensures |GrantedSince(Grants(n, now), now)| == n
    ensures forall k :: k in GrantedSince(Grants(n, now), now) ==> k.output <= n
    ensures n > 0 ==> Nth(0) in GrantedSince(Grants(n, now), now)
  {
    if n > 0 {
      KeysGranted(n - 1, now);
      var before, events := Grants(n - 1, now), Grants(n, now);
      assert events[..|events| - 1] == before && events[|events| - 1] == Grant(Nth(n - 1), now);
      assert GrantedSince(events, now) == GrantedSince(before, now) + {Nth(n - 1)};
    }
  }

  lemma {:induction false} GrantsShape(n: nat, now: nat)
    ensures |Grants(n, now)| == n && forall i :: 0 <= i < n ==> Grants(n, now)[i] == Grant(Nth(i), now)
  {
    if n > 0 {
      GrantsShape(n - 1, now);
    }
  }

  /** A new key in a full table whose entries expire together takes the first slot. */
  lemma NewKeyTakesFirst(t: Table, n: nat, now: nat)
    requires n == SLOTS && HoldsFirst(t, n, now) && Expiry(now) < UINT64_MAX
    ensures Place(t, Nth(n)) == Some(0)
  {
    OldestIsFirst(t, n, now);
    var m := Match(t, Nth(n), 0);
    assert m.Some? ==> t[m.value].key == Nth(m.value);
    assert forall k :: 0 <= k < SLOTS ==> t[k].used;
  }

  lemma FirstIsNotFound(u: Table, n: nat, now: nat)
    requires n == SLOTS && u[0].key == Nth(n) && forall i :: 1 <= i < SLOTS ==> u[i].key == Nth(i)
    ensures Match(u, Nth(0), 0).None?
  {
    var m := Match(u, Nth(0), 0);
    assert m.Some? && m.value > 0 ==> u[m.value].key == Nth(m.value);
  }

  lemma LastGrantTakesFirst(t: Table, n: nat, now: nat)
    requires n == SLOTS && HoldsFirst(t, n, now) && Expiry(now) < UINT64_MAX
    ensures Match(AfterGrant(t, Nth(n), now), Nth(0), 0).None?
  {
    NewKeyTakesFirst(t, n, now);
    FirstIsNotFound(AfterGrant(t, Nth(n), now), n, now);
  }

  lemma FirstIsGone(n: nat, now: nat)
    requires n == SLOTS && Expiry(now) < UINT64_MAX
    ensures !Allowed(Run(Grants(n, now) + [Grant(Nth(n), now)]), Nth(0), now)
  {
    AfterGrants(n, now);
    RunSnoc(Grants(n, now), Grant(Nth(n), now));
    LastGrantTakesFirst(Run(Grants(n, now)), n, now);
  }

  lemma GrantsAreClocked(n: nat, now: nat)
    requires now + TIMEOUT < UINT64_MAX
    ensures Clocked(Grants(n, now))
  {
    GrantsShape(n, now);
  }

  /** With exactly 32 other keys at the same reading the first grant is gone at once. */
  lemma BoundIsExact(n: nat, now: nat)
    requires n == SLOTS + 1 && now + TIMEOUT < UINT64_MAX
    ensures var events := Grants(n, now);
            |events| == n && events[0] == Grant(Nth(0), now) && Acceptable(Nth(0)) && Clocked(events) &&
            |GrantedSince(events, now) - {Nth(0)}| == SLOTS && !Allowed(Run(events), Nth(0), now)
  {
    GrantsShape(n, now);
    GrantsAreClocked(n, now);
    KeysGranted(n, now);
    FirstIsGone(n - 1, now);
  }
}
