/**
 Buffers that a client can name. An attach registers the new buffer on the connection without taking a
 reference for it, and BUFFER_DESTROY releases and drops one (src/isz_client_dispatch.c): when that is
 sound, that it mostly is not, and that one reference taken at registration makes it always sound.
 */
module ClientBuffers {
  import opened Options
  import opened Retirement
  import opened RetirementProofs
  import opened RetirementRuns
  import opened RetirementTheorems
  import opened RetirementBooks
  import opened RetirementPromises
  import opened Surfaces

  // ---- as written ----

  /**
   As the code has it, the slots hold every reference outside the lists. Then destroying a registered
   buffer is sound only between its leaving the slots and its leaving the lists.
   */
  lemma DestroyIsSoundIff(c: Scene, b: BufferId)
    requires SceneInv(c) && b in c.registered && b !in c.protocol.cached
    requires c.protocol.holders[b] == if InSlot(c, b) then 1 else 0
    ensures SceneInv(NextScene(c, ClientDestroys(b))) <==> !InSlot(c, b) && IsListed(c.protocol, b)
  {
    DestroyKeepsSceneInvIff(c, b);
    assert BufferOk(c.protocol, b);
    ListedMeansCounted(c.protocol.inFlight, b);
    ListedMeansCounted(c.protocol.pending, b);
  }

  // ---- reachable scenes ----

  /** Some legal run of events from start-up ends in c. */
  ghost predicate ReachableScene(c: Scene) {
    exists events: seq<Event> :: LegalScene(NEW_SCENE, events) && RunScene(NEW_SCENE, events) == c
  }

  lemma {:induction false} RunSceneSnoc(c: Scene, events: seq<Event>, event: Event)
    ensures RunScene(c, events + [event]) == NextScene(RunScene(c, events), event)
    ensures LegalScene(c, events + [event]) <==> LegalScene(c, events) && Allowed(RunScene(c, events), event)
    decreases |events|
  {
    if events != [] {
      RunSceneSnoc(NextScene(c, events[0]), events[1..], event);
      assert (events + [event])[1..] == events[1..] + [event];
    }
  }

  lemma NewSceneIsReachable()
    ensures ReachableScene(NEW_SCENE)
  {
    assert LegalScene(NEW_SCENE, []) && RunScene(NEW_SCENE, []) == NEW_SCENE;
  }

  lemma ReachScene(c: Scene, event: Event)
    requires ReachableScene(c) && Allowed(c, event)
    ensures ReachableScene(NextScene(c, event))
  {
    var events :| LegalScene(NEW_SCENE, events) && RunScene(NEW_SCENE, events) == c;
    RunSceneSnoc(NEW_SCENE, events, event);
  }

  lemma ReachableSceneIsSound(c: Scene)
    requires ReachableScene(c)
    ensures SceneInv(c)
  {
    var events :| LegalScene(NEW_SCENE, events) && RunScene(NEW_SCENE, events) == c;
    EveryScene(events);
  }

  /** Buffer 2 has replaced buffer 1, and the client can name both. */
  const ATTACHED_TWICE := Scene(TWO_READY, Some(2), Some(1), {1, 2})

  const STARTED := Scene(INITIAL.(backend := Ready, open := true, master := true, attached := true), None, None, {})

  lemma ReachStarted()
    ensures ReachableScene(STARTED)
  {
    NewSceneIsReachable();
    ReachScene(NEW_SCENE, Other(Start(true)));
  }

  lemma ReachAttachedTwice()
    ensures ReachableScene(ATTACHED_TWICE)
  {
    ReachStarted();
    ReachScene(STARTED, Attach(1, true));
    ReachScene(NextScene(STARTED, Attach(1, true)), Attach(2, true));
    assert NextScene(NextScene(STARTED, Attach(1, true)), Attach(2, true)) == ATTACHED_TWICE;
  }

  lemma DestroyFrees1()
    ensures 1 !in NextScene(ATTACHED_TWICE, ClientDestroys(1)).protocol.buffers
    ensures NextScene(ATTACHED_TWICE, ClientDestroys(1)).replaced == Some(1)
  {
  }

  lemma AttachFrees1()
    ensures 1 !in NextScene(ATTACHED_TWICE, Attach(3, true)).protocol.buffers
    ensures 1 in NextScene(ATTACHED_TWICE, Attach(3, true)).registered
  {
  }

  lemma DropOfFreedFaults(s: State, b: BufferId)
    requires b !in s.buffers
    ensures Next(s, Drop(b)).faulted
  {
  }

  /** The next attach drops what the slot names, freed or not. */
  lemma AttachAfterLossFaults(c: Scene, p: BufferId, b: BufferId, client: bool)
    requires c.replaced == Some(p) && p !in c.protocol.buffers && b != p
    ensures NextScene(c, Attach(b, client)).protocol.faulted
  {
    DropOfFreedFaults(Next(c.protocol, Import(b)), p);
  }

  /** The connection drops what the client names, freed or not. */
  lemma DestroyAfterLossFaults(c: Scene, b: BufferId)
    requires b in c.registered && b !in c.protocol.buffers
    ensures NextScene(c, ClientDestroys(b)).protocol.faulted
  {
    DropOfFreedFaults(c.protocol, b);
  }

  /** Both orders fault: destroying 1 while a slot names it, and after the surface has dropped it. */
  lemma DestroyFaults()
    ensures ReachableScene(ATTACHED_TWICE) && SceneInv(ATTACHED_TWICE)
    ensures NextScene(NextScene(ATTACHED_TWICE, ClientDestroys(1)), Attach(3, true)).protocol.faulted
    ensures NextScene(NextScene(ATTACHED_TWICE, Attach(3, true)), ClientDestroys(1)).protocol.faulted
  {
    ReachAttachedTwice();
    ReachableSceneIsSound(ATTACHED_TWICE);
    DestroyFrees1();
    AttachFrees1();
    AttachAfterLossFaults(NextScene(ATTACHED_TWICE, ClientDestroys(1)), 1, 3, true);
    DestroyAfterLossFaults(NextScene(ATTACHED_TWICE, Attach(3, true)), 1);
  }

  // ---- with a reference taken at registration ----

  function NextCounted(c: Scene, event: Event): Scene {
    var d := NextScene(c, event);
    if event.Attach? && event.client then d.(protocol := Next(d.protocol, Hold(event.b))) else d
  }

  /** The client may destroy whatever it likes; nobody else drops the connection's references. */
  ghost predicate AllowedCounted(c: Scene, event: Event) {
    match event
    case ClientDestroys(_) => true
    case Other(step) => Allowed(c, event) && forall b :: b in c.registered ==> Spares(step, b)
    case _ => Allowed(c, event)
  }

  function RunCounted(c: Scene, events: seq<Event>): Scene
    decreases |events|
  {
    if events == [] then c else RunCounted(NextCounted(c, events[0]), events[1..])
  }

  ghost predicate LegalCounted(c: Scene, events: seq<Event>)
    decreases |events|
  {
    events != [] ==> AllowedCounted(c, events[0]) && LegalCounted(NextCounted(c, events[0]), events[1..])
  }

  /** A registered buffer has one reference for the connection and one for the slot that names it. */
  predicate Counted(c: Scene, b: BufferId) {
    b in c.registered ==> c.protocol.holders[b] >= if InSlot(c, b) then 2 else 1
  }

  ghost predicate CountedInv(c: Scene) {
    SceneInv(c) && forall b :: Counted(c, b)
  }

  function SlotRef(slot: Option<BufferId>): multiset<BufferId> {
    if slot.Some? then multiset{slot.value} else multiset{}
  }

  lemma DropSlotHolders(s: State, slot: Option<BufferId>)
    ensures DropSlot(s, slot).holders == s.holders - SlotRef(slot)
  {
    if slot.Some? {
      DropFrame(s, slot.value, slot.value);
    }
  }

  lemma HoldKeepsSceneInv(c: Scene, b: BufferId)
    requires SceneInv(c) && b in c.protocol.buffers
    ensures SceneInv(c.(protocol := Next(c.protocol, Hold(b))))
  {
    NextKeepsInv(c.protocol, Hold(b));
  }

  lemma AttachHolders(c: Scene, b: BufferId, client: bool)
    ensures NextScene(c, Attach(b, client)).protocol.holders == c.protocol.holders + multiset{b} - SlotRef(c.replaced)
  {
    DropSlotHolders(Next(c.protocol, Import(b)), c.replaced);
  }

  lemma AttachCounts(c: Scene, b: BufferId, client: bool)
    requires CountedInv(c) && b !in c.protocol.buffers
    ensures CountedInv(NextCounted(c, Attach(b, client)))
  {
    var d := NextScene(c, Attach(b, client));
    AttachKeepsSceneInv(c, b, client);
    HeldIsAllocated(d.protocol, b);
    if client {
      HoldKeepsSceneInv(d, b);
    }
    assert BufferOk(c.protocol, b);
    forall x ensures Counted(NextCounted(c, Attach(b, client)), x) {
      assert Counted(c, x) && Counted(c, b);
      AttachCountsOne(c, b, client, x);
    }
  }

  lemma AttachCountsOne(c: Scene, b: BufferId, client: bool, x: BufferId)
    requires Counted(c, x) && b !in c.registered && b !in c.protocol.holders
    requires c.current.Some? ==> c.current != c.replaced && c.current.value in c.protocol.holders
    requires c.replaced.Some? ==> c.replaced.value in c.protocol.holders
    ensures Counted(NextCounted(c, Attach(b, client)), x)
  {
    AttachHolders(c, b, client);
  }

  lemma DetachCounts(c: Scene)
    requires CountedInv(c)
    ensures CountedInv(NextScene(c, Detach))
  {
    EventKeepsSceneInv(c, Detach);
    DropSlotHolders(c.protocol, c.current);
    forall x ensures Counted(NextScene(c, Detach), x) {
      assert Counted(c, x);
    }
  }

  lemma DestroyCountsOne(c: Scene, x: BufferId)
    requires Counted(c, x) && (c.current.Some? ==> c.current != c.replaced)
    ensures Counted(NextScene(c, Destroy), x)
  {
    DropSlotHolders(c.protocol, c.current);
    DropSlotHolders(DropSlot(c.protocol, c.current), c.replaced);
  }

  lemma DestroyCounts(c: Scene)
    requires CountedInv(c)
    ensures CountedInv(NextScene(c, Destroy))
  {
    EventKeepsSceneInv(c, Destroy);
    forall x ensures Counted(NextScene(c, Destroy), x) {
      assert Counted(c, x);
      DestroyCountsOne(c, x);
    }
  }

  lemma ClientDestroyCounts(c: Scene, b: BufferId)
    requires CountedInv(c)
    ensures CountedInv(NextScene(c, ClientDestroys(b)))
  {
    assert Counted(c, b);
    if b in c.registered {
      HeldIsAllocated(c.protocol, b);
      DestroyKeepsSceneInvIff(c, b);
      DropFrame(c.protocol, b, b);
      forall x ensures Counted(NextScene(c, ClientDestroys(b)), x) {
        assert Counted(c, x);
      }
    }
  }

  lemma ShowCounts(c: Scene, answer: CommitRequest)
    requires CountedInv(c) && Allowed(c, Show(answer))
    ensures CountedInv(NextScene(c, Show(answer)))
  {
    EventKeepsSceneInv(c, Show(answer));
    assert NextScene(c, Show(answer)).protocol.holders == c.protocol.holders;
    forall x ensures Counted(NextScene(c, Show(answer)), x) {
      assert Counted(c, x);
    }
  }

  lemma OtherCounts(c: Scene, step: Step)
    requires CountedInv(c) && AllowedCounted(c, Other(step))
    ensures CountedInv(NextScene(c, Other(step)))
  {
    EventKeepsSceneInv(c, Other(step));
    forall x ensures Counted(NextScene(c, Other(step)), x) {
      assert Counted(c, x);
      if x in c.registered {
        SparedHoldings(c.protocol, step, x);
      }
    }
  }

  lemma EventCounts(c: Scene, event: Event)
    requires CountedInv(c) && AllowedCounted(c, event)
    ensures CountedInv(NextCounted(c, event))
  {
    match event
    case Attach(b, client) => AttachCounts(c, b, client);
    case Detach => DetachCounts(c);
    case Show(answer) => ShowCounts(c, answer);
    case Destroy => DestroyCounts(c);
    case ClientDestroys(b) => ClientDestroyCounts(c, b);
    case Other(step) => OtherCounts(c, step);
  }

  lemma {:induction false} CountedInRuns(c: Scene, events: seq<Event>)
    requires CountedInv(c) && LegalCounted(c, events)
    ensures CountedInv(RunCounted(c, events))
    decreases |events|
  {
    if events != [] {
      EventCounts(c, events[0]);
      CountedInRuns(NextCounted(c, events[0]), events[1..]);
    }
  }

  /** With a reference at registration every run is sound, whatever the client destroys and whenever. */
  lemma CountingRepairs(events: seq<Event>)
    requires LegalCounted(NEW_SCENE, events)
    ensures var c := RunCounted(NEW_SCENE, events);
            SceneInv(c) && !c.protocol.faulted && forall b :: b in c.registered ==> b in c.protocol.buffers
  {
    StartIsSafe();
    CountedInRuns(NEW_SCENE, events);
    var c := RunCounted(NEW_SCENE, events);
    forall b | b in c.registered ensures b in c.protocol.buffers {
      assert Counted(c, b);
      HeldIsAllocated(c.protocol, b);
    }
  }
}
