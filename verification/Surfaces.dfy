/**
 A surface and its two buffer slots on top of the retirement protocol (src/render/isz_surface.c), with
 the buffer objects of the client's connection (src/isz_client_dispatch.c). Buffers are named by when
 they were imported, not by their address: a new one never has the name of one that a slot, a list or
 the connection still knows.
 */
module Surfaces {
  import opened Options
  import opened Retirement
  import opened RetirementProofs
  import opened RetirementRuns
  import opened RetirementTheorems
  import opened RetirementBooks

  /**
   `current` is scanned out by the next commit, `replaced` is the buffer before it. `registered` has the
   buffers that the client can name; the connection takes no reference for them.
   */
  datatype Scene = Scene(protocol: State, current: Option<BufferId>, replaced: Option<BufferId>,
                         registered: set<BufferId>)

  /** An attach by the client also registers the buffer. `Other` is a step that is not this surface's doing. */
  datatype Event =
    | Attach(b: BufferId, client: bool)
    | Detach
    | Show(answer: CommitRequest)
    | Destroy
    | ClientDestroys(b: BufferId)
    | Other(step: Step)

  const NEW_SCENE := Scene(INITIAL, None, None, {})

  function DropSlot(s: State, slot: Option<BufferId>): State {
    if slot.Some? then Next(s, Drop(slot.value)) else s
  }

  /** The commit that a surface causes: it retires the replaced buffer if the surface has a current one. */
  function ShowRequest(c: Scene, answer: CommitRequest): CommitRequest {
    answer.(replaced := if c.current.Some? then c.replaced else None)
  }

  /** A commit that gets as far as the planes reads the current buffer. */
  predicate ReadsFreed(c: Scene, answer: CommitRequest) {
    c.protocol.open && c.protocol.backend == Ready && c.protocol.master && answer.atomic &&
    c.current.Some? && c.current.value !in c.protocol.buffers
  }

  function ShowStep(c: Scene, answer: CommitRequest): State {
    var t := Next(c.protocol, Commit(ShowRequest(c, answer)));
    if ReadsFreed(c, answer) then t.(faulted := true) else t
  }

  function NextScene(c: Scene, event: Event): Scene {
    match event
    case Attach(b, client) =>
      Scene(DropSlot(Next(c.protocol, Import(b)), c.replaced), Some(b), c.current,
            if client then c.registered + {b} else c.registered)
    case Detach => c.(protocol := DropSlot(c.protocol, c.current), current := None)
    case Show(answer) => c.(protocol := ShowStep(c, answer))
    case Destroy =>
      c.(protocol := DropSlot(DropSlot(c.protocol, c.current), c.replaced), current := None, replaced := None)
    case ClientDestroys(b) =>
      if b in c.registered then c.(protocol := Next(c.protocol, Drop(b)), registered := c.registered - {b}) else c
    case Other(step) => c.(protocol := Next(c.protocol, step))
  }

  predicate InSlot(c: Scene, b: BufferId) {
    c.current == Some(b) || c.replaced == Some(b)
  }

  /** The step neither takes, drops, caches nor retires b. */
  predicate Spares(step: Step, b: BufferId) {
    match step
    case Import(x) => x != b
    case Hold(x) => x != b
    case Drop(x) => x != b
    case CacheInsert(x, displaced) => x != b && displaced != Some(b)
    case CacheEvict(x) => x != b
    case Commit(r) => r.replaced != Some(b)
    case _ => true
  }

  /** A step of somebody else, who has no reference to this surface's buffers. */
  predicate Foreign(c: Scene, step: Step) {
    (c.current.Some? ==> Spares(step, c.current.value)) && (c.replaced.Some? ==> Spares(step, c.replaced.value))
  }

  function RunScene(c: Scene, events: seq<Event>): Scene
    decreases |events|
  {
    if events == [] then c else RunScene(NextScene(c, events[0]), events[1..])
  }

  // ---- a buffer that a step does not mention ----

  /** The step walks a release list. */
  predicate Drains(step: Step) {
    step.PageFlip? || step.Poll? || step.VtBack? || step.CloseBackend? || step.CloseServer?
  }

  lemma DrainKeepsOwners(s: State, step: Step)
    requires Drains(step)
    ensures var t := Next(s, step); t.holders == s.holders && t.cached == s.cached && t.retired == s.retired
  {
    match step
    case PageFlip => FlipAllFrame(FinishCommit(s));
    case Poll(signalled) => PollFrame(s, signalled);
    case VtBack => DropInFlightFrame(FinishCommit(s.(master := true)));
    case CloseBackend => DropInFlightFrame(s);
    case CloseServer => DropPendingFrame(s);
  }

  lemma CommitSpares(s: State, r: CommitRequest, b: BufferId)
    requires r.replaced != Some(b)
    ensures var t := Next(s, Commit(r));
            t.holders == s.holders && t.cached == s.cached && t.retired[b] == s.retired[b]
  {
  }

  lemma CacheInsertSpares(s: State, x: BufferId, displaced: Option<BufferId>, b: BufferId)
    requires x != b && displaced != Some(b)
    ensures var t := Next(s, CacheInsert(x, displaced));
            t.holders == s.holders && t.cached[b] == s.cached[b] && t.retired == s.retired
  {
    if displaced.Some? {
      CacheRemoveFrame(s, displaced.value, b);
    }
  }

  lemma SparedHoldings(s: State, step: Step, b: BufferId)
    requires Spares(step, b)
    ensures var t := Next(s, step);
            t.holders[b] == s.holders[b] && t.cached[b] == s.cached[b] && t.retired[b] == s.retired[b]
  {
    match step
    case Commit(r) => CommitSpares(s, r, b);
    case CacheInsert(x, displaced) => CacheInsertSpares(s, x, displaced, b);
    case CacheEvict(x) => CacheRemoveFrame(s, x, b);
    case Drop(x) => DropFrame(s, x, b);
    case _ =>
      if Drains(step) {
        DrainKeepsOwners(s, step);
      }
  }

  // ---- a surface that owns what its slots name ----

  /** Each slot has a reference of its own, and the current buffer was never retired. */
  ghost predicate SceneInv(c: Scene) {
    Inv(c.protocol) &&
    (c.current.Some? ==> c.current.value in c.protocol.holders && Listings(c.protocol, c.current.value) == 0) &&
    (c.replaced.Some? ==> c.replaced.value in c.protocol.holders) &&
    (c.current.Some? ==> c.replaced != c.current)
  }

  /**
   When the client may destroy b: it is not registered (any more), or it is still allocated, a slot that
   names it is not its only owner, and there is a reference to drop that nobody else counts on.
   */
  predicate MayDestroy(c: Scene, b: BufferId) {
    var s := c.protocol;
    b in c.registered ==>
      b in s.buffers && (InSlot(c, b) ==> s.holders[b] >= 2) && (b in s.holders || b !in s.cached)
  }

  /** What keeps a scene sound, event by event. */
  predicate Allowed(c: Scene, event: Event) {
    match event
    case Attach(b, _) => b !in c.protocol.buffers
    case Show(answer) => RetiresUnlisted(c.protocol, Commit(ShowRequest(c, answer)))
    case ClientDestroys(b) => MayDestroy(c, b)
    case Other(step) => Obliged(c.protocol, step) && RetiresUnlisted(c.protocol, step) && Foreign(c, step)
    case _ => true
  }

  predicate LegalScene(c: Scene, events: seq<Event>)
    decreases |events|
  {
    events != [] ==> Allowed(c, events[0]) && LegalScene(NextScene(c, events[0]), events[1..])
  }

  lemma HeldIsAllocated(s: State, b: BufferId)
    requires Core(s) && b in s.holders
    ensures b in s.buffers
  {
    assert BufferOk(s, b);
  }

  /** A spared buffer that is on no list stays on none. */
  lemma UnlistedStays(s: State, step: Step, b: BufferId)
    requires Conserved(s, b) && Spares(step, b) && Listings(s, b) == 0
    ensures Listings(Next(s, step), b) == 0
  {
    NextConserves(s, step, b);
    OverGrows(s, step, b);
    SparedHoldings(s, step, b);
  }

  lemma SparedSlot(s: State, step: Step, b: BufferId)
    requires Core(s) && Spares(step, b) && b in s.holders
    ensures b in Next(s, step).holders
    ensures Listings(s, b) == 0 ==> Listings(Next(s, step), b) == 0
  {
    SparedHoldings(s, step, b);
    assert BufferOk(s, b);
    if Listings(s, b) == 0 {
      UnlistedStays(s, step, b);
    }
  }

  lemma DropSlotKeeps(s: State, slot: Option<BufferId>, kept: Option<BufferId>)
    requires Inv(s) && (slot.Some? ==> slot.value in s.holders)
    requires kept.Some? ==> slot != kept && kept.value in s.holders
    ensures Inv(DropSlot(s, slot))
    ensures kept.Some? ==> kept.value in DropSlot(s, slot).holders
    ensures kept.Some? && Listings(s, kept.value) == 0 ==> Listings(DropSlot(s, slot), kept.value) == 0
  {
    if slot.Some? {
      NextKeepsInv(s, Drop(slot.value));
      if kept.Some? {
        SparedSlot(s, Drop(slot.value), kept.value);
      }
    }
  }

  lemma ImportIsUnlisted(s: State, b: BufferId)
    requires Inv(s) && b !in s.buffers
    ensures var t := Next(s, Import(b)); Inv(t) && b in t.holders && Listings(t, b) == 0
  {
    assert BufferOk(s, b);
    NextKeepsInv(s, Import(b));
  }

  lemma AttachKeepsSceneInv(c: Scene, b: BufferId, client: bool)
    requires SceneInv(c) && b !in c.protocol.buffers
    ensures SceneInv(NextScene(c, Attach(b, client)))
  {
    var s := c.protocol;
    var u := Next(s, Import(b));
    ImportIsUnlisted(s, b);
    if c.replaced.Some? {
      HeldIsAllocated(s, c.replaced.value);
      SparedSlot(s, Import(b), c.replaced.value);
    }
    if c.current.Some? {
      HeldIsAllocated(s, c.current.value);
      SparedSlot(s, Import(b), c.current.value);
      DropSlotKeeps(u, c.replaced, c.current);
    }
    DropSlotKeeps(u, c.replaced, Some(b));
  }

  lemma ShowKeepsSceneInv(c: Scene, answer: CommitRequest)
    requires SceneInv(c) && Allowed(c, Show(answer))
    ensures SceneInv(NextScene(c, Show(answer)))
  {
    var s, r := c.protocol, ShowRequest(c, answer);
    NextKeepsInv(s, Commit(r));
    if c.current.Some? {
      HeldIsAllocated(s, c.current.value);
      SparedSlot(s, Commit(r), c.current.value);
    }
    assert Next(s, Commit(r)).holders == s.holders;
  }

  lemma OtherKeepsSceneInv(c: Scene, step: Step)
    requires SceneInv(c) && Allowed(c, Other(step))
    ensures SceneInv(NextScene(c, Other(step)))
  {
    var s := c.protocol;
    NextKeepsInv(s, step);
    if c.current.Some? {
      SparedSlot(s, step, c.current.value);
    }
    if c.replaced.Some? {
      SparedSlot(s, step, c.replaced.value);
    }
  }

  // ---- a client that destroys a buffer ----

  /** The last reference of a listed buffer that nobody holds is the list's: the drop takes it off the list. */
  lemma DropOfListed(s: State, b: BufferId)
    requires Core(s) && b in s.buffers && b !in s.holders && b !in s.cached
    ensures Core(Next(s, Drop(b)))
    ensures |Next(s, Drop(b)).inFlight| <= |s.inFlight|
  {
    assert BufferOk(s, b);
    CountWithout(s.inFlight, b, b);
    CountWithout(s.pending, b, b);
    ListedMeansCounted(s.inFlight, b);
    ListedMeansCounted(s.pending, b);
    DropFrame(s, b, b);
    forall x: BufferId ensures BufferOk(DropRef(s, b), x) {
      assert BufferOk(s, x);
      if x == b {
        DropConserves(s, b, b);
      } else {
        DropKeeps(s, b, x);
      }
    }
  }

  lemma DropOfCachedOnly(s: State, b: BufferId)
    requires Core(s) && b in s.buffers && b !in s.holders && b in s.cached
    ensures !Core(Next(s, Drop(b)))
  {
    assert BufferOk(s, b);
    DropFrame(s, b, b);
    var t := DropRef(s, b);
    assert !BufferOk(t, b);
  }

  lemma DropOfHeld(c: Scene, b: BufferId)
    requires SceneInv(c) && b in c.protocol.holders && (InSlot(c, b) ==> c.protocol.holders[b] >= 2)
    ensures SceneInv(c.(protocol := Next(c.protocol, Drop(b))))
  {
    var s := c.protocol;
    NextKeepsInv(s, Drop(b));
    assert BufferOk(s, b);
    DropIsPlain(s, b);
    if c.current.Some? && c.current.value != b {
      SparedSlot(s, Drop(b), c.current.value);
    }
    if c.replaced.Some? && c.replaced.value != b {
      SparedSlot(s, Drop(b), c.replaced.value);
    }
  }

  lemma DropOfUnheld(c: Scene, b: BufferId)
    requires SceneInv(c) && b in c.protocol.buffers && b !in c.protocol.holders && b !in c.protocol.cached
    ensures SceneInv(c.(protocol := Next(c.protocol, Drop(b))))
  {
    var s := c.protocol;
    DropOfListed(s, b);
    DropFrame(s, b, b);
    if c.current.Some? {
      SparedSlot(s, Drop(b), c.current.value);
    }
    if c.replaced.Some? {
      SparedSlot(s, Drop(b), c.replaced.value);
    }
  }

  /** The connection has no reference of its own, so what it drops decides whether the scene stays sound. */
  lemma DestroyKeepsSceneInvIff(c: Scene, b: BufferId)
    requires SceneInv(c)
    ensures SceneInv(NextScene(c, ClientDestroys(b))) <==> MayDestroy(c, b)
  {
    var s := c.protocol;
    if b in c.registered {
      DropFrame(s, b, b);
      if b !in s.buffers {
        assert Next(s, Drop(b)).faulted;
      } else if b in s.holders {
        if MayDestroy(c, b) {
          DropOfHeld(c, b);
        }
      } else if b in s.cached {
        DropOfCachedOnly(s, b);
      } else {
        DropOfUnheld(c, b);
      }
    }
  }

  // ---- every run ----

  lemma EventKeepsSceneInv(c: Scene, event: Event)
    requires SceneInv(c) && Allowed(c, event)
    ensures SceneInv(NextScene(c, event))
  {
    match event
    case Attach(b, client) => AttachKeepsSceneInv(c, b, client);
    case Show(answer) => ShowKeepsSceneInv(c, answer);
    case Other(step) => OtherKeepsSceneInv(c, step);
    case ClientDestroys(b) => DestroyKeepsSceneInvIff(c, b);
    case Detach => DropSlotKeeps(c.protocol, c.current, c.replaced);
    case Destroy =>
      DropSlotKeeps(c.protocol, c.current, c.replaced);
      DropSlotKeeps(DropSlot(c.protocol, c.current), c.replaced, None);
  }

  lemma {:induction false} SceneInvInRuns(c: Scene, events: seq<Event>)
    requires SceneInv(c) && LegalScene(c, events)
    ensures SceneInv(RunScene(c, events))
    decreases |events|
  {
    if events != [] {
      EventKeepsSceneInv(c, events[0]);
      SceneInvInRuns(NextScene(c, events[0]), events[1..]);
    }
  }

  /** In every legal run from start-up a surface owns what its slots name, and nothing was freed too early. */
  lemma EveryScene(events: seq<Event>)
    requires LegalScene(NEW_SCENE, events)
    ensures SceneInv(RunScene(NEW_SCENE, events))
  {
    StartIsSafe();
    SceneInvInRuns(NEW_SCENE, events);
  }
}
