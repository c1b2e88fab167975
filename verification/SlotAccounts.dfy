/**
 Nothing leaks: a buffer that nobody but the surface holds has exactly one reference for each slot that
 names it, and is gone as soon as no slot, list or cache has it.
 */
module SlotAccounts {
  import opened Options
  import opened Retirement
  import opened RetirementProofs
  import opened RetirementRuns
  import opened RetirementTheorems
  import opened RetirementBooks
  import opened Surfaces

  /** How many slots name b. */
  function SlotRefs(c: Scene, b: BufferId): nat {
    (if c.current == Some(b) then 1 else 0) + (if c.replaced == Some(b) then 1 else 0)
  }

  /** Nobody but the surface imports, holds or drops b. */
  predicate LeavesAlone(event: Event, b: BufferId) {
    event != ClientDestroys(b) &&
    (event.Other? ==> event.step != Import(b) && event.step != Hold(b) && event.step != Drop(b))
  }

  lemma StepHolders(s: State, step: Step, b: BufferId)
    requires step != Import(b) && step != Hold(b) && step != Drop(b)
    ensures Next(s, step).holders[b] == s.holders[b]
  {
    match step
    case Drop(x) => DropFrame(s, x, b);
    case CacheEvict(x) => CacheRemoveFrame(s, x, b);
    case CacheInsert(x, Some(o)) => CacheRemoveFrame(s, o, b);
    case _ =>
      if Drains(step) {
        DrainKeepsOwners(s, step);
      }
  }

  lemma DropSlotRefs(s: State, slot: Option<BufferId>, b: BufferId)
    ensures slot == Some(b) && b in s.holders ==> DropSlot(s, slot).holders[b] == s.holders[b] - 1
    ensures slot != Some(b) ==> DropSlot(s, slot).holders[b] == s.holders[b]
  {
    if slot.Some? {
      DropFrame(s, slot.value, b);
    }
  }

  lemma AttachRefs(c: Scene, b: BufferId, client: bool, x: BufferId)
    requires SceneInv(c) && b !in c.protocol.buffers && c.protocol.holders[x] == SlotRefs(c, x)
    ensures NextScene(c, Attach(b, client)).protocol.holders[x] == SlotRefs(NextScene(c, Attach(b, client)), x)
  {
    assert BufferOk(c.protocol, b);
    DropSlotRefs(Next(c.protocol, Import(b)), c.replaced, x);
  }

  lemma DestroyRefs(c: Scene, x: BufferId)
    requires SceneInv(c) && c.protocol.holders[x] == SlotRefs(c, x)
    ensures NextScene(c, Destroy).protocol.holders[x] == SlotRefs(NextScene(c, Destroy), x)
  {
    DropSlotRefs(c.protocol, c.current, x);
    DropSlotRefs(DropSlot(c.protocol, c.current), c.replaced, x);
  }

  lemma EventRefs(c: Scene, event: Event, b: BufferId)
    requires SceneInv(c) && Allowed(c, event) && LeavesAlone(event, b) && c.protocol.holders[b] == SlotRefs(c, b)
    ensures NextScene(c, event).protocol.holders[b] == SlotRefs(NextScene(c, event), b)
  {
    match event
    case Attach(x, client) => AttachRefs(c, x, client, b);
    case Detach => DropSlotRefs(c.protocol, c.current, b);
    case Show(answer) => StepHolders(c.protocol, Commit(ShowRequest(c, answer)), b);
    case Destroy => DestroyRefs(c, b);
    case ClientDestroys(x) => DropFrame(c.protocol, x, b);
    case Other(step) => StepHolders(c.protocol, step, b);
  }

  lemma {:induction false} RunRefs(c: Scene, events: seq<Event>, b: BufferId)
    requires SceneInv(c) && LegalScene(c, events) && c.protocol.holders[b] == SlotRefs(c, b)
    requires forall i :: 0 <= i < |events| ==> LeavesAlone(events[i], b)
    ensures RunScene(c, events).protocol.holders[b] == SlotRefs(RunScene(c, events), b)
    decreases |events|
  {
    if events != [] {
      EventRefs(c, events[0], b);
      EventKeepsSceneInv(c, events[0]);
      forall i | 0 <= i < |events| - 1 ensures LeavesAlone(events[1..][i], b) {
        assert events[1..][i] == events[i + 1];
      }
      RunRefs(NextScene(c, events[0]), events[1..], b);
    }
  }

  /**
   In every legal run from start-up: the references to b outside the lists and the cache are those of
   the slots that name it, and b is allocated exactly while a slot, a list or the cache has it.
   */
  lemma NothingLeaks(events: seq<Event>, b: BufferId)
    requires LegalScene(NEW_SCENE, events) && forall i :: 0 <= i < |events| ==> LeavesAlone(events[i], b)
    ensures var c := RunScene(NEW_SCENE, events);
            c.protocol.holders[b] == SlotRefs(c, b) &&
            (b in c.protocol.buffers <==> InSlot(c, b) || IsListed(c.protocol, b) || b in c.protocol.cached)
  {
    StartIsSafe();
    RunRefs(NEW_SCENE, events, b);
    EveryScene(events);
    var c := RunScene(NEW_SCENE, events);
    assert BufferOk(c.protocol, b);
    ListedMeansCounted(c.protocol.inFlight, b);
    ListedMeansCounted(c.protocol.pending, b);
  }

  // ---- where the buffers are after each event ----

  /** The new buffer is current, and the current one is the replaced one. */
  lemma AttachMoves(c: Scene, b: BufferId, client: bool)
    ensures var d := NextScene(c, Attach(b, client));
            d.current == Some(b) && d.replaced == c.current &&
            (forall x :: x in d.registered <==> x in c.registered || (client && x == b))
  {
  }

  lemma DetachMoves(c: Scene)
    ensures var d := NextScene(c, Detach);
            d.current == None && d.replaced == c.replaced && d.registered == c.registered
    ensures var d := NextScene(c, Destroy);
            d.current == None && d.replaced == None && d.registered == c.registered
  {
  }

  lemma OthersMoveNothing(c: Scene, event: Event)
    requires event.Show? || event.ClientDestroys? || event.Other?
    ensures var d := NextScene(c, event); d.current == c.current && d.replaced == c.replaced
  {
  }

  /** A commit of the surface retires the replaced buffer exactly if it succeeds, is no test and something is shown. */
  lemma ShowRetiresReplaced(c: Scene, answer: CommitRequest, b: BufferId)
    ensures NextScene(c, Show(answer)).protocol.retired[b] ==
            c.protocol.retired[b] +
            (if c.protocol.open && c.protocol.backend == Ready && c.protocol.master && answer.atomic &&
                answer.accepted && !answer.testOnly && c.current.Some? && c.replaced == Some(b) then 1 else 0)
  {
  }

  /**
   A commit of the surface faults exactly if it gets as far as the planes with a current buffer that is freed, or
   retires a replaced one that is freed or on a list.
   */
  lemma ShowFaultsIff(c: Scene, answer: CommitRequest)
    requires !c.protocol.faulted
    ensures NextScene(c, Show(answer)).protocol.faulted <==>
              c.protocol.open && c.protocol.backend == Ready && c.protocol.master && answer.atomic && c.current.Some? &&
              (c.current.value !in c.protocol.buffers ||
               (answer.accepted && !answer.testOnly && c.replaced.Some? &&
                (c.replaced.value !in c.protocol.buffers || c.replaced.value in c.protocol.inFlight ||
                 c.replaced.value in c.protocol.pending)))
  {
  }
}
