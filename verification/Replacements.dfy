/**
 How many releases one replacement of a buffer costs. A replacement of p lasts while p is in the slot
 `replaced`: from the attach that moves it there to the next attach or to the surface's end. Every
 commit in between retires p again: each of those retirements is sent once, lost or still owed, and the
 buffer's released mark tells the first from the later ones.
 */
module Replacements {
  import opened Options
  import opened Retirement
  import opened RetirementProofs
  import opened RetirementRuns
  import opened RetirementTheorems
  import opened RetirementBooks
  import opened Surfaces
  import opened ReleasedMarks

  // ---- counting retirements, in every run ----

  /** The event retires p, for this surface or for somebody else. */
  predicate RetiresBuffer(c: Scene, event: Event, p: BufferId) {
    match event
    case Show(answer) =>
      Retires(c.protocol, ShowRequest(c, answer)) && ShowRequest(c, answer).replaced == Some(p)
    case Other(Commit(r)) => Retires(c.protocol, r) && r.replaced == Some(p)
    case _ => false
  }

  /** How many events of the run retire p. */
  function Retirals(c: Scene, events: seq<Event>, p: BufferId): nat
    decreases |events|
  {
    if events == [] then 0
    else Retirals(NextScene(c, events[0]), events[1..], p) + (if RetiresBuffer(c, events[0], p) then 1 else 0)
  }

  lemma OwnersRetireNothing(s: State, step: Step)
    requires IsOwnerStep(step)
    ensures Next(s, step).retired == s.retired
  {
    match step
    case Drop(x) => DropFrame(s, x, x);
    case CacheEvict(x) => CacheRemoveFrame(s, x, x);
    case CacheInsert(x, Some(o)) => CacheRemoveFrame(s, o, x);
    case _ =>
  }

  lemma OthersRetireNothing(s: State, step: Step)
    requires !step.Commit?
    ensures Next(s, step).retired == s.retired
  {
    if Drains(step) {
      DrainKeepsOwners(s, step);
    } else if IsOwnerStep(step) {
      OwnersRetireNothing(s, step);
    }
  }

  lemma CommitRetires(s: State, r: CommitRequest, p: BufferId)
    ensures CommitOutput(s, r).retired[p] ==
            s.retired[p] + (if Retires(s, r) && r.replaced == Some(p) then 1 else 0)
  {
  }

  lemma DropSlotBooks(s: State, slot: Option<BufferId>, p: BufferId)
    requires Conserved(s, p)
    ensures Conserved(DropSlot(s, slot), p) && DropSlot(s, slot).retired == s.retired
  {
    if slot.Some? {
      NextConserves(s, Drop(slot.value), p);
      DropFrame(s, slot.value, p);
    }
  }

  lemma ShowRetires(c: Scene, answer: CommitRequest, p: BufferId)
    requires Conserved(c.protocol, p)
    ensures var d := NextScene(c, Show(answer));
            Conserved(d.protocol, p) &&
            d.protocol.retired[p] == c.protocol.retired[p] + if RetiresBuffer(c, Show(answer), p) then 1 else 0
  {
    var r := ShowRequest(c, answer);
    NextConserves(c.protocol, Commit(r), p);
    CommitRetires(c.protocol, r, p);
  }

  lemma OtherRetires(c: Scene, step: Step, p: BufferId)
    requires Conserved(c.protocol, p)
    ensures var d := NextScene(c, Other(step));
            Conserved(d.protocol, p) &&
            d.protocol.retired[p] == c.protocol.retired[p] + if RetiresBuffer(c, Other(step), p) then 1 else 0
  {
    NextConserves(c.protocol, step, p);
    if step.Commit? {
      CommitRetires(c.protocol, step.request, p);
    } else {
      OthersRetireNothing(c.protocol, step);
    }
  }

  lemma EventRetires(c: Scene, event: Event, p: BufferId)
    requires Conserved(c.protocol, p)
    ensures var d := NextScene(c, event);
            Conserved(d.protocol, p) &&
            d.protocol.retired[p] == c.protocol.retired[p] + if RetiresBuffer(c, event, p) then 1 else 0
  {
    match event
    case Show(answer) => ShowRetires(c, answer, p);
    case Other(step) => OtherRetires(c, step, p);
    case Attach(b, client) => DropSlotBooks(Next(c.protocol, Import(b)), c.replaced, p);
    case Detach => DropSlotBooks(c.protocol, c.current, p);
    case Destroy =>
      DropSlotBooks(c.protocol, c.current, p);
      DropSlotBooks(DropSlot(c.protocol, c.current), c.replaced, p);
    case ClientDestroys(b) => DropSlotBooks(c.protocol, Some(b), p);
  }

  lemma {:induction false} RunRetires(c: Scene, events: seq<Event>, p: BufferId)
    requires Conserved(c.protocol, p)
    ensures var d := RunScene(c, events);
            Conserved(d.protocol, p) && d.protocol.retired[p] == c.protocol.retired[p] + Retirals(c, events, p)
    decreases |events|
  {
    if events != [] {
      EventRetires(c, events[0], p);
      RunRetires(NextScene(c, events[0]), events[1..], p);
    }
  }

  /**
   In every run, whatever client and callers do: each event that retires p is one release, sent, lost
   or still owed. So if none was lost and none is owed, p was released at most once exactly when at most
   one event retired it, and once exactly when one did. For one replacement, `events` are those between
   the attach that replaced p and the next.
   */
  lemma ReleasesPerReplacement(before: seq<Event>, events: seq<Event>, p: BufferId)
    ensures var c := RunScene(NEW_SCENE, before);
            var s, t := c.protocol, RunScene(c, events).protocol;
            Count(t.wire, p) + t.dropped[p] + Listings(t, p) ==
              Count(s.wire, p) + s.dropped[p] + Listings(s, p) + Retirals(c, events, p) &&
            (t.dropped[p] == s.dropped[p] && Listings(s, p) == 0 && Listings(t, p) == 0 ==>
               (Count(t.wire, p) <= Count(s.wire, p) + 1 <==> Retirals(c, events, p) <= 1) &&
               (Count(t.wire, p) == Count(s.wire, p) + 1 <==> Retirals(c, events, p) == 1))
  {
    RunRetires(NEW_SCENE, before, p);
    RunRetires(RunScene(NEW_SCENE, before), events, p);
  }

  // ---- scenes as the code makes them, client included ----

  /** A slot's buffer has the slot's reference, or lost it to a client who cannot name it any more. */
  predicate SlotBooks(c: Scene, x: BufferId) {
    var s := c.protocol;
    BufferOk(s, x) && s.cached[x] == 0 && (s.holders[x] == 1 || (s.holders[x] == 0 && x !in c.registered))
  }

  /** True of every scene until a freed buffer is touched. */
  ghost predicate AsWritten(c: Scene) {
    (forall b: BufferId :: Conserved(c.protocol, b)) &&
    (c.current.Some? ==> SlotBooks(c, c.current.value) && !Touched(c.protocol, c.current.value)) &&
    (c.replaced.Some? ==> SlotBooks(c, c.replaced.value)) &&
    (c.current.Some? ==> c.replaced != c.current)
  }

  /** New buffers have new names, and others do not use the surface's references. Nothing is asked of the client. */
  predicate Lawful(c: Scene, event: Event) {
    match event
    case Attach(b, _) =>
      b !in c.protocol.buffers && Owed(c.protocol, b) == 0 && b !in c.registered && !InSlot(c, b)
    case Other(step) => Foreign(c, step) && (step.Start? ==> c.protocol.backend == Uninitialized)
    case _ => true
  }

  predicate LawfulRun(c: Scene, events: seq<Event>)
    decreases |events|
  {
    events != [] ==> Lawful(c, events[0]) && LawfulRun(NextScene(c, events[0]), events[1..])
  }

  lemma SparedSlotBooks(c: Scene, step: Step, x: BufferId, registered: set<BufferId>)
    requires SlotBooks(c, x) && Spares(step, x) && (x in registered ==> x in c.registered)
    ensures SlotBooks(c.(protocol := Next(c.protocol, step), registered := registered), x)
    ensures !Touched(c.protocol, x) ==> !Touched(Next(c.protocol, step), x)
  {
    SparedBooks(c.protocol, step, x);
    SparedHoldings(c.protocol, step, x);
  }

  /** Both slots keep their books over a step that spares them. */
  lemma SparedScene(c: Scene, step: Step, registered: set<BufferId>)
    requires AsWritten(c) && Foreign(c, step) && registered <= c.registered
    ensures AsWritten(c.(protocol := Next(c.protocol, step), registered := registered))
  {
    forall b: BufferId ensures Conserved(Next(c.protocol, step), b) {
      NextConserves(c.protocol, step, b);
    }
    if c.current.Some? {
      SparedSlotBooks(c, step, c.current.value, registered);
    }
    if c.replaced.Some? {
      SparedSlotBooks(c, step, c.replaced.value, registered);
    }
  }

  lemma DropSlotAsWritten(c: Scene, slot: Option<BufferId>)
    requires AsWritten(c) && (slot.Some? ==> !InSlot(c, slot.value))
    ensures AsWritten(c.(protocol := DropSlot(c.protocol, slot)))
  {
    if slot.Some? {
      SparedScene(c, Drop(slot.value), c.registered);
    }
  }

  lemma ImportAsWritten(c: Scene, b: BufferId, client: bool)
    requires AsWritten(c) && Lawful(c, Attach(b, client)) && c.replaced.None?
    ensures AsWritten(Scene(Next(c.protocol, Import(b)), Some(b), c.current,
                            if client then c.registered + {b} else c.registered))
  {
    var s := c.protocol;
    assert Conserved(s, b);
    ImportKeeps(s, b, b);
    forall x: BufferId ensures Conserved(Next(s, Import(b)), x) {
      NextConserves(s, Import(b), x);
    }
    if c.current.Some? {
      SparedSlotBooks(c, Import(b), c.current.value, c.registered);
    }
  }

  /** Dropping the replaced buffer first or last makes no difference to the other slot. */
  lemma AttachAsWritten(c: Scene, b: BufferId, client: bool)
    requires AsWritten(c) && Lawful(c, Attach(b, client))
    ensures AsWritten(NextScene(c, Attach(b, client)))
  {
    var registered := if client then c.registered + {b} else c.registered;
    ImportAsWritten(c.(replaced := None), b, client);
    DropSlotAsWritten(Scene(Next(c.protocol, Import(b)), Some(b), c.current, registered), c.replaced);
  }

  lemma ShowAsWritten(c: Scene, answer: CommitRequest)
    requires AsWritten(c) && !NextScene(c, Show(answer)).protocol.faulted
    ensures AsWritten(NextScene(c, Show(answer)))
  {
    var s, r := c.protocol, ShowRequest(c, answer);
    var t := Next(s, Commit(r));
    assert NextScene(c, Show(answer)).protocol == t;
    forall b: BufferId ensures Conserved(t, b) {
      NextConserves(s, Commit(r), b);
    }
    if c.current.Some? {
      SparedSlotBooks(c, Commit(r), c.current.value, c.registered);
    }
    if c.replaced.Some? {
      RetireIsObliged(s, r, c.replaced.value);
      BooksAreLocal(s, Commit(r), c.replaced.value);
    }
  }

  lemma RetireIsObliged(s: State, r: CommitRequest, p: BufferId)
    requires !Next(s, Commit(r)).faulted
    ensures ObligedTo(s, Commit(r), p)
    ensures Next(s, Commit(r)).holders == s.holders && Next(s, Commit(r)).cached == s.cached
  {
    ListedMeansCounted(s.inFlight, p);
    ListedMeansCounted(s.pending, p);
  }

  lemma OwnDrop(c: Scene, x: BufferId)
    requires SlotBooks(c, x) && x in c.registered
    ensures SlotBooks(NextScene(c, ClientDestroys(x)), x)
    ensures !Touched(c.protocol, x) ==> !Touched(NextScene(c, ClientDestroys(x)).protocol, x)
  {
    DropKeeps(c.protocol, x, x);
    DropFrame(c.protocol, x, x);
    DropIsPlain(c.protocol, x);
  }

  lemma ClientDestroyAsWritten(c: Scene, b: BufferId)
    requires AsWritten(c)
    ensures AsWritten(NextScene(c, ClientDestroys(b)))
  {
    if b in c.registered {
      forall x: BufferId ensures Conserved(Next(c.protocol, Drop(b)), x) {
        NextConserves(c.protocol, Drop(b), x);
      }
      if c.current.Some? {
        if c.current.value == b {
          OwnDrop(c, b);
        } else {
          SparedSlotBooks(c, Drop(b), c.current.value, c.registered - {b});
        }
      }
      if c.replaced.Some? {
        if c.replaced.value == b {
          OwnDrop(c, b);
        } else {
          SparedSlotBooks(c, Drop(b), c.replaced.value, c.registered - {b});
        }
      }
    }
  }

  lemma EventAsWritten(c: Scene, event: Event)
    requires AsWritten(c) && Lawful(c, event) && !NextScene(c, event).protocol.faulted
    ensures AsWritten(NextScene(c, event))
  {
    match event
    case Attach(b, client) => AttachAsWritten(c, b, client);
    case Detach => DropSlotAsWritten(c.(current := None), c.current);
    case Show(answer) => ShowAsWritten(c, answer);
    case Destroy =>
      var d := c.(current := None, replaced := None);
      DropSlotAsWritten(d, c.current);
      DropSlotAsWritten(d.(protocol := DropSlot(c.protocol, c.current)), c.replaced);
    case ClientDestroys(b) => ClientDestroyAsWritten(c, b);
    case Other(step) => SparedScene(c, step, c.registered);
  }

  // ---- faults end a run ----

  lemma DropSlotFaults(s: State, slot: Option<BufferId>)
    requires s.faulted
    ensures DropSlot(s, slot).faulted
  {
    if slot.Some? {
      FaultStays(s, Drop(slot.value));
    }
  }

  lemma FaultStaysInScenes(c: Scene, event: Event)
    requires c.protocol.faulted
    ensures NextScene(c, event).protocol.faulted
  {
    match event
    case Attach(b, client) => DropSlotFaults(Next(c.protocol, Import(b)), c.replaced);
    case Detach => DropSlotFaults(c.protocol, c.current);
    case Show(answer) => FaultStays(c.protocol, Commit(ShowRequest(c, answer)));
    case Destroy =>
      DropSlotFaults(c.protocol, c.current);
      DropSlotFaults(DropSlot(c.protocol, c.current), c.replaced);
    case ClientDestroys(b) => FaultStays(c.protocol, Drop(b));
    case Other(step) => FaultStays(c.protocol, step);
  }

  lemma {:induction false} FaultStaysInRuns(c: Scene, events: seq<Event>)
    requires c.protocol.faulted
    ensures RunScene(c, events).protocol.faulted
    decreases |events|
  {
    if events != [] {
      FaultStaysInScenes(c, events[0]);
      FaultStaysInRuns(NextScene(c, events[0]), events[1..]);
    }
  }

  /** A run that ends without a fault had none on the way. */
  lemma NoFaultBefore(c: Scene, events: seq<Event>)
    requires events != [] && !RunScene(c, events).protocol.faulted
    ensures !NextScene(c, events[0]).protocol.faulted
  {
    if NextScene(c, events[0]).protocol.faulted {
      FaultStaysInRuns(NextScene(c, events[0]), events[1..]);
    }
  }

  lemma {:induction false} AsWrittenInRuns(c: Scene, events: seq<Event>)
    requires AsWritten(c) && LawfulRun(c, events) && !RunScene(c, events).protocol.faulted
    ensures AsWritten(RunScene(c, events))
    decreases |events|
  {
    if events != [] {
      NoFaultBefore(c, events);
      EventAsWritten(c, events[0]);
      AsWrittenInRuns(NextScene(c, events[0]), events[1..]);
    }
  }

  /** Until a freed buffer is touched, the books of both slots are right, whatever the client destroys. */
  lemma EveryWrittenScene(events: seq<Event>)
    requires LawfulRun(NEW_SCENE, events) && !RunScene(NEW_SCENE, events).protocol.faulted
    ensures AsWritten(RunScene(NEW_SCENE, events))
  {
    AsWrittenInRuns(NEW_SCENE, events);
  }

  // ---- one replacement ----

  /** The surface keeps its slot `replaced` over these events. */
  predicate Tenure(events: seq<Event>) {
    forall i :: 0 <= i < |events| ==> !events[i].Attach? && !events[i].Destroy?
  }

  lemma TenureShift(events: seq<Event>)
    requires events != [] && Tenure(events)
    ensures !events[0].Attach? && !events[0].Destroy? && Tenure(events[1..])
  {
    forall i | 0 <= i < |events| - 1 ensures !events[1..][i].Attach? && !events[1..][i].Destroy? {
      assert events[1..][i] == events[i + 1];
    }
  }

  /** No event of the run retires p while it is marked released already. */
  predicate RetiresUnmarked(c: Scene, events: seq<Event>, p: BufferId)
    decreases |events|
  {
    events != [] ==>
      (RetiresBuffer(c, events[0], p) ==> !Released(c.protocol, p)) &&
      RetiresUnmarked(NextScene(c, events[0]), events[1..], p)
  }

  /** In a tenure only this surface's commits retire p; retiring a lost or listed buffer is a fault. */
  lemma RetiredIsFree(c: Scene, event: Event, p: BufferId)
    requires AsWritten(c) && c.replaced == Some(p) && Lawful(c, event) && RetiresBuffer(c, event, p)
    requires !NextScene(c, event).protocol.faulted
    ensures event.Show? && Listings(c.protocol, p) == 0 && c.protocol.holders[p] == 1
  {
    RetireIsObliged(c.protocol, ShowRequest(c, event.answer), p);
  }

  /** What a tenure's event does to p, unless it is the client destroying it. */
  lemma TenureFollows(c: Scene, event: Event, p: BufferId)
    requires AsWritten(c) && c.replaced == Some(p) && Lawful(c, event) && !event.Attach? && !event.Destroy?
    requires event != ClientDestroys(p) || p !in c.registered
    requires !NextScene(c, event).protocol.faulted
    ensures var d := NextScene(c, event);
            d.replaced == Some(p) && d.protocol.holders[p] == c.protocol.holders[p] &&
            Follows(c.protocol, d.protocol, p)
  {
    var s := c.protocol;
    match event
    case Show(answer) =>
      CommitFollows(s, ShowRequest(c, answer), p);
      RetireIsObliged(s, ShowRequest(c, answer), p);
    case Detach =>
      if c.current.Some? {
        SparedFollows(s, Drop(c.current.value), p);
        SparedHoldings(s, Drop(c.current.value), p);
      }
    case ClientDestroys(b) =>
      if b in c.registered {
        SparedFollows(s, Drop(b), p);
        SparedHoldings(s, Drop(b), p);
      }
    case Other(step) =>
      SparedFollows(s, step, p);
      SparedHoldings(s, step, p);
  }

  lemma {:induction false} LostIsNeverRetired(c: Scene, events: seq<Event>, p: BufferId)
    requires AsWritten(c) && c.replaced == Some(p) && c.protocol.holders[p] == 0
    requires LawfulRun(c, events) && Tenure(events) && !RunScene(c, events).protocol.faulted
    ensures Retirals(c, events, p) == 0 && RetiresUnmarked(c, events, p)
    decreases |events|
  {
    if events != [] {
      TenureShift(events);
      NoFaultBefore(c, events);
      EventAsWritten(c, events[0]);
      TenureFollows(c, events[0], p);
      if RetiresBuffer(c, events[0], p) {
        RetiredIsFree(c, events[0], p);
      }
      LostIsNeverRetired(NextScene(c, events[0]), events[1..], p);
    }
  }

  /** Somebody is told about releases. */
  predicate Served(s: State) {
    s.attached && s.backend != Uninitialized
  }

  lemma DrainKeepsServed(s: State, step: Step)
    requires Served(s) && Drains(step)
    ensures Served(Next(s, step))
  {
    match step
    case PageFlip => FlipAllFrame(FinishCommit(s));
    case Poll(signalled) => PollFrame(s, signalled);
    case VtBack => DropInFlightFrame(FinishCommit(s.(master := true)));
    case CloseBackend => DropInFlightFrame(s);
    case CloseServer => DropPendingFrame(s);
  }

  lemma OwnersKeepServed(s: State, step: Step)
    requires Served(s) && IsOwnerStep(step)
    ensures Served(Next(s, step))
  {
    match step
    case Drop(x) => DropFrame(s, x, x);
    case CacheEvict(x) => CacheRemoveFrame(s, x, x);
    case CacheInsert(x, Some(o)) => CacheRemoveFrame(s, o, x);
    case _ =>
  }

  lemma OtherKeepsServed(s: State, step: Step)
    requires Served(s) && (step.Start? ==> s.backend == Uninitialized)
    ensures Served(Next(s, step))
  {
    if Drains(step) {
      DrainKeepsServed(s, step);
    } else if IsOwnerStep(step) {
      OwnersKeepServed(s, step);
    }
  }

  lemma TenureKeepsServed(c: Scene, event: Event)
    requires Served(c.protocol) && Lawful(c, event) && !event.Attach? && !event.Destroy?
    ensures Served(NextScene(c, event).protocol)
  {
    match event
    case Show(answer) => OtherKeepsServed(c.protocol, Commit(ShowRequest(c, answer)));
    case Detach =>
      if c.current.Some? {
        OwnersKeepServed(c.protocol, Drop(c.current.value));
      }
    case ClientDestroys(b) => OwnersKeepServed(c.protocol, Drop(b));
    case Other(step) => OtherKeepsServed(c.protocol, step);
  }

  lemma {:induction false} FirstRetiralIsUnmarked(c: Scene, events: seq<Event>, p: BufferId)
    requires AsWritten(c) && c.replaced == Some(p) && Served(c.protocol)
    requires LawfulRun(c, events) && Tenure(events) && !RunScene(c, events).protocol.faulted
    ensures RetiresUnmarked(c, events, p) <==>
            Retirals(c, events, p) + (if Touched(c.protocol, p) then 1 else 0) <= 1
    decreases |events|
  {
    if c.protocol.holders[p] == 0 {
      LostIsNeverRetired(c, events, p);
    } else if events != [] {
      var event, d := events[0], NextScene(c, events[0]);
      TenureShift(events);
      NoFaultBefore(c, events);
      EventAsWritten(c, event);
      if event == ClientDestroys(p) && p in c.registered {
        DropFrame(c.protocol, p, p);
        LostIsNeverRetired(d, events[1..], p);
      } else {
        TenureStep(c, event, p);
        FirstRetiralIsUnmarked(d, events[1..], p);
      }
    }
  }

  /** One event of a tenure: p is touched afterwards if it was before or is retired, and retired only if free. */
  lemma TenureStep(c: Scene, event: Event, p: BufferId)
    requires AsWritten(c) && c.replaced == Some(p) && c.protocol.holders[p] == 1 && Served(c.protocol)
    requires Lawful(c, event) && !event.Attach? && !event.Destroy?
    requires event != ClientDestroys(p) || p !in c.registered
    requires AsWritten(NextScene(c, event)) && !NextScene(c, event).protocol.faulted
    ensures var d := NextScene(c, event);
            d.replaced == Some(p) && Served(d.protocol) &&
            (Touched(d.protocol, p) <==> Touched(c.protocol, p) || RetiresBuffer(c, event, p)) &&
            (RetiresBuffer(c, event, p) ==> Listings(c.protocol, p) == 0)
  {
    TenureFollows(c, event, p);
    TenureKeepsServed(c, event);
    EventRetires(c, event, p);
    TouchedIff(c.protocol, NextScene(c, event).protocol, p, RetiresBuffer(c, event, p));
    if RetiresBuffer(c, event, p) {
      RetiredIsFree(c, event, p);
    }
  }

  lemma AttachReplaces(c: Scene, b: BufferId, client: bool, p: BufferId)
    requires AsWritten(c) && c.current == Some(p) && Lawful(c, Attach(b, client)) && Served(c.protocol)
    ensures var d := NextScene(c, Attach(b, client));
            AsWritten(d) && d.replaced == Some(p) && !Touched(d.protocol, p) && Served(d.protocol)
  {
    var u := Next(c.protocol, Import(b));
    AttachAsWritten(c, b, client);
    SparedBooks(c.protocol, Import(b), p);
    if c.replaced.Some? {
      SparedBooks(u, Drop(c.replaced.value), p);
      OwnersKeepServed(u, Drop(c.replaced.value));
    }
  }

  /**
   The missing guard is the buffer's own released mark: with a server, and until a freed buffer is
   touched, a replaced buffer is retired at most once before the next attach exactly when no commit
   retires it while it is marked, whatever the client destroys in between.
   */
  lemma RetiredOnceIffUnmarked(c: Scene, b: BufferId, client: bool, events: seq<Event>, p: BufferId)
    requires AsWritten(c) && c.current == Some(p) && Served(c.protocol) && Lawful(c, Attach(b, client))
    requires LawfulRun(NextScene(c, Attach(b, client)), events) && Tenure(events)
    requires !RunScene(NextScene(c, Attach(b, client)), events).protocol.faulted
    ensures var d := NextScene(c, Attach(b, client)); Retirals(d, events, p) <= 1 <==> RetiresUnmarked(d, events, p)
  {
    AttachReplaces(c, b, client, p);
    FirstRetiralIsUnmarked(NextScene(c, Attach(b, client)), events, p);
  }
}
