/**
 What holds in every run, legal or not: no retirement is forgotten, and a fault is never forgiven.
 Callers that misuse references can fault the run; they cannot make the count of retirements wrong.
 */
module RetirementBooks {
  import opened Options
  import opened Retirement
  import opened RetirementProofs
  import opened RetirementRuns

  // ---- conservation without any obligation ----

  lemma HandOverConserves(s: State, b: BufferId)
    requires s.inFlight != [] && Conserved(s, b)
    ensures Conserved(HandOver(s), b)
  {
    CountPush(s.pending, s.inFlight[0], b);
  }

  lemma ReleaseFlippedConserves(s: State, b: BufferId)
    requires s.inFlight != [] && Conserved(s, b)
    ensures Conserved(ReleaseFlipped(s), b)
  {
    CountPush(s.wire, s.inFlight[0], b);
  }

  lemma LoseFlippedConserves(s: State, b: BufferId)
    requires s.inFlight != [] && Conserved(s, b)
    ensures Conserved(LoseFlipped(s), b)
  {
  }

  lemma FlipHeadConserves(s: State, b: BufferId)
    requires s.inFlight != [] && Conserved(s, b)
    ensures Conserved(FlipHead(s), b)
  {
    HandOverConserves(s, b);
    ReleaseFlippedConserves(s, b);
    LoseFlippedConserves(s, b);
  }

  lemma {:induction false} FlipAllConserves(s: State, b: BufferId)
    requires Conserved(s, b)
    ensures Conserved(FlipAll(s), b)
    decreases |s.inFlight|
  {
    if s.inFlight != [] {
      FlipHeadConserves(s, b);
      FlipAllConserves(FlipHead(s), b);
    }
  }

  lemma {:induction false} DropInFlightConserves(s: State, b: BufferId)
    requires Conserved(s, b)
    ensures Conserved(DropInFlight(s), b)
    decreases |s.inFlight|
  {
    if s.inFlight != [] {
      DropInFlightConserves(DropInFlightHead(s), b);
    }
  }

  lemma {:induction false} DropPendingConserves(s: State, b: BufferId)
    requires Conserved(s, b)
    ensures Conserved(DropPending(s), b)
    decreases |s.pending|
  {
    if s.pending != [] {
      DropPendingConserves(DropPendingHead(s), b);
    }
  }

  lemma {:induction false} PollConserves(s: State, signalled: set<BufferId>, b: BufferId)
    requires Conserved(s, b)
    ensures Conserved(PollAll(s, signalled), b)
    decreases |s.pending|
  {
    if s.pending != [] {
      CountPush(s.pending[1..], s.pending[0], b);
      CountPush(s.wire, s.pending[0], b);
      if !Blocked(s, s.pending[0], signalled) {
        PollConserves(ReleaseHead(s), signalled, b);
      }
    }
  }

  lemma UnlinkedConserves(s: State, x: BufferId, b: BufferId)
    requires Conserved(s, b)
    ensures Conserved(Unlinked(s, x), b)
  {
    CountWithout(s.inFlight, x, b);
    CountWithout(s.pending, x, b);
  }

  lemma DropConserves(s: State, x: BufferId, b: BufferId)
    requires Conserved(s, b)
    ensures Conserved(DropRef(s, x), b)
  {
    UnlinkedConserves(s.(buffers := Unref(MarkReleased(s.buffers, x), x), holders := s.holders - multiset{x},
                         faulted := s.faulted || x !in s.buffers), x, b);
  }

  lemma CacheRemoveConserves(s: State, x: BufferId, b: BufferId)
    requires Conserved(s, b)
    ensures Conserved(CacheRemove(s, x), b)
  {
    UnlinkedConserves(s.(buffers := Unref(s.buffers, x), cached := s.cached - multiset{x},
                         faulted := s.faulted || x !in s.buffers), x, b);
  }

  lemma CommitConserves(s: State, r: CommitRequest, b: BufferId)
    requires Conserved(s, b)
    ensures Conserved(CommitOutput(s, r), b)
  {
    if r.replaced.Some? {
      CountPush(s.inFlight, r.replaced.value, b);
    }
  }

  lemma DrainConserves(s: State, step: Step, b: BufferId)
    requires step.PageFlip? || step.Poll? || step.VtBack? || step.CloseBackend? || step.CloseServer?
    requires Conserved(s, b)
    ensures Conserved(Next(s, step), b)
  {
    match step
    case PageFlip => FlipAllConserves(FinishCommit(s), b);
    case Poll(signalled) => PollConserves(s, signalled, b);
    case VtBack => DropInFlightConserves(FinishCommit(s.(master := true)), b);
    case CloseBackend => DropInFlightConserves(s, b);
    case CloseServer => DropPendingConserves(s, b);
  }

  lemma NextConserves(s: State, step: Step, b: BufferId)
    requires Conserved(s, b)
    ensures Conserved(Next(s, step), b)
  {
    match step
    case Import(x) =>
    case Hold(x) =>
    case Drop(x) => DropConserves(s, x, b);
    case CacheEvict(x) => CacheRemoveConserves(s, x, b);
    case CacheInsert(x, None) =>
    case CacheInsert(x, Some(o)) => CacheRemoveConserves(s, o, b);
    case Commit(r) => CommitConserves(s, r, b);
    case Start(_) =>
    case VtAway =>
    case SeatBack =>
    case Fail(_) =>
    case _ => DrainConserves(s, step, b);
  }

  lemma {:induction false} RunConserves(s: State, steps: seq<Step>, b: BufferId)
    requires Conserved(s, b)
    ensures Conserved(Run(s, steps), b)
    decreases |steps|
  {
    if steps != [] {
      NextConserves(s, steps[0], b);
      RunConserves(Next(s, steps[0]), steps[1..], b);
    }
  }

  /** In every run, whoever misbehaves: each retirement is in flight, pending, on the wire or dropped. */
  lemma EveryRunConserves(steps: seq<Step>, b: BufferId)
    ensures var t := Run(INITIAL, steps);
            t.retired[b] == Count(t.inFlight, b) + Count(t.pending, b) + Count(t.wire, b) + t.dropped[b]
  {
    RunConserves(INITIAL, steps, b);
  }

  // ---- retirements that are over ----

  /** Retirements of b that are over: sent or dropped. */
  function Over(s: State, b: BufferId): nat {
    Count(s.wire, b) + s.dropped[b]
  }

  lemma {:induction false} FlipOverGrows(s: State, b: BufferId)
    ensures Over(FlipAll(s), b) >= Over(s, b)
    decreases |s.inFlight|
  {
    if s.inFlight != [] {
      CountPush(s.wire, s.inFlight[0], b);
      FlipOverGrows(FlipHead(s), b);
    }
  }

  lemma {:induction false} DropInFlightOverGrows(s: State, b: BufferId)
    ensures Over(DropInFlight(s), b) >= Over(s, b)
    decreases |s.inFlight|
  {
    if s.inFlight != [] {
      DropInFlightOverGrows(DropInFlightHead(s), b);
    }
  }

  lemma {:induction false} DropPendingOverGrows(s: State, b: BufferId)
    ensures Over(DropPending(s), b) >= Over(s, b)
    decreases |s.pending|
  {
    if s.pending != [] {
      DropPendingOverGrows(DropPendingHead(s), b);
    }
  }

  lemma {:induction false} PollOverGrows(s: State, signalled: set<BufferId>, b: BufferId)
    ensures Over(PollAll(s, signalled), b) >= Over(s, b)
    decreases |s.pending|
  {
    if s.pending != [] && !Blocked(s, s.pending[0], signalled) {
      CountPush(s.wire, s.pending[0], b);
      PollOverGrows(ReleaseHead(s), signalled, b);
    }
  }

  lemma UnlinkedFrame(s: State, x: BufferId, b: BufferId)
    ensures var t := Unlinked(s, x);
            t.holders == s.holders && t.cached == s.cached && t.retired == s.retired &&
            Over(t, b) >= Over(s, b) && (x != b ==> Over(t, b) == Over(s, b)) &&
            t.buffers == s.buffers && t.attached == s.attached && t.backend == s.backend
  {
  }

  lemma DropFrame(s: State, x: BufferId, b: BufferId)
    ensures var t := DropRef(s, x);
            t.holders == s.holders - multiset{x} && t.cached == s.cached && t.retired == s.retired &&
            Over(t, b) >= Over(s, b) && (x != b ==> Over(t, b) == Over(s, b)) &&
            t.buffers == Unref(MarkReleased(s.buffers, x), x) &&
            t.attached == s.attached && t.backend == s.backend
  {
    UnlinkedFrame(s.(buffers := Unref(MarkReleased(s.buffers, x), x), holders := s.holders - multiset{x},
                     faulted := s.faulted || x !in s.buffers), x, b);
  }

  lemma CacheRemoveFrame(s: State, x: BufferId, b: BufferId)
    ensures var t := CacheRemove(s, x);
            t.holders == s.holders && t.cached == s.cached - multiset{x} && t.retired == s.retired &&
            Over(t, b) >= Over(s, b) && (x != b ==> Over(t, b) == Over(s, b)) && t.buffers == Unref(s.buffers, x) &&
            t.attached == s.attached && t.backend == s.backend
  {
    UnlinkedFrame(s.(buffers := Unref(s.buffers, x), cached := s.cached - multiset{x},
                     faulted := s.faulted || x !in s.buffers), x, b);
  }

  lemma OwnerOverGrows(s: State, step: Step, b: BufferId)
    requires IsOwnerStep(step)
    ensures Over(Next(s, step), b) >= Over(s, b)
  {
    match step
    case Drop(x) => DropFrame(s, x, b);
    case CacheEvict(x) => CacheRemoveFrame(s, x, b);
    case CacheInsert(x, Some(o)) => CacheRemoveFrame(s, o, b);
    case _ =>
  }

  lemma OverGrows(s: State, step: Step, b: BufferId)
    ensures Over(Next(s, step), b) >= Over(s, b)
  {
    match step
    case PageFlip => FlipOverGrows(FinishCommit(s), b);
    case Poll(signalled) => PollOverGrows(s, signalled, b);
    case VtBack => DropInFlightOverGrows(FinishCommit(s.(master := true)), b);
    case CloseBackend => DropInFlightOverGrows(s, b);
    case CloseServer => DropPendingOverGrows(s, b);
    case _ =>
      if IsOwnerStep(step) {
        OwnerOverGrows(s, step, b);
      }
  }

  // ---- faults ----

  lemma {:induction false} FlipFaults(s: State)
    requires s.faulted
    ensures FlipAll(s).faulted
    decreases |s.inFlight|
  {
    if s.inFlight != [] {
      FlipFaults(FlipHead(s));
    }
  }

  lemma {:induction false} DropInFlightFaults(s: State)
    requires s.faulted
    ensures DropInFlight(s).faulted
    decreases |s.inFlight|
  {
    if s.inFlight != [] {
      DropInFlightFaults(DropInFlightHead(s));
    }
  }

  lemma {:induction false} DropPendingFaults(s: State)
    requires s.faulted
    ensures DropPending(s).faulted
    decreases |s.pending|
  {
    if s.pending != [] {
      DropPendingFaults(DropPendingHead(s));
    }
  }

  lemma {:induction false} PollFaults(s: State, signalled: set<BufferId>)
    requires s.faulted
    ensures PollAll(s, signalled).faulted
    decreases |s.pending|
  {
    if s.pending != [] && !Blocked(s, s.pending[0], signalled) {
      PollFaults(ReleaseHead(s), signalled);
    }
  }

  lemma FaultStays(s: State, step: Step)
    requires s.faulted
    ensures Next(s, step).faulted
  {
    match step
    case PageFlip => FlipFaults(FinishCommit(s));
    case Poll(signalled) => PollFaults(s, signalled);
    case VtBack => DropInFlightFaults(FinishCommit(s.(master := true)));
    case CloseBackend => DropInFlightFaults(s);
    case CloseServer => DropPendingFaults(s);
    case _ =>
  }
}
