/**
 Promises that comments, headers and log lines make about retirement and that the code meets only
 sometimes. Each comes with the exact condition and a reachable state in which the promise fails.
 */
module RetirementPromises {
  import opened Options
  import opened Retirement
  import opened RetirementProofs
  import opened RetirementRuns
  import opened RetirementTheorems

  // ---- reachable states ----

  /** Some legal run from start-up ends in t. */
  ghost predicate Reachable(t: State) {
    exists steps: seq<Step> :: Legal(INITIAL, steps) && Run(INITIAL, steps) == t
  }

  lemma {:induction false} RunSnoc(s: State, steps: seq<Step>, step: Step)
    ensures Run(s, steps + [step]) == Next(Run(s, steps), step)
    ensures Legal(s, steps + [step]) <==>
            Legal(s, steps) && Obliged(Run(s, steps), step) && RetiresUnlisted(Run(s, steps), step)
    decreases |steps|
  {
    if steps != [] {
      RunSnoc(Next(s, steps[0]), steps[1..], step);
      assert (steps + [step])[1..] == steps[1..] + [step];
    }
  }

  lemma InitialIsReachable()
    ensures Reachable(INITIAL)
  {
    assert Legal(INITIAL, []) && Run(INITIAL, []) == INITIAL;
  }

  lemma Reach(s: State, step: Step)
    requires Reachable(s) && Obliged(s, step) && RetiresUnlisted(s, step)
    ensures Reachable(Next(s, step))
  {
    var steps :| Legal(INITIAL, steps) && Run(INITIAL, steps) == s;
    RunSnoc(INITIAL, steps, step);
  }

  lemma ReachableIsSafe(t: State)
    requires Reachable(t)
    ensures Inv(t)
  {
    var steps :| Legal(INITIAL, steps) && Run(INITIAL, steps) == t;
    StartIsSafe();
    RunKeepsInv(INITIAL, steps);
  }

  // ---- the unchecked push ----

  function Replacing(b: BufferId, fence: Fence): CommitRequest {
    CommitRequest(Some(b), false, true, true, fence)
  }

  const READY_7 := State(map[7 := Buffer(1, false, false, false)], [], [], Ready, Ok, true, true, true,
                         multiset{7}, multiset{}, [], multiset{}, multiset{}, false)

  const PENDING_7 := State(map[7 := Buffer(2, false, true, true)], [], [7], Ready, Ok, true, true, true,
                           multiset{7}, multiset{}, [], multiset{7}, multiset{}, false)

  lemma ReachReady7()
    ensures Reachable(READY_7)
  {
    InitialIsReachable();
    Reach(INITIAL, Start(true));
    Reach(Next(INITIAL, Start(true)), Import(7));
    assert Next(Next(INITIAL, Start(true)), Import(7)) == READY_7;
  }

  lemma FencedCommit(s: State, b: BufferId, fence: Fence)
    requires Retires(s, Replacing(b, fence)) && b in s.buffers && !IsListed(s, b) && fence != NoFence
    ensures Next(s, Commit(Replacing(b, fence))) ==
            s.(backend := Committing, inFlight := s.inFlight + [b], retired := s.retired + multiset{b},
               buffers := s.buffers[b := Buffer(s.buffers[b].refcount + 1, s.buffers[b].released, true, true)])
  {
  }

  lemma FencedFlip(s: State, b: BufferId)
    requires s.open && s.backend == Committing && s.attached && s.inFlight == [b]
    requires b in s.buffers && s.buffers[b].explicitSync && s.buffers[b].releasePending
    ensures Next(s, PageFlip) == s.(backend := Ready, inFlight := [], pending := s.pending + [b])
  {
    LastFlip(FinishCommit(s), b);
    assert SetLinked(s.buffers, b, true) == s.buffers;
  }

  /** A commit that retires b with a fence, and its flip, take b to the end of the pending list. */
  lemma CommitAndFlip(s: State, b: BufferId, fence: Fence, t: State)
    requires Retires(s, Replacing(b, fence)) && fence != NoFence && s.attached && s.inFlight == []
    requires b in s.buffers && !IsListed(s, b)
    requires t == s.(buffers := s.buffers[b := Buffer(s.buffers[b].refcount + 1, s.buffers[b].released, true, true)],
                     pending := s.pending + [b], retired := s.retired + multiset{b})
    ensures Next(Next(s, Commit(Replacing(b, fence))), PageFlip) == t
  {
    FencedCommit(s, b, fence);
    FencedFlip(Next(s, Commit(Replacing(b, fence))), b);
  }

  lemma ReachFlipped(s: State, b: BufferId, fence: Fence, t: State)
    requires Reachable(s) && Next(Next(s, Commit(Replacing(b, fence))), PageFlip) == t
    requires b in s.holders && b in s.buffers && !s.buffers[b].releasePending
    ensures Reachable(t)
  {
    Reach(s, Commit(Replacing(b, fence)));
    Reach(Next(s, Commit(Replacing(b, fence))), PageFlip);
  }

  lemma ReachPending7(fence: Fence)
    requires fence != NoFence
    ensures Reachable(PENDING_7)
    ensures Next(Next(READY_7, Commit(Replacing(7, fence))), PageFlip) == PENDING_7
  {
    ReachReady7();
    CommitAndFlip(READY_7, 7, fence, PENDING_7);
    ReachFlipped(READY_7, 7, fence, PENDING_7);
  }

  /**
   The obligation on the retired buffer is real: a surface keeps its replaced buffer across commits,
   so committing twice without attaching pushes a node that the pending list still links.
   */
  lemma RecommitBeforeFenceFaults()
    ensures Reachable(PENDING_7)
    ensures Obliged(PENDING_7, Commit(Replacing(7, Imported)))
    ensures Next(PENDING_7, Commit(Replacing(7, Imported))).faulted
  {
    ReachPending7(Imported);
  }

  // ---- a fence that could not be imported ----

  /** The flip after a retiring commit releases the buffer exactly when it has no syncobj, old or new. */
  lemma FlipReleasesIff(s: State, r: CommitRequest)
    requires Inv(s) && Retires(s, r) && Obliged(s, Commit(r)) && RetiresUnlisted(s, Commit(r))
    ensures var b, t := r.replaced.value, Next(Next(s, Commit(r)), PageFlip);
            (Count(t.wire, b) > Count(s.wire, b) <==> s.attached && !IsExplicit(s, b) && r.fence == NoFence) &&
            (s.attached && r.fence == ImportFailed ==> t.pending == s.pending + [b])
  {
    var b, u := r.replaced.value, Next(s, Commit(r));
    assert BufferOk(s, b);
    NextKeepsInv(s, Commit(r));
    CommitOutcome(s, r);
    PageFlipOutcome(u, b);
    CountPush(s.wire, b, b);
  }

  /** No poll of the run sees b's fence signalled, and the server is not torn down. */
  predicate NeverSignalled(steps: seq<Step>, b: BufferId) {
    forall i :: 0 <= i < |steps| ==> !steps[i].CloseServer? && (steps[i].Poll? ==> b !in steps[i].signalled)
  }

  lemma PollLeavesUnsignalled(s: State, signalled: set<BufferId>, b: BufferId)
    requires Inv(s) && b in s.pending && b !in signalled
    ensures b in PollAll(s, signalled).pending && Count(PollAll(s, signalled).wire, b) == Count(s.wire, b)
  {
    PollOutcome(s, signalled);
    var q, k := s.pending, ReadyPrefix(s.pending, signalled);
    CountAppend(s.wire, q[..k], b);
    ListedMeansCounted(q[..k], b);
    var m :| 0 <= m < |q| && q[m] == b;
    assert m > k ==> AfterPoll(q, k)[m - k - 1] == b;
  }

  lemma FlipLeavesPending(s: State, b: BufferId)
    requires Inv(s) && b in s.pending
    ensures b in Next(s, PageFlip).pending && Count(Next(s, PageFlip).wire, b) == Count(s.wire, b)
  {
    assert BufferOk(s, b);
    ListedMeansCounted(s.pending, b);
    ListedMeansCounted(s.inFlight, b);
    if s.inFlight != [] {
      PageFlipOutcome(s, s.inFlight[0]);
      CountPush(s.wire, s.inFlight[0], b);
    }
  }

  /** There is no second way out: without a signal a pending buffer stays pending and is never released. */
  lemma {:induction false} UnsignalledIsNeverReleased(s: State, steps: seq<Step>, b: BufferId)
    requires Inv(s) && Legal(s, steps) && NeverSignalled(steps, b) && b in s.pending
    ensures b in Run(s, steps).pending && Count(Run(s, steps).wire, b) == Count(s.wire, b)
    decreases |steps|
  {
    if steps != [] {
      var step, rest := steps[0], steps[1..];
      assert NeverSignalled(rest, b) by {
        forall i | 0 <= i < |rest|
          ensures !rest[i].CloseServer? && (rest[i].Poll? ==> b !in rest[i].signalled)
        {
          assert rest[i] == steps[i + 1];
        }
      }
      NextKeepsInv(s, step);
      if step.Poll? {
        PollLeavesUnsignalled(s, step.signalled, b);
      } else if step.PageFlip? {
        FlipLeavesPending(s, b);
      } else {
        OthersAreSilent(s, step);
      }
      UnsignalledIsNeverReleased(Next(s, step), rest, b);
    }
  }

  /** The log line's fallback does not happen: after a failed import the flip leaves 7 pending and unsent. */
  lemma FailedImportDoesNotFallBack()
    ensures Reachable(READY_7) && Reachable(PENDING_7) && PENDING_7.wire == []
    ensures Next(Next(READY_7, Commit(Replacing(7, ImportFailed))), PageFlip) == PENDING_7
  {
    ReachReady7();
    ReachPending7(ImportFailed);
  }

  // ---- page flips without a server ----

  /**
   Without a server nothing is sent and the reference is dropped; the released mark is left alone, as a
   no-op would, exactly when it was set already or the buffer has a syncobj.
   */
  lemma FlipWithoutServerMarksIff(s: State, b: BufferId)
    requires Inv(s) && s.inFlight == [b] && !s.attached && (b in s.holders || b in s.cached)
    ensures var t := Next(s, PageFlip);
            b in s.buffers && b in t.buffers && t.wire == s.wire && t.pending == s.pending &&
            t.buffers[b].refcount == s.buffers[b].refcount - 1 &&
            (t.buffers[b].released == s.buffers[b].released <==> s.buffers[b].released || s.buffers[b].explicitSync)
  {
    assert BufferOk(s, b);
    LastFlip(FinishCommit(s), b);
  }

  const ALONE_7 := READY_7.(attached := false)

  const ALONE_IN_FLIGHT_7 := ALONE_7.(buffers := map[7 := Buffer(2, false, false, true)], inFlight := [7],
                                      backend := Committing, retired := multiset{7})

  const ALONE_FLIPPED_7 := ALONE_7.(buffers := map[7 := Buffer(1, true, false, false)],
                                    retired := multiset{7}, dropped := multiset{7})

  lemma UnfencedCommit(s: State, b: BufferId)
    requires Retires(s, Replacing(b, NoFence)) && b in s.buffers && !IsListed(s, b)
    ensures Next(s, Commit(Replacing(b, NoFence))) ==
            s.(backend := Committing, inFlight := s.inFlight + [b], retired := s.retired + multiset{b},
               buffers := s.buffers[b := s.buffers[b].(refcount := s.buffers[b].refcount + 1, releasePending := true)])
  {
  }

  lemma LoneFlip(s: State, b: BufferId)
    requires s.open && s.backend == Committing && !s.attached && s.inFlight == [b]
    requires b in s.buffers && !s.buffers[b].explicitSync && s.buffers[b].refcount > 1
    ensures Next(s, PageFlip) ==
            s.(backend := Ready, inFlight := [], dropped := s.dropped + multiset{b},
               buffers := s.buffers[b := Buffer(s.buffers[b].refcount - 1, true, false, false)])
  {
    LastFlip(FinishCommit(s), b);
  }

  lemma ReachAlone7()
    ensures Reachable(ALONE_7)
  {
    InitialIsReachable();
    Reach(INITIAL, Start(false));
    Reach(Next(INITIAL, Start(false)), Import(7));
    assert Next(Next(INITIAL, Start(false)), Import(7)) == ALONE_7;
  }

  lemma ReachAloneInFlight7()
    ensures Reachable(ALONE_IN_FLIGHT_7)
  {
    ReachAlone7();
    UnfencedCommit(ALONE_7, 7);
    Reach(ALONE_7, Commit(Replacing(7, NoFence)));
  }

  /** The hook is no no-op: an implicit-sync buffer ends up marked released with nothing on the wire. */
  lemma FlipWithoutServerMarks()
    ensures Reachable(ALONE_IN_FLIGHT_7) && Next(ALONE_IN_FLIGHT_7, PageFlip) == ALONE_FLIPPED_7
    ensures !ALONE_IN_FLIGHT_7.buffers[7].released && ALONE_FLIPPED_7.buffers[7].released
    ensures ALONE_FLIPPED_7.wire == []
  {
    ReachAloneInFlight7();
    LoneFlip(ALONE_IN_FLIGHT_7, 7);
  }

  // ---- coming back from another VT ----

  /** The direct VT path ends an interrupted commit and empties the in-flight list; the libseat path does neither. */
  lemma ResumePathsDiffer(s: State)
    requires Inv(s) && s.open
    ensures var t := Next(Next(s, VtAway), VtBack);
            t.master && t.backend != Committing && t.inFlight == []
    ensures var t := Next(Next(s, VtAway), SeatBack);
            t.master && t.inFlight == s.inFlight && (t.backend == Committing <==> s.backend == Committing)
  {
    var u := FinishCommit(s.(master := true));
    SteadyKeepsCore(s, u);
    DropInFlightKeepsCore(u);
    DropInFlightFrame(u);
    assert Next(Next(s, VtAway), VtBack) == DropInFlight(u);
  }

  /** Nothing in the run ends a commit. */
  predicate NoFlip(steps: seq<Step>) {
    forall i :: 0 <= i < |steps| ==>
      !steps[i].PageFlip? && !steps[i].VtBack? && !steps[i].Fail? && !steps[i].CloseBackend?
  }

  lemma StillCommitting(s: State, step: Step)
    requires s.backend == Committing && Obliged(s, step) && NoFlip([step])
    ensures var t := Next(s, step);
            t.backend == Committing && t.open == s.open && (Core(s) ==> t.inFlight == s.inFlight)
  {
    assert [step][0] == step;
    if IsOwnerStep(step) && Core(s) {
      OwnerStepIsPlain(s, step);
    }
    match step
    case Poll(signalled) => PollFrame(s, signalled);
    case CloseServer => DropPendingFrame(s);
    case _ =>
  }

  /** If the flip was lost, seat changes do not help: every commit of the run is refused as pending. */
  lemma {:induction false} LostFlipBlocksCommits(s: State, steps: seq<Step>, r: CommitRequest)
    requires s.open && s.backend == Committing && Legal(s, steps) && NoFlip(steps)
    ensures CommitCode(Run(s, steps), r) == CommitPending
    ensures Inv(s) ==> Run(s, steps).inFlight == s.inFlight
    decreases |steps|
  {
    if steps != [] {
      var rest := steps[1..];
      assert NoFlip([steps[0]]) && NoFlip(rest) by {
        forall i | 0 <= i < |rest|
          ensures !rest[i].PageFlip? && !rest[i].VtBack? && !rest[i].Fail? && !rest[i].CloseBackend?
        {
          assert rest[i] == steps[i + 1];
        }
      }
      StillCommitting(s, steps[0]);
      if Inv(s) {
        NextKeepsInv(s, steps[0]);
      }
      LostFlipBlocksCommits(Next(s, steps[0]), rest, r);
    }
  }

  const STUCK_7 := READY_7.(buffers := map[7 := Buffer(2, false, true, true)], inFlight := [7],
                            backend := Committing, retired := multiset{7})

  lemma ReachStuck7()
    ensures Reachable(STUCK_7)
  {
    ReachReady7();
    FencedCommit(READY_7, 7, Imported);
    Reach(READY_7, Commit(Replacing(7, Imported)));
  }

  /** A switch away and back over libseat during a commit: master is back, the commit is still open. */
  lemma SeatBackLeavesCommitOpen()
    ensures Reachable(STUCK_7) && STUCK_7.backend == Committing && STUCK_7.inFlight == [7]
    ensures Next(Next(STUCK_7, VtAway), SeatBack) == STUCK_7
  {
    ReachStuck7();
  }

  // ---- one poll ----

  /**
   src/buffer/isz_buffer.h promises that one poll releases every buffer whose fence has signalled.
   The walk stops at the first entry that is not ready, so the promise holds exactly when no
   signalled entry waits behind an unsignalled one.
   */
  lemma PollReleasesAllSignalledIff(s: State, signalled: set<BufferId>)
    requires Core(s)
    ensures (forall b :: b in PollAll(s, signalled).pending ==> b !in signalled) <==>
            (forall i, j :: 0 <= i < j < |s.pending| && s.pending[j] in signalled ==> s.pending[i] in signalled)
  {
    PollOutcome(s, signalled);
    var q, k, t := s.pending, ReadyPrefix(s.pending, signalled), PollAll(s, signalled);
    if k < |q| {
      assert t.pending == q[k + 1..] + [q[k]];
      if i, j :| 0 <= i < j < |q| && q[j] in signalled && q[i] !in signalled {
        assert i >= k && q[k + 1..][j - k - 1] == q[j];
        assert t.pending[j - k - 1] == q[j];
      } else {
        forall b | b in t.pending ensures b !in signalled {
          var m :| 0 <= m < |t.pending| && t.pending[m] == b;
          assert m < |q| - k - 1 ==> t.pending[m] == q[k + 1 + m];
        }
      }
    }
  }

  /** Two explicit-sync buffers: both idle, the first pending, both pending. */
  const TWO_READY := State(map[1 := Buffer(1, false, false, false), 2 := Buffer(1, false, false, false)],
                           [], [], Ready, Ok, true, true, true,
                           multiset{1, 2}, multiset{}, [], multiset{}, multiset{}, false)

  const ONE_PENDING := TWO_READY.(buffers := TWO_READY.buffers[1 := Buffer(2, false, true, true)],
                                  pending := [1], retired := multiset{1})

  const TWO_PENDING := TWO_READY.(buffers := map[1 := Buffer(2, false, true, true), 2 := Buffer(2, false, true, true)],
                                  pending := [1, 2], retired := multiset{1, 2})

  lemma ReachTwoReady()
    ensures Reachable(TWO_READY)
  {
    InitialIsReachable();
    var s1 := Next(INITIAL, Start(true));
    Reach(INITIAL, Start(true));
    Reach(s1, Import(1));
    Reach(Next(s1, Import(1)), Import(2));
    assert Next(Next(s1, Import(1)), Import(2)) == TWO_READY;
  }

  lemma ReachTwoPending()
    ensures Reachable(TWO_PENDING)
  {
    ReachTwoReady();
    CommitAndFlip(TWO_READY, 1, Imported, ONE_PENDING);
    ReachFlipped(TWO_READY, 1, Imported, ONE_PENDING);
    CommitAndFlip(ONE_PENDING, 2, Imported, TWO_PENDING);
    ReachFlipped(ONE_PENDING, 2, Imported, TWO_PENDING);
  }

  /** The promise fails: 2 has signalled, 1 has not, and the poll leaves 2 waiting. */
  lemma PollLeavesSignalledWaiting()
    ensures Reachable(TWO_PENDING) && Inv(TWO_PENDING) && PollAll(TWO_PENDING, {2}).pending == [2, 1]
  {
    ReachTwoPending();
    ReachableIsSafe(TWO_PENDING);
  }
}
