/** The main results about the retirement protocol, each for every legal run from start-up. */
module RetirementTheorems {
  import opened Options
  import opened Retirement
  import opened RetirementProofs
  import opened RetirementRuns

  lemma StartIsSafe()
    ensures Inv(INITIAL)
  {
  }

  /** Conservation, reference accounting, one list per node and commit exclusion in every reachable state. */
  lemma EveryReachableState(steps: seq<Step>, b: BufferId)
    requires Legal(INITIAL, steps)
    ensures var t := Run(INITIAL, steps);
            !t.faulted &&
            t.retired[b] == Count(t.inFlight, b) + Count(t.pending, b) + Count(t.wire, b) + t.dropped[b] &&
            (b in t.buffers ==>
               t.buffers[b].refcount == t.holders[b] + t.cached[b] + Count(t.inFlight, b) + Count(t.pending, b)) &&
            (b !in t.buffers ==> b !in t.holders && b !in t.cached && b !in t.inFlight && b !in t.pending) &&
            Count(t.inFlight, b) + Count(t.pending, b) <= 1 &&
            |t.inFlight| <= 1 &&
            (t.inFlight != [] ==> t.backend == Committing || t.backend == Error)
  {
    StartIsSafe();
    RunKeepsInv(INITIAL, steps);
    var t := Run(INITIAL, steps);
    assert BufferOk(t, b);
    ListedMeansCounted(t.inFlight, b);
    ListedMeansCounted(t.pending, b);
  }

  // ---- which steps touch the wire and the pending list ----

  lemma DrainIsSilent(s: State, step: Step)
    requires step.VtBack? || step.CloseBackend? || step.CloseServer?
    ensures var t := Next(s, step); t.wire == s.wire && (!step.CloseServer? ==> t.pending == s.pending)
  {
    match step
    case VtBack => DropInFlightFrame(FinishCommit(s.(master := true)));
    case CloseBackend => DropInFlightFrame(s);
    case _ => DropPendingFrame(s);
  }

  lemma CommitIsSilent(s: State, r: CommitRequest)
    ensures CommitOutput(s, r).wire == s.wire && CommitOutput(s, r).pending == s.pending
  {
  }

  lemma OwnersAreSilent(s: State, step: Step)
    requires IsOwnerStep(step)
    ensures Next(s, step).wire == s.wire
  {
    match step
    case CacheInsert(b, Some(o)) => assert CacheRemove(s, o).wire == s.wire;
    case _ =>
  }

  /** Only a poll and a page flip send anything; besides them only server teardown touches the pending list. */
  lemma OthersAreSilent(s: State, step: Step)
    requires !step.Poll? && !step.PageFlip?
    ensures Next(s, step).wire == s.wire
    ensures Core(s) && Obliged(s, step) && !step.CloseServer? ==> Next(s, step).pending == s.pending
  {
    match step
    case VtBack => DrainIsSilent(s, step);
    case CloseBackend => DrainIsSilent(s, step);
    case CloseServer => DrainIsSilent(s, step);
    case Commit(r) => CommitIsSilent(s, r);
    case _ =>
      if IsOwnerStep(step) {
        OwnersAreSilent(s, step);
        if Core(s) && Obliged(s, step) {
          OwnerStepIsPlain(s, step);
        }
      }
  }

  // ---- errors ----

  lemma ErrorStays(s: State, step: Step)
    requires s.backend == Error && Obliged(s, step)
    ensures Next(s, step).backend == Error
  {
    match step
    case PageFlip => FlipAllFrame(FinishCommit(s));
    case Poll(signalled) => PollFrame(s, signalled);
    case VtBack => DropInFlightFrame(FinishCommit(s.(master := true)));
    case CloseBackend => DropInFlightFrame(s);
    case CloseServer => DropPendingFrame(s);
    case _ =>
  }

  /** A fatal backend error is never left. */
  lemma {:induction false} ErrorIsForever(s: State, steps: seq<Step>)
    requires s.backend == Error && Legal(s, steps)
    ensures Run(s, steps).backend == Error
    decreases |steps|
  {
    if steps != [] {
      ErrorStays(s, steps[0]);
      ErrorIsForever(Next(s, steps[0]), steps[1..]);
    }
  }

  // ---- why a release is sent ----

  lemma {:induction false} CountAppend(p: seq<BufferId>, q: seq<BufferId>, b: BufferId)
    ensures Count(p + q, b) == Count(p, b) + Count(q, b)
  {
    if p == [] {
      assert p + q == q;
    } else {
      CountAppend(p[1..], q, b);
      assert (p + q)[1..] == p[1..] + q;
    }
  }

  /** An explicit-sync buffer goes on the wire only in a poll that saw its fence signalled. */
  lemma ExplicitReleaseNeedsFence(s: State, step: Step, b: BufferId)
    requires Inv(s) && IsExplicit(s, b)
    requires Count(Next(s, step).wire, b) > Count(s.wire, b)
    ensures step.Poll? && b in step.signalled && b in s.pending
  {
    match step
    case Poll(signalled) =>
      PollOutcome(s, signalled);
      var k := ReadyPrefix(s.pending, signalled);
      CountAppend(s.wire, s.pending[..k], b);
      ListedMeansCounted(s.pending[..k], b);
    case PageFlip =>
      if s.inFlight != [] {
        PageFlipOutcome(s, s.inFlight[0]);
        CountPush(s.wire, s.inFlight[0], b);
      }
    case _ => OthersAreSilent(s, step);
  }

  lemma {:induction false} RunSplits(s: State, steps: seq<Step>, i: nat)
    requires i < |steps| && Legal(s, steps)
    ensures Legal(s, steps[..i]) && Obliged(Run(s, steps[..i]), steps[i])
    ensures Run(s, steps[..i + 1]) == Next(Run(s, steps[..i]), steps[i])
    decreases |steps|
  {
    var rest := steps[1..];
    assert steps[..i + 1][1..] == rest[..i];
    if i > 0 {
      assert steps[..i][1..] == rest[..i - 1];
      RunSplits(Next(s, steps[0]), rest, i - 1);
    } else {
      assert rest[..0] == [] && steps[..0] == [];
    }
  }

  /** In every run: whenever an explicit-sync buffer is released, that step is a poll that saw its fence. */
  lemma EveryExplicitReleaseSawItsFence(steps: seq<Step>, i: nat, b: BufferId)
    requires Legal(INITIAL, steps) && i < |steps| && IsExplicit(Run(INITIAL, steps[..i]), b)
    requires Count(Run(INITIAL, steps[..i + 1]).wire, b) > Count(Run(INITIAL, steps[..i]).wire, b)
    ensures steps[i].Poll? && b in steps[i].signalled
  {
    RunSplits(INITIAL, steps, i);
    StartIsSafe();
    RunKeepsInv(INITIAL, steps[..i]);
    ExplicitReleaseNeedsFence(Run(INITIAL, steps[..i]), steps[i], b);
  }

  // ---- what a commit leaves behind ----

  /** A commit that retires b leaves it alone in flight, with one more reference, fenced if the kernel gave a fence. */
  lemma CommitOutcome(s: State, r: CommitRequest)
    requires Inv(s) && Retires(s, r) && r.replaced.value in s.buffers
    ensures var b, t := r.replaced.value, Next(s, Commit(r));
            t.inFlight == [b] && t.backend == Committing && t.retired == s.retired + multiset{b} &&
            t.buffers == s.buffers[b := Buffer(s.buffers[b].refcount + 1, s.buffers[b].released,
                                               s.buffers[b].explicitSync || r.fence != NoFence, true)]
  {
  }

  // ---- when a buffer is freed ----

  /** Dropping a reference frees b exactly when it was the only one, and then no list or cache has b. */
  lemma FreedIffLastOwner(s: State, b: BufferId)
    requires Core(s) && b in s.buffers
    ensures b !in Unref(s.buffers, b) <==>
            s.holders[b] + s.cached[b] + Count(s.inFlight, b) + Count(s.pending, b) == 1
    ensures b in s.holders && b !in DropRef(s, b).buffers ==>
              s.holders[b] == 1 && b !in s.cached && b !in s.inFlight && b !in s.pending
  {
    assert BufferOk(s, b);
    FreedIffOne(s.buffers, b);
    ListedMeansCounted(s.inFlight, b);
    ListedMeansCounted(s.pending, b);
  }

  lemma FreedIffOne(heap: Heap, b: BufferId)
    requires b in heap
    ensures b !in Unref(heap, b) <==> heap[b].refcount <= 1
    ensures b !in Unref(MarkReleased(heap, b), b) <==> heap[b].refcount <= 1
  {
  }

  // ---- the released mark ----

  predicate Marked(s: State, b: BufferId) {
    b in s.buffers ==> s.buffers[b].released
  }

  lemma {:induction false} PollKeepsMark(s: State, signalled: set<BufferId>, b: BufferId)
    requires Marked(s, b)
    ensures Marked(PollAll(s, signalled), b)
    decreases |s.pending|
  {
    if s.pending != [] && !Blocked(s, s.pending[0], signalled) {
      PollKeepsMark(ReleaseHead(s), signalled, b);
    }
  }

  lemma {:induction false} PollMarks(s: State, signalled: set<BufferId>, b: BufferId)
    requires Count(PollAll(s, signalled).wire, b) > Count(s.wire, b)
    ensures Marked(PollAll(s, signalled), b)
    decreases |s.pending|
  {
    var x := s.pending[0];
    CountPush(s.wire, x, b);
    if x == b {
      PollKeepsMark(ReleaseHead(s), signalled, b);
    } else {
      PollMarks(ReleaseHead(s), signalled, b);
    }
  }

  /** Whatever is released on the wire is marked released, as long as somebody still holds it. */
  lemma SentMeansReleased(s: State, step: Step, b: BufferId)
    requires Inv(s) && Count(Next(s, step).wire, b) > Count(s.wire, b)
    ensures Marked(Next(s, step), b)
  {
    match step
    case Poll(signalled) => PollMarks(s, signalled, b);
    case PageFlip => FlipMarks(s, b);
    case _ => OthersAreSilent(s, step);
  }

  lemma FlipMarks(s: State, b: BufferId)
    requires Inv(s) && Count(Next(s, PageFlip).wire, b) > Count(s.wire, b)
    ensures Marked(Next(s, PageFlip), b)
  {
    var x := s.inFlight[0];
    PageFlipOutcome(s, x);
    CountPush(s.wire, x, b);
    LastFlip(FinishCommit(s), x);
  }

  // ---- how long a signalled buffer waits ----

  function Polls(steps: seq<Step>): nat {
    if steps == [] then 0 else Polls(steps[1..]) + (if steps[0].Poll? then 1 else 0)
  }

  /** Every poll of the run sees b's fence signalled, and the server is not torn down. */
  predicate Signalled(steps: seq<Step>, b: BufferId) {
    forall i :: 0 <= i < |steps| ==> !steps[i].CloseServer? && (steps[i].Poll? ==> b in steps[i].signalled)
  }

  lemma WireOnlyGrows(s: State, step: Step)
    requires Inv(s)
    ensures s.wire <= Next(s, step).wire
    ensures Obliged(s, step) && !step.Poll? && !step.CloseServer? ==> s.pending <= Next(s, step).pending
  {
    match step
    case Poll(signalled) => PollOutcome(s, signalled);
    case PageFlip => FlipAllFrame(FinishCommit(s));
    case _ => OthersAreSilent(s, step);
  }

  lemma {:induction false} WireOnlyGrowsInRuns(s: State, steps: seq<Step>)
    requires Inv(s) && Legal(s, steps)
    ensures s.wire <= Run(s, steps).wire
    decreases |steps|
  {
    if steps != [] {
      NextKeepsInv(s, steps[0]);
      WireOnlyGrows(s, steps[0]);
      WireOnlyGrowsInRuns(Next(s, steps[0]), steps[1..]);
    }
  }

  lemma CountOfPrefix(p: seq<BufferId>, q: seq<BufferId>, b: BufferId)
    requires p <= q
    ensures Count(p, b) <= Count(q, b)
  {
  }

  /** One poll either releases the signalled b or brings it nearer to the front. */
  lemma PollAdvances(s: State, signalled: set<BufferId>, b: BufferId, k: nat) returns (nearer: nat)
    requires Inv(s) && k < |s.pending| && s.pending[k] == b && b in signalled
    ensures var t := PollAll(s, signalled);
            Count(t.wire, b) > Count(s.wire, b) ||
            (nearer < k && nearer < |t.pending| && t.pending[nearer] == b)
  {
    PollOutcome(s, signalled);
    var j := ReadyPrefix(s.pending, signalled);
    if k < j {
      CountAppend(s.wire, s.pending[..j], b);
      assert s.pending[..j][k] == b;
      ListedMeansCounted(s.pending[..j], b);
      nearer := 0;
    } else {
      nearer := k - j - 1;
    }
  }

  /**
   A signalled buffer at position k of the pending list is released within k + 1 polls, whatever the
   other fences do and whatever is appended behind it.
   */
  lemma {:induction false} SignalledIsReleased(s: State, steps: seq<Step>, b: BufferId, k: nat)
    requires Inv(s) && Legal(s, steps) && Signalled(steps, b)
    requires k < |s.pending| && s.pending[k] == b && Polls(steps) > k
    ensures Count(Run(s, steps).wire, b) > Count(s.wire, b)
    decreases |steps|
  {
    var step, rest := steps[0], steps[1..];
    var t := Next(s, step);
    assert Signalled(rest, b) by {
      forall i | 0 <= i < |rest|
        ensures !rest[i].CloseServer? && (rest[i].Poll? ==> b in rest[i].signalled)
      {
        assert rest[i] == steps[i + 1];
      }
    }
    NextKeepsInv(s, step);
    WireOnlyGrows(s, step);
    CountOfPrefix(s.wire, t.wire, b);
    WireOnlyGrowsInRuns(t, rest);
    CountOfPrefix(t.wire, Run(t, rest).wire, b);
    if step.Poll? {
      var nearer := PollAdvances(s, step.signalled, b, k);
      if Count(t.wire, b) == Count(s.wire, b) {
        SignalledIsReleased(t, rest, b, nearer);
      }
    } else {
      assert t.pending[k] == b;
      SignalledIsReleased(t, rest, b, k);
    }
  }
}
