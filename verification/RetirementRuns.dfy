/**
 The retirement protocol over whole runs: the invariant of every reachable state, when exactly
 a step keeps it, what a page flip and a poll do to each entry, why an explicit-sync release is
 sent, and how long a signalled buffer can wait.
 */
module RetirementRuns {
  import opened Options
  import opened Retirement
  import opened RetirementProofs

  // ---- draining leaves the rest of the state alone ----

  /** Everything a drain never writes. */
  predicate SameBackend(s: State, t: State) {
    t.backend == s.backend && t.lastError == s.lastError && t.master == s.master &&
    t.attached == s.attached && t.open == s.open &&
    t.holders == s.holders && t.cached == s.cached && t.retired == s.retired
  }

  lemma FlipHeadFrame(s: State)
    requires s.inFlight != []
    ensures SameBackend(s, FlipHead(s)) && FlipHead(s).inFlight == s.inFlight[1..]
    ensures s.pending <= FlipHead(s).pending && s.wire <= FlipHead(s).wire
  {
  }

  lemma {:induction false} FlipAllFrame(s: State)
    ensures SameBackend(s, FlipAll(s))
    ensures s.pending <= FlipAll(s).pending && s.wire <= FlipAll(s).wire
    decreases |s.inFlight|
  {
    if s.inFlight != [] {
      FlipHeadFrame(s);
      FlipAllFrame(FlipHead(s));
    }
  }

  lemma {:induction false} DropInFlightFrame(s: State)
    ensures SameBackend(s, DropInFlight(s))
    ensures DropInFlight(s).pending == s.pending && DropInFlight(s).wire == s.wire
    decreases |s.inFlight|
  {
    if s.inFlight != [] {
      DropInFlightFrame(DropInFlightHead(s));
    }
  }

  lemma {:induction false} DropPendingFrame(s: State)
    ensures SameBackend(s, DropPending(s))
    ensures DropPending(s).inFlight == s.inFlight && DropPending(s).wire == s.wire
    decreases |s.pending|
  {
    if s.pending != [] {
      DropPendingFrame(DropPendingHead(s));
    }
  }

  // ---- what one poll does ----

  /** Length of the longest prefix of q whose fences have all signalled. */
  function ReadyPrefix(q: seq<BufferId>, signalled: set<BufferId>): (k: nat)
    ensures k <= |q|
    ensures forall i :: 0 <= i < k ==> q[i] in signalled
    ensures k < |q| ==> q[k] !in signalled
  {
    if q == [] || q[0] !in signalled then 0 else 1 + ReadyPrefix(q[1..], signalled)
  }

  lemma {:induction false} PollFrame(s: State, signalled: set<BufferId>)
    ensures var t := PollAll(s, signalled);
            SameBackend(s, t) && t.inFlight == s.inFlight && t.dropped == s.dropped
    decreases |s.pending|
  {
    if s.pending != [] && !Blocked(s, s.pending[0], signalled) {
      PollFrame(ReleaseHead(s), signalled);
    }
  }

  /** The list after k entries were released from its front and the next one was put back. */
  function AfterPoll(q: seq<BufferId>, k: nat): seq<BufferId>
    requires k <= |q|
  {
    if k == |q| then [] else q[k + 1..] + [q[k]]
  }

  lemma PrefixShift(q: seq<BufferId>, k: nat)
    requires q != [] && k < |q|
    ensures AfterPoll(q, k + 1) == AfterPoll(q[1..], k)
    ensures [q[0]] + q[1..][..k] == q[..k + 1]
  {
  }

  /** A poll releases exactly the longest signalled prefix and moves the entry that stopped it to the back. */
  lemma {:induction false} PollOutcome(s: State, signalled: set<BufferId>)
    requires Core(s)
    ensures var k := ReadyPrefix(s.pending, signalled);
            PollAll(s, signalled).wire == s.wire + s.pending[..k] &&
            PollAll(s, signalled).pending == AfterPoll(s.pending, k)
    decreases |s.pending|, 0
  {
    if s.pending != [] {
      var b := s.pending[0];
      assert BufferOk(s, b);
      if b in signalled {
        ReleaseOneKeepsCore(s);
        PollStep(s, ReleaseHead(s), signalled);
      }
    }
  }

  lemma {:induction false} PollStep(s: State, next: State, signalled: set<BufferId>)
    requires s.pending != [] && s.pending[0] in signalled && Core(next)
    requires next.pending == s.pending[1..] && next.wire == s.wire + [s.pending[0]]
    ensures var k := ReadyPrefix(s.pending, signalled);
            PollAll(next, signalled).wire == s.wire + s.pending[..k] &&
            PollAll(next, signalled).pending == AfterPoll(s.pending, k)
    decreases |next.pending|, 1
  {
    PollOutcome(next, signalled);
    PrefixShift(s.pending, ReadyPrefix(next.pending, signalled));
  }

  // ---- what one page flip does ----

  lemma LastFlip(s: State, b: BufferId)
    requires s.inFlight == [b]
    ensures FlipAll(s) == FlipHead(s)
  {
    FlipHeadFrame(s);
  }

  lemma PageFlipOutcome(s: State, b: BufferId)
    requires Inv(s) && s.inFlight == [b]
    ensures var t := Next(s, PageFlip);
            t.inFlight == [] && t.backend == (if s.backend == Committing then Ready else Error) &&
            t.pending == (if s.attached && IsExplicit(s, b) then s.pending + [b] else s.pending) &&
            t.wire == (if s.attached && !IsExplicit(s, b) then s.wire + [b] else s.wire) &&
            t.dropped == (if s.attached then s.dropped else s.dropped + multiset{b})
  {
    LastFlip(FinishCommit(s), b);
  }

  // ---- which steps keep the invariant ----

  lemma RetireKeeps(s: State, x: BufferId, fence: Fence, b: BufferId)
    requires BufferOk(s, b) && (x == b ==> b in s.buffers && Listings(s, b) == 0)
    ensures BufferOk(Retire(s, x, fence), b)
  {
    CountPush(s.inFlight, x, b);
  }

  lemma ImportKeeps(s: State, x: BufferId, b: BufferId)
    requires BufferOk(s, b) && (x == b ==> b !in s.buffers)
    ensures BufferOk(ImportBuffer(s, x), b)
  {
  }

  lemma HoldKeeps(s: State, x: BufferId, b: BufferId)
    requires BufferOk(s, b) && (x == b ==> b in s.buffers)
    ensures BufferOk(HoldRef(s, x), b)
  {
  }

  lemma CacheAddKeeps(s: State, x: BufferId, b: BufferId)
    requires BufferOk(s, b) && (x == b ==> b in s.buffers)
    ensures BufferOk(CacheAdd(s, x), b)
  {
  }

  /** Taking x off the lists when it is freed leaves the books of every other buffer alone. */
  lemma UnlinkedKeeps(s: State, x: BufferId, b: BufferId)
    requires BufferOk(s, b) && x != b
    ensures BufferOk(Unlinked(s, x), b)
  {
    CountWithout(s.inFlight, x, b);
    CountWithout(s.pending, x, b);
  }

  lemma DropKeeps(s: State, x: BufferId, b: BufferId)
    requires BufferOk(s, b) && (x == b ==> b in s.holders)
    ensures BufferOk(DropRef(s, x), b)
  {
    var t := s.(buffers := Unref(MarkReleased(s.buffers, x), x), holders := s.holders - multiset{x},
                faulted := s.faulted || x !in s.buffers);
    if x == b {
      ListedMeansCounted(s.inFlight, b);
      ListedMeansCounted(s.pending, b);
    } else {
      assert BufferOk(t, b);
      UnlinkedKeeps(t, x, b);
    }
  }

  lemma CacheRemoveKeeps(s: State, x: BufferId, b: BufferId)
    requires BufferOk(s, b) && (x == b ==> b in s.cached)
    ensures BufferOk(CacheRemove(s, x), b)
  {
    var t := s.(buffers := Unref(s.buffers, x), cached := s.cached - multiset{x},
                faulted := s.faulted || x !in s.buffers);
    if x == b {
      ListedMeansCounted(s.inFlight, b);
      ListedMeansCounted(s.pending, b);
    } else {
      assert BufferOk(t, b);
      UnlinkedKeeps(t, x, b);
    }
  }

  lemma CacheInsertKeeps(s: State, x: BufferId, o: BufferId, b: BufferId)
    requires BufferOk(s, b) && (x == b ==> b in s.holders) && (o == b ==> b in s.cached)
    ensures BufferOk(CacheAdd(CacheRemove(s, o), x), b)
  {
    CacheRemoveKeeps(s, o, b);
    CacheAddKeeps(CacheRemove(s, o), x, b);
  }

  // ---- the books of one buffer ----

  /** What the step owes b itself, whatever it does to other buffers. */
  predicate ObligedTo(s: State, step: Step, b: BufferId) {
    match step
    case Import(x) => x == b ==> b !in s.buffers
    case Hold(x) => x == b ==> b in s.buffers
    case Drop(x) => x == b ==> b in s.holders
    case CacheInsert(x, None) => x == b ==> b in s.holders
    case CacheInsert(x, Some(o)) => (x == b ==> b in s.holders) && (o == b ==> b in s.cached)
    case CacheEvict(x) => x == b ==> b in s.cached
    case Commit(r) => Retires(s, r) && r.replaced.value == b ==> b in s.buffers && Listings(s, b) == 0
    case _ => true
  }

  lemma SteadyKeeps(s: State, t: State, b: BufferId)
    requires BufferOk(s, b)
    requires t == s.(backend := t.backend, lastError := t.lastError, master := t.master,
                     attached := t.attached, open := t.open)
    ensures BufferOk(t, b)
  {
  }

  lemma CommitKeeps(s: State, r: CommitRequest, b: BufferId)
    requires BufferOk(s, b) && ObligedTo(s, Commit(r), b)
    ensures BufferOk(CommitOutput(s, r), b)
  {
    var u := s.(backend := Committing);
    SteadyKeeps(s, u, b);
    if Retires(s, r) {
      RetireKeeps(u, r.replaced.value, r.fence, b);
    }
  }

  lemma DrainKeeps(s: State, step: Step, b: BufferId)
    requires BufferOk(s, b) && (step.PageFlip? || step.Poll? || step.VtBack? || step.CloseBackend? || step.CloseServer?)
    ensures BufferOk(Next(s, step), b)
  {
    match step
    case PageFlip =>
      if s.open {
        SteadyKeeps(s, FinishCommit(s), b);
        FlipAllKeeps(FinishCommit(s), b);
      }
    case Poll(signalled) => PollAllKeeps(s, signalled, b);
    case VtBack =>
      if s.open && !s.master {
        SteadyKeeps(s, FinishCommit(s.(master := true)), b);
        DropInFlightKeeps(FinishCommit(s.(master := true)), b);
      }
    case CloseBackend =>
      if s.open {
        DropInFlightKeeps(s, b);
        SteadyKeeps(DropInFlight(s), Next(s, step), b);
      }
    case CloseServer => DropPendingKeeps(s, b);
  }

  /** Misuse of one buffer cannot touch the books of another: they depend on what is done to that buffer. */
  lemma BooksAreLocal(s: State, step: Step, b: BufferId)
    requires BufferOk(s, b) && ObligedTo(s, step, b)
    ensures BufferOk(Next(s, step), b)
  {
    match step
    case Import(x) => ImportKeeps(s, x, b);
    case Hold(x) => HoldKeeps(s, x, b);
    case Drop(x) => DropKeeps(s, x, b);
    case CacheEvict(x) => CacheRemoveKeeps(s, x, b);
    case CacheInsert(x, None) => CacheAddKeeps(s, x, b);
    case CacheInsert(x, Some(o)) => CacheInsertKeeps(s, x, o, b);
    case Commit(r) => CommitKeeps(s, r, b);
    case Start(_) => SteadyKeeps(s, Next(s, step), b);
    case VtAway => SteadyKeeps(s, Next(s, step), b);
    case SeatBack => SteadyKeeps(s, Next(s, step), b);
    case Fail(_) => SteadyKeeps(s, Next(s, step), b);
    case _ => DrainKeeps(s, step, b);
  }

  // ---- the invariant of the whole protocol ----

  lemma CommitKeepsCore(s: State, r: CommitRequest)
    requires Inv(s) && Obliged(s, Commit(r)) && RetiresUnlisted(s, Commit(r))
    ensures Core(CommitOutput(s, r))
  {
    if Retires(s, r) {
      assert BufferOk(s, r.replaced.value);
      ListedMeansCounted(s.inFlight, r.replaced.value);
      ListedMeansCounted(s.pending, r.replaced.value);
    }
    forall b: BufferId ensures BufferOk(CommitOutput(s, r), b) {
      assert BufferOk(s, b);
      CommitKeeps(s, r, b);
    }
  }

  lemma DropIsPlain(s: State, b: BufferId)
    requires BufferOk(s, b) && b in s.holders
    ensures DropRef(s, b) == s.(buffers := Unref(MarkReleased(s.buffers, b), b), holders := s.holders - multiset{b})
  {
    ListedMeansCounted(s.inFlight, b);
    ListedMeansCounted(s.pending, b);
  }

  lemma CacheRemoveIsPlain(s: State, b: BufferId)
    requires BufferOk(s, b) && b in s.cached
    ensures CacheRemove(s, b) == s.(buffers := Unref(s.buffers, b), cached := s.cached - multiset{b})
  {
    ListedMeansCounted(s.inFlight, b);
    ListedMeansCounted(s.pending, b);
  }

  predicate IsOwnerStep(step: Step) {
    step.Import? || step.Hold? || step.Drop? || step.CacheInsert? || step.CacheEvict?
  }

  /** What owners do to references they have touches no list, and nothing that is freed. */
  lemma OwnerStepIsPlain(s: State, step: Step)
    requires Core(s) && Obliged(s, step) && IsOwnerStep(step)
    ensures var t := Next(s, step);
            !t.faulted && t.inFlight == s.inFlight && t.pending == s.pending && t.wire == s.wire &&
            t.backend == s.backend && t.open == s.open && t.attached == s.attached
  {
    assert BufferOk(s, step.b);
    match step
    case Drop(x) => DropIsPlain(s, x);
    case CacheEvict(x) => CacheRemoveIsPlain(s, x);
    case CacheInsert(x, Some(o)) =>
      assert BufferOk(s, o);
      CacheRemoveIsPlain(s, o);
      CacheRemoveKeeps(s, o, x);
    case _ =>
  }

  lemma OwnerStepKeepsCore(s: State, step: Step)
    requires Core(s) && Obliged(s, step) && IsOwnerStep(step)
    ensures Core(Next(s, step))
  {
    OwnerStepIsPlain(s, step);
    forall b: BufferId ensures BufferOk(Next(s, step), b) {
      assert BufferOk(s, b);
      BooksAreLocal(s, step, b);
    }
  }

  lemma SteadyKeepsCore(s: State, t: State)
    requires Core(s)
    requires t == s.(backend := t.backend, lastError := t.lastError, master := t.master,
                     attached := t.attached, open := t.open)
    ensures Core(t)
  {
    forall b: BufferId ensures BufferOk(t, b) {
      assert BufferOk(s, b);
    }
  }

  lemma PageFlipKeepsInv(s: State)
    requires Inv(s) && s.open
    ensures Inv(Next(s, PageFlip))
  {
    var u := FinishCommit(s);
    SteadyKeepsCore(s, u);
    FlipAllKeepsCore(u);
    FlipAllFrame(u);
  }

  lemma VtBackKeepsInv(s: State)
    requires Inv(s) && s.open && !s.master
    ensures Inv(Next(s, VtBack))
  {
    var u := FinishCommit(s.(master := true));
    SteadyKeepsCore(s, u);
    DropInFlightKeepsCore(u);
    DropInFlightFrame(u);
  }

  lemma CloseBackendKeepsInv(s: State)
    requires Inv(s) && s.open
    ensures Inv(Next(s, CloseBackend))
  {
    DropInFlightKeepsCore(s);
    DropInFlightFrame(s);
    SteadyKeepsCore(DropInFlight(s), Next(s, CloseBackend));
  }

  lemma NextKeepsInv(s: State, step: Step)
    requires Inv(s) && Obliged(s, step) && RetiresUnlisted(s, step)
    ensures Inv(Next(s, step))
  {
    match step
    case Commit(r) => CommitKeepsCore(s, r);
    case PageFlip =>
      if s.open {
        PageFlipKeepsInv(s);
      }
    case Poll(signalled) =>
      PollAllKeepsCore(s, signalled);
      PollFrame(s, signalled);
    case VtBack =>
      if s.open && !s.master {
        VtBackKeepsInv(s);
      }
    case CloseBackend =>
      if s.open {
        CloseBackendKeepsInv(s);
      }
    case CloseServer =>
      DropPendingKeepsCore(s);
      DropPendingFrame(s);
    case Start(_) => SteadyKeepsCore(s, Next(s, step));
    case VtAway => SteadyKeepsCore(s, Next(s, step));
    case SeatBack => SteadyKeepsCore(s, Next(s, step));
    case Fail(_) => SteadyKeepsCore(s, Next(s, step));
    case _ =>
      OwnerStepKeepsCore(s, step);
      OwnerStepIsPlain(s, step);
  }

  /** The push into the in-flight list is safe exactly when the retired buffer's node is free. */
  lemma StepKeepsInvIff(s: State, step: Step)
    requires Inv(s) && Obliged(s, step)
    ensures Inv(Next(s, step)) <==> RetiresUnlisted(s, step)
  {
    if RetiresUnlisted(s, step) {
      NextKeepsInv(s, step);
    } else {
      var b := step.request.replaced.value;
      assert BufferOk(s, b);
      ListedMeansCounted(s.inFlight, b);
      ListedMeansCounted(s.pending, b);
    }
  }

  lemma {:induction false} RunKeepsInv(s: State, steps: seq<Step>)
    requires Inv(s) && Legal(s, steps)
    ensures Inv(Run(s, steps))
    decreases |steps|
  {
    if steps != [] {
      NextKeepsInv(s, steps[0]);
      RunKeepsInv(Next(s, steps[0]), steps[1..]);
    }
  }
}
