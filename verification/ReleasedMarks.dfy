/**
 When a buffer's released mark is set: with a server, exactly when a retirement of it is over. For one
 step of the protocol that does not drop the buffer itself.
 */
module ReleasedMarks {
  import opened Options
  import opened Retirement
  import opened RetirementProofs
  import opened RetirementRuns
  import opened RetirementBooks
  import opened Surfaces

  predicate Released(s: State, b: BufferId) {
    b in s.buffers && s.buffers[b].released
  }

  /** From s to t the mark of b is set only if a retirement of b ended and, with a server, whenever one did. */
  predicate Follows(s: State, t: State, b: BufferId) {
    Over(t, b) >= Over(s, b) &&
    (Released(t, b) ==> Released(s, b) || Over(t, b) > Over(s, b)) &&
    (s.attached && b in t.buffers && (Released(s, b) || Over(t, b) > Over(s, b)) ==> Released(t, b))
  }

  /** The step from s to t allocates nothing and lets the mark follow. */
  predicate Tracks(s: State, t: State, b: BufferId) {
    (b in t.buffers ==> b in s.buffers) && t.attached == s.attached && Follows(s, t, b)
  }

  lemma TracksTwice(s: State, u: State, t: State, b: BufferId)
    requires Tracks(s, u, b) && Tracks(u, t, b)
    ensures Tracks(s, t, b)
  {
  }

  lemma HandOverTracks(s: State, b: BufferId)
    requires s.inFlight != []
    ensures Tracks(s, HandOver(s), b)
  {
  }

  lemma ReleaseFlippedTracks(s: State, b: BufferId)
    requires s.inFlight != []
    ensures Tracks(s, ReleaseFlipped(s), b)
  {
    CountPush(s.wire, s.inFlight[0], b);
  }

  lemma LoseFlippedTracks(s: State, b: BufferId)
    requires s.inFlight != [] && !s.attached
    ensures Tracks(s, LoseFlipped(s), b)
  {
  }

  lemma FlipHeadTracks(s: State, b: BufferId)
    requires s.inFlight != []
    ensures Tracks(s, FlipHead(s), b)
  {
    if !s.attached {
      LoseFlippedTracks(s, b);
    } else {
      HandOverTracks(s, b);
      ReleaseFlippedTracks(s, b);
    }
  }

  lemma {:induction false} FlipTracks(s: State, b: BufferId)
    ensures Tracks(s, FlipAll(s), b)
    decreases |s.inFlight|
  {
    if s.inFlight != [] {
      FlipHeadTracks(s, b);
      FlipTracks(FlipHead(s), b);
      TracksTwice(s, FlipHead(s), FlipAll(s), b);
    }
  }

  lemma DropInFlightHeadTracks(s: State, b: BufferId)
    requires s.inFlight != []
    ensures Tracks(s, DropInFlightHead(s), b)
  {
  }

  lemma {:induction false} DropInFlightTracks(s: State, b: BufferId)
    ensures Tracks(s, DropInFlight(s), b)
    decreases |s.inFlight|
  {
    if s.inFlight != [] {
      DropInFlightHeadTracks(s, b);
      DropInFlightTracks(DropInFlightHead(s), b);
      TracksTwice(s, DropInFlightHead(s), DropInFlight(s), b);
    }
  }

  lemma DropPendingHeadTracks(s: State, b: BufferId)
    requires s.pending != []
    ensures Tracks(s, DropPendingHead(s), b)
  {
  }

  lemma {:induction false} DropPendingTracks(s: State, b: BufferId)
    ensures Tracks(s, DropPending(s), b)
    decreases |s.pending|
  {
    if s.pending != [] {
      DropPendingHeadTracks(s, b);
      DropPendingTracks(DropPendingHead(s), b);
      TracksTwice(s, DropPendingHead(s), DropPending(s), b);
    }
  }

  lemma ReleaseHeadTracks(s: State, b: BufferId)
    requires s.pending != []
    ensures Tracks(s, ReleaseHead(s), b)
  {
    CountPush(s.wire, s.pending[0], b);
  }

  lemma {:induction false} PollTracks(s: State, signalled: set<BufferId>, b: BufferId)
    ensures Tracks(s, PollAll(s, signalled), b)
    decreases |s.pending|
  {
    if s.pending != [] && !Blocked(s, s.pending[0], signalled) {
      ReleaseHeadTracks(s, b);
      PollTracks(ReleaseHead(s), signalled, b);
      TracksTwice(s, ReleaseHead(s), PollAll(s, signalled), b);
    }
  }

  lemma DrainTracks(s: State, step: Step, b: BufferId)
    requires Drains(step)
    ensures Follows(s, Next(s, step), b)
  {
    match step
    case PageFlip => FlipTracks(FinishCommit(s), b);
    case Poll(signalled) => PollTracks(s, signalled, b);
    case VtBack => DropInFlightTracks(FinishCommit(s.(master := true)), b);
    case CloseBackend => DropInFlightTracks(s, b);
    case CloseServer => DropPendingTracks(s, b);
  }

  lemma RetireFollows(s: State, x: BufferId, fence: Fence, b: BufferId)
    ensures Follows(s, Retire(s, x, fence), b)
  {
  }

  lemma CommitFollows(s: State, r: CommitRequest, b: BufferId)
    ensures Follows(s, Next(s, Commit(r)), b)
  {
    if Retires(s, r) {
      RetireFollows(s.(backend := Committing), r.replaced.value, r.fence, b);
    }
  }

  lemma HeapSpares(heap: Heap, x: BufferId, b: BufferId)
    requires x != b
    ensures b in Unref(heap, x) <==> b in heap
    ensures b in heap ==> Unref(heap, x)[b] == heap[b]
    ensures b in AddRef(heap, x) <==> b in heap
    ensures b in heap ==> AddRef(heap, x)[b] == heap[b]
  {
  }

  lemma CacheRemoveFollows(s: State, x: BufferId, b: BufferId)
    requires x != b
    ensures Follows(s, CacheRemove(s, x), b)
  {
    CacheRemoveFrame(s, x, b);
    HeapSpares(s.buffers, x, b);
  }

  lemma DropFollows(s: State, x: BufferId, b: BufferId)
    requires x != b
    ensures Follows(s, DropRef(s, x), b)
  {
    DropFrame(s, x, b);
    HeapSpares(MarkReleased(s.buffers, x), x, b);
  }

  lemma CacheAddFollows(s: State, x: BufferId, b: BufferId)
    requires x != b
    ensures Follows(s, CacheAdd(s, x), b) && (b in CacheAdd(s, x).buffers <==> b in s.buffers)
  {
    HeapSpares(s.buffers, x, b);
  }

  lemma CacheInsertFollows(s: State, x: BufferId, o: BufferId, b: BufferId)
    requires x != b && o != b
    ensures Follows(s, CacheAdd(CacheRemove(s, o), x), b)
  {
    CacheRemoveFrame(s, o, b);
    HeapSpares(s.buffers, o, b);
    CacheRemoveFollows(s, o, b);
    CacheAddFollows(CacheRemove(s, o), x, b);
  }

  lemma OwnerFollows(s: State, step: Step, b: BufferId)
    requires Spares(step, b) && IsOwnerStep(step)
    ensures Follows(s, Next(s, step), b)
  {
    match step
    case Import(x) =>
    case Hold(x) => HeapSpares(s.buffers, x, b);
    case Drop(x) => DropFollows(s, x, b);
    case CacheEvict(x) => CacheRemoveFollows(s, x, b);
    case CacheInsert(x, None) => CacheAddFollows(s, x, b);
    case CacheInsert(x, Some(o)) => CacheInsertFollows(s, x, o, b);
  }

  lemma SparedFollows(s: State, step: Step, b: BufferId)
    requires Spares(step, b)
    ensures Follows(s, Next(s, step), b)
  {
    if Drains(step) {
      DrainTracks(s, step, b);
    } else if step.Commit? {
      CommitFollows(s, step.request, b);
    } else if IsOwnerStep(step) {
      OwnerFollows(s, step, b);
    }
  }

  /** Retired at least once: on a list now, or released. */
  predicate Touched(s: State, b: BufferId) {
    Released(s, b) || Listings(s, b) > 0
  }

  lemma TouchedIff(s: State, t: State, b: BufferId, again: bool)
    requires Conserved(s, b) && Conserved(t, b) && Follows(s, t, b)
    requires s.attached && b in t.buffers && t.retired[b] == s.retired[b] + if again then 1 else 0
    ensures Touched(t, b) <==> Touched(s, b) || again
  {
  }

  /** A spared buffer keeps its books, and stays untouched. */
  lemma SparedBooks(s: State, step: Step, b: BufferId)
    requires Spares(step, b) && BufferOk(s, b)
    ensures BufferOk(Next(s, step), b)
    ensures !Touched(s, b) ==> !Touched(Next(s, step), b)
  {
    BooksAreLocal(s, step, b);
    SparedFollows(s, step, b);
    SparedHoldings(s, step, b);
    if !Touched(s, b) {
      UnlistedStays(s, step, b);
    }
  }
}
