/**
 Buffer retirement: the values and the step function of the protocol that takes a buffer
 from "replaced by a commit" to "released to its client", together with the backend state
 machine that gates it.

 A state holds the allocated buffers, the two release lists, the backend state, who owns
 references, and three histories: what was retired, what went out on the wire and what was
 dropped. Answers of the kernel (commit accepted, fence signalled) are inputs of a step.
 Touching a freed buffer, or pushing a release node that is already linked, sets `faulted`.
 */
module Retirement {
  import opened Options

  type BufferId = nat

  datatype Code = Ok | InvalidArg | CommitFailed | CommitPending | DrmMaster | FeatureUnavailable

  datatype BackendState = Uninitialized | Ready | Committing | Error

  /** `explicitSync` is out_syncobj != 0; `releasePending` says the release node is linked. */
  datatype Buffer = Buffer(refcount: nat, released: bool, explicitSync: bool, releasePending: bool)

  datatype State = State(
    buffers: map<BufferId, Buffer>,
    inFlight: seq<BufferId>,
    pending: seq<BufferId>,
    backend: BackendState,
    lastError: Code,
    master: bool,
    attached: bool,
    open: bool,
    holders: multiset<BufferId>,
    cached: multiset<BufferId>,
    wire: seq<BufferId>,
    retired: multiset<BufferId>,
    dropped: multiset<BufferId>,
    faulted: bool)

  /**
   What becomes of the out-fence of a commit. `NoFence` covers a missing fence and a syncobj that
   could not be created; in the other two cases the buffer has a syncobj, filled or not.
   */
  datatype Fence = NoFence | Imported | ImportFailed

  /** One output commit: the buffer it replaces and what the kernel will answer. */
  datatype CommitRequest = CommitRequest(
    replaced: Option<BufferId>,
    testOnly: bool,
    atomic: bool,
    accepted: bool,
    fence: Fence)

  /** `VtBack` is the direct way back from another VT, `SeatBack` the one over libseat. */
  datatype Step =
    | Start(attached: bool)
    | Import(b: BufferId)
    | Hold(b: BufferId)
    | Drop(b: BufferId)
    | CacheInsert(b: BufferId, displaced: Option<BufferId>)
    | CacheEvict(b: BufferId)
    | Commit(request: CommitRequest)
    | PageFlip
    | Poll(signalled: set<BufferId>)
    | VtAway
    | VtBack
    | SeatBack
    | Fail(code: Code)
    | CloseBackend
    | CloseServer

  const INITIAL := State(map[], [], [], Uninitialized, Ok, false, false, false,
                         multiset{}, multiset{}, [], multiset{}, multiset{}, false)

  // ---- reference counts and flags, on the allocated buffers ----

  type Heap = map<BufferId, Buffer>

  function AddRef(heap: Heap, b: BufferId): Heap {
    if b in heap then heap[b := heap[b].(refcount := heap[b].refcount + 1)] else heap
  }

  function Unref(heap: Heap, b: BufferId): Heap {
    if b !in heap then heap
    else if heap[b].refcount > 1 then heap[b := heap[b].(refcount := heap[b].refcount - 1)]
    else heap - {b}
  }

  function SetLinked(heap: Heap, b: BufferId, linked: bool): Heap {
    if b in heap then heap[b := heap[b].(releasePending := linked)] else heap
  }

  function MarkReleased(heap: Heap, b: BufferId): Heap {
    if b in heap then heap[b := heap[b].(released := true)] else heap
  }

  /** The syncobj exists as soon as there is a fence, whether or not the import works. */
  function AttachFence(heap: Heap, b: BufferId, fence: Fence): Heap {
    if b in heap && fence != NoFence then heap[b := heap[b].(explicitSync := true)] else heap
  }

  /** A list lets go of b: the node is unlinked, b is marked released and one reference is dropped. */
  function LetGo(heap: Heap, b: BufferId): Heap {
    Unref(MarkReleased(SetLinked(heap, b, false), b), b)
  }

  predicate IsExplicit(s: State, b: BufferId) {
    b in s.buffers && s.buffers[b].explicitSync
  }

  // ---- owners outside the lists ----

  function ImportBuffer(s: State, b: BufferId): State {
    s.(buffers := s.buffers[b := Buffer(1, false, false, false)], holders := s.holders + multiset{b})
  }

  function HoldRef(s: State, b: BufferId): State {
    s.(buffers := AddRef(s.buffers, b), holders := s.holders + multiset{b},
       faulted := s.faulted || b !in s.buffers)
  }

  /** q without b. */
  function Without(q: seq<BufferId>, b: BufferId): seq<BufferId> {
    if q == [] then [] else (if q[0] == b then [] else [q[0]]) + Without(q[1..], b)
  }

  /** A buffer that is freed while a list still has it is taken off the list first. */
  function Unlinked(s: State, b: BufferId): State {
    if b in s.buffers || !IsListed(s, b) then s
    else s.(inFlight := Without(s.inFlight, b), pending := Without(s.pending, b),
            dropped := s.dropped[b := s.dropped[b] + Count(s.inFlight, b) + Count(s.pending, b)])
  }

  /** Every owner outside the lists marks the buffer released and then drops its reference. */
  function DropRef(s: State, b: BufferId): State {
    Unlinked(s.(buffers := Unref(MarkReleased(s.buffers, b), b), holders := s.holders - multiset{b},
                faulted := s.faulted || b !in s.buffers), b)
  }

  function CacheAdd(s: State, b: BufferId): State {
    s.(buffers := AddRef(s.buffers, b), cached := s.cached + multiset{b},
       faulted := s.faulted || b !in s.buffers)
  }

  function CacheRemove(s: State, b: BufferId): State {
    Unlinked(s.(buffers := Unref(s.buffers, b), cached := s.cached - multiset{b},
                faulted := s.faulted || b !in s.buffers), b)
  }

  // ---- one entry of a release list ----

  /** Explicit sync: the in-flight reference becomes a pending one. */
  function HandOver(s: State): State
    requires s.inFlight != []
  {
    var b := s.inFlight[0];
    s.(inFlight := s.inFlight[1..], pending := s.pending + [b], faulted := s.faulted || b !in s.buffers,
       buffers := SetLinked(s.buffers, b, true))
  }

  /** Implicit sync: the client is told at once. */
  function ReleaseFlipped(s: State): State
    requires s.inFlight != []
  {
    var b := s.inFlight[0];
    s.(inFlight := s.inFlight[1..], wire := s.wire + [b], faulted := s.faulted || b !in s.buffers,
       buffers := LetGo(s.buffers, b))
  }

  /** No server to tell: the reference goes, and only an implicit-sync buffer is marked released. */
  function LoseFlipped(s: State): State
    requires s.inFlight != []
  {
    var b := s.inFlight[0];
    s.(inFlight := s.inFlight[1..], dropped := s.dropped + multiset{b}, faulted := s.faulted || b !in s.buffers,
       buffers := if IsExplicit(s, b) then Unref(SetLinked(s.buffers, b, false), b) else LetGo(s.buffers, b))
  }

  /** One in-flight entry at a page flip. */
  function FlipHead(s: State): State
    requires s.inFlight != []
  {
    if !s.attached then LoseFlipped(s)
    else if IsExplicit(s, s.inFlight[0]) then HandOver(s)
    else ReleaseFlipped(s)
  }

  function ReleaseHead(s: State): State
    requires s.pending != []
  {
    var b := s.pending[0];
    s.(pending := s.pending[1..], wire := s.wire + [b], faulted := s.faulted || b !in s.buffers,
       buffers := LetGo(s.buffers, b))
  }

  function DropInFlightHead(s: State): State
    requires s.inFlight != []
  {
    var b := s.inFlight[0];
    s.(inFlight := s.inFlight[1..], dropped := s.dropped + multiset{b},
       faulted := s.faulted || b !in s.buffers, buffers := LetGo(s.buffers, b))
  }

  function DropPendingHead(s: State): State
    requires s.pending != []
  {
    var b := s.pending[0];
    s.(pending := s.pending[1..], dropped := s.dropped + multiset{b},
       faulted := s.faulted || b !in s.buffers, buffers := LetGo(s.buffers, b))
  }

  // ---- draining a list ----

  function FlipAll(s: State): State
    decreases |s.inFlight|
  {
    if s.inFlight == [] then s else FlipAll(FlipHead(s))
  }

  function DropInFlight(s: State): State
    decreases |s.inFlight|
  {
    if s.inFlight == [] then s else DropInFlight(DropInFlightHead(s))
  }

  function DropPending(s: State): State
    decreases |s.pending|
  {
    if s.pending == [] then s else DropPending(DropPendingHead(s))
  }

  predicate Blocked(s: State, b: BufferId, signalled: set<BufferId>) {
    IsExplicit(s, b) && b !in signalled
  }

  /** Releases from the front; the first entry that is not ready goes to the back and stops the walk. */
  function PollAll(s: State, signalled: set<BufferId>): State
    decreases |s.pending|
  {
    if s.pending == [] then s
    else if Blocked(s, s.pending[0], signalled) then
      s.(pending := s.pending[1..] + [s.pending[0]])
    else PollAll(ReleaseHead(s), signalled)
  }

  // ---- backend ----

  function FinishCommit(s: State): State {
    if s.backend == Committing then s.(backend := Ready) else s
  }

  predicate Reaches(s: State, r: CommitRequest) {
    s.open && s.backend == Ready && s.master && r.atomic && r.accepted
  }

  /** The commit succeeds in the kernel, is not test-only and replaces a buffer. */
  predicate Retires(s: State, r: CommitRequest) {
    Reaches(s, r) && !r.testOnly && r.replaced.Some?
  }

  predicate IsListed(s: State, b: BufferId) {
    b in s.inFlight || b in s.pending
  }

  function CommitCode(s: State, r: CommitRequest): Code {
    if !s.open then InvalidArg
    else match s.backend
      case Uninitialized => InvalidArg
      case Error => if s.lastError != Ok then s.lastError else CommitFailed
      case Committing => CommitPending
      case Ready =>
        if !s.master then DrmMaster
        else if !r.atomic then FeatureUnavailable
        else if !r.accepted then CommitFailed
        else Ok
  }

  function Retire(s: State, b: BufferId, fence: Fence): State {
    s.(inFlight := s.inFlight + [b],
       retired := s.retired + multiset{b},
       buffers := SetLinked(AddRef(AttachFence(s.buffers, b, fence), b), b, true),
       faulted := s.faulted || b !in s.buffers || IsListed(s, b))
  }

  function CommitOutput(s: State, r: CommitRequest): State {
    if !Reaches(s, r) || r.testOnly then s
    else if r.replaced.None? then s.(backend := Committing)
    else Retire(s.(backend := Committing), r.replaced.value, r.fence)
  }

  // ---- the transition system ----

  function Next(s: State, step: Step): State {
    match step
    case Start(attached) => s.(backend := Ready, open := true, master := true, attached := attached)
    case Import(b) => ImportBuffer(s, b)
    case Hold(b) => HoldRef(s, b)
    case Drop(b) => DropRef(s, b)
    case CacheInsert(b, None) => CacheAdd(s, b)
    case CacheInsert(b, Some(o)) => CacheAdd(CacheRemove(s, o), b)
    case CacheEvict(b) => CacheRemove(s, b)
    case Commit(r) => CommitOutput(s, r)
    case PageFlip => if s.open then FlipAll(FinishCommit(s)) else s
    case Poll(signalled) => PollAll(s, signalled)
    case VtAway => s.(master := false)
    case VtBack => if s.open && !s.master then DropInFlight(FinishCommit(s.(master := true))) else s
    case SeatBack => if s.open then s.(master := true) else s
    case Fail(code) => if s.open then s.(backend := Error, lastError := code) else s
    case CloseBackend => if s.open then DropInFlight(s).(open := false) else s
    case CloseServer => DropPending(s)
  }

  /** What the callers around the protocol owe it: they use only references they hold. */
  predicate Obliged(s: State, step: Step) {
    match step
    case Start(_) => s.backend == Uninitialized
    case Import(b) => b !in s.buffers
    case Hold(b) => b in s.buffers
    case Drop(b) => b in s.holders
    case CacheInsert(b, None) => b in s.holders
    case CacheInsert(b, Some(o)) => b in s.holders && o in s.cached
    case CacheEvict(b) => b in s.cached
    case Commit(r) => Retires(s, r) ==> r.replaced.value in s.holders
    case _ => true
  }

  /** The condition at src/backend/isz_drm_atomic.c:631 that the code does not test. */
  predicate RetiresUnlisted(s: State, step: Step) {
    step.Commit? && Retires(s, step.request) && step.request.replaced.value in s.buffers ==>
      !s.buffers[step.request.replaced.value].releasePending
  }

  function Run(s: State, steps: seq<Step>): State
    decreases |steps|
  {
    if steps == [] then s else Run(Next(s, steps[0]), steps[1..])
  }

  predicate Legal(s: State, steps: seq<Step>)
    decreases |steps|
  {
    steps != [] ==>
      Obliged(s, steps[0]) && RetiresUnlisted(s, steps[0]) && Legal(Next(s, steps[0]), steps[1..])
  }

  // ---- invariants ----

  /** How often b occurs in a list. */
  function Count(q: seq<BufferId>, b: BufferId): nat {
    if q == [] then 0 else Count(q[1..], b) + (if q[0] == b then 1 else 0)
  }

  function Listings(s: State, b: BufferId): nat {
    Count(s.inFlight, b) + Count(s.pending, b)
  }

  /** Every reference to b that somebody owns. */
  function Owed(s: State, b: BufferId): nat {
    s.holders[b] + s.cached[b] + Listings(s, b)
  }

  /** b is allocated exactly while somebody owns a reference, and its count is the number of owners. */
  predicate Accounted(s: State, b: BufferId) {
    (b in s.buffers <==> Owed(s, b) > 0) &&
    (b in s.buffers ==> s.buffers[b].refcount == Owed(s, b))
  }

  /** The one release node of b is on at most one list, once, and its flag says whether. */
  predicate OnOneList(s: State, b: BufferId) {
    Listings(s, b) <= 1 &&
    (b in s.buffers ==> (s.buffers[b].releasePending <==> Listings(s, b) == 1)) &&
    (Count(s.pending, b) == 1 ==> IsExplicit(s, b))
  }

  /** Each retirement of b is in flight, pending, released on the wire or dropped. */
  predicate Conserved(s: State, b: BufferId) {
    s.retired[b] == Count(s.inFlight, b) + Count(s.pending, b) + Count(s.wire, b) + s.dropped[b]
  }

  predicate BufferOk(s: State, b: BufferId) {
    Accounted(s, b) && OnOneList(s, b) && Conserved(s, b)
  }

  ghost predicate Core(s: State) {
    !s.faulted && forall b: BufferId :: BufferOk(s, b)
  }

  predicate Exclusive(s: State) {
    |s.inFlight| <= 1 &&
    (s.inFlight != [] ==> s.open && (s.backend == Committing || s.backend == Error)) &&
    (s.open ==> s.backend != Uninitialized)
  }

  ghost predicate Inv(s: State) {
    Core(s) && Exclusive(s)
  }
}
