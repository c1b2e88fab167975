/**
 The retirement code itself: the fields the C structs hold and the links of the release nodes, updated
 in place, with the drain loops of the page-flip handler, the fence poll, VT resume and teardown. Each
 operation is proved equal to its step of the transition system, so the run theorems speak about it.
 */
module RetirementEngine {
  import opened Options
  import opened Retirement
  import opened RetirementProofs
  import opened RetirementRuns
  import opened ReleaseLinks

  lemma UnrefIs(heap: Heap, b: BufferId, after: Heap)
    requires b in heap && after - {b} == heap - {b} && (b in after <==> heap[b].refcount > 1)
    requires b in after ==> after[b] == heap[b].(refcount := heap[b].refcount - 1)
    ensures after == Unref(heap, b)
  {
    forall x | x in after ensures x in Unref(heap, b) && after[x] == Unref(heap, b)[x] {
      assert x != b ==> x in after - {b} && (heap - {b})[x] == (after - {b})[x];
    }
    forall x | x in Unref(heap, b) ensures x in after {
      assert x != b ==> x in heap - {b};
    }
  }

  /** A reference more for the new list and one less for the old leave the count as it was. */
  lemma MovedIs(heap: Heap, b: BufferId)
    requires b in heap && heap[b].refcount > 0
    ensures Unref(SetLinked(AddRef(SetLinked(heap, b, false), b), b, true), b) == SetLinked(heap, b, true)
  {
  }

  lemma RelinkIs(heap: Heap, b: BufferId)
    requires b in heap && heap[b].releasePending
    ensures SetLinked(SetLinked(heap, b, false), b, true) == heap
  {
  }

  /** How many retirements of b a drop of one reference loses: those of the lists, if it is the last reference. */
  ghost function Lost(s: State, b: BufferId): nat {
    if b in Unref(MarkReleased(s.buffers, b), b) then 0 else Count(s.inFlight, b) + Count(s.pending, b)
  }

  lemma UnlinkedIs(s: State, b: BufferId)
    requires b !in s.buffers
    ensures Unlinked(s, b) ==
            s.(inFlight := Without(s.inFlight, b), pending := Without(s.pending, b),
               dropped := s.dropped[b := s.dropped[b] + (Count(s.inFlight, b) + Count(s.pending, b))])
  {
    if !IsListed(s, b) {
      ListedMeansCounted(s.inFlight, b);
      ListedMeansCounted(s.pending, b);
      WithoutAbsent(s.inFlight, b);
      WithoutAbsent(s.pending, b);
      assert s.dropped[b := s.dropped[b]] == s.dropped;
    }
  }

  /** The mark and the reference, without the histories. */
  function AfterUnref(s: State, b: BufferId): State {
    var heap := Unref(MarkReleased(s.buffers, b), b);
    if b in heap then s.(buffers := heap)
    else s.(buffers := heap, inFlight := Without(s.inFlight, b), pending := Without(s.pending, b))
  }

  /** The histories: one owner less, and the retirements that go with the buffer. */
  ghost function Gone(s: State, b: BufferId, lost: nat): State {
    s.(holders := s.holders - multiset{b}, dropped := s.dropped[b := s.dropped[b] + lost])
  }

  lemma DropRefIs(s: State, b: BufferId)
    requires b in s.buffers
    ensures DropRef(s, b) == Gone(AfterUnref(s, b), b, Lost(s, b))
  {
    assert s.dropped[b := s.dropped[b]] == s.dropped;
    var t := s.(buffers := Unref(MarkReleased(s.buffers, b), b), holders := s.holders - multiset{b});
    assert DropRef(s, b) == Unlinked(t, b);
    if b !in t.buffers {
      UnlinkedIs(t, b);
    }
  }

  /** The commits VT resume issues, one for each enabled output. */
  function Recommits(outputs: seq<CommitRequest>): seq<Step> {
    seq(|outputs|, i requires 0 <= i < |outputs| => Commit(outputs[i]))
  }

  /** The next commit of these outputs pushes an allocated buffer onto intact lists. */
  ghost predicate CanCommit(s: State, outputs: seq<CommitRequest>) {
    (s.backend == Ready ==> !s.faulted) &&
    forall i :: 0 <= i < |outputs| && outputs[i].replaced.Some? ==> outputs[i].replaced.value in s.buffers
  }

  lemma CommitKeepsBuffers(s: State, r: CommitRequest)
    requires r.replaced.Some? ==> r.replaced.value in s.buffers
    ensures var t := CommitOutput(s, r);
            t.buffers.Keys == s.buffers.Keys && (t.backend == Ready ==> s.backend == Ready && t.faulted == s.faulted)
  {
  }

  lemma RecommitOne(s: State, outputs: seq<CommitRequest>, i: nat)
    requires i < |outputs| && CanCommit(s, outputs)
    ensures var t := CommitOutput(s, outputs[i]);
            CanCommit(t, outputs) && Run(s, Recommits(outputs[i..])) == Run(t, Recommits(outputs[i + 1..]))
    ensures Retires(s, outputs[i]) ==> !s.faulted && outputs[i].replaced.value in s.buffers
  {
    CommitKeepsBuffers(s, outputs[i]);
    RecommitRuns(s, outputs, i);
  }

  lemma RecommitRuns(s: State, outputs: seq<CommitRequest>, i: nat)
    requires i < |outputs|
    ensures Run(s, Recommits(outputs[i..])) == Run(CommitOutput(s, outputs[i]), Recommits(outputs[i + 1..]))
  {
    var commits := Recommits(outputs[i..]);
    assert commits[0] == Commit(outputs[i]) && commits[1..] == Recommits(outputs[i + 1..]);
  }

  /** Whoever holds a reference keeps it over the drain, so every held buffer can be committed again. */
  lemma CanRecommit(s: State, outputs: seq<CommitRequest>)
    requires Core(s) && s.open && !s.master
    requires forall i :: 0 <= i < |outputs| && outputs[i].replaced.Some? ==> outputs[i].replaced.value in s.holders
    ensures var u := FinishCommit(s.(master := true));
            Core(u) && Next(s, VtBack) == DropInFlight(u) && CanCommit(DropInFlight(u), outputs)
  {
    var u := FinishCommit(s.(master := true));
    SteadyKeepsCore(s, u);
    DropInFlightKeepsCore(u);
    DropInFlightFrame(u);
    forall i | 0 <= i < |outputs| && outputs[i].replaced.Some?
      ensures outputs[i].replaced.value in DropInFlight(u).buffers
    {
      assert BufferOk(DropInFlight(u), outputs[i].replaced.value);
    }
  }

  /** What the concrete commit answers and leaves behind, without the state machine around it. */
  function DrmCode(s: State, r: CommitRequest): Code {
    if !s.master then DrmMaster else if !r.atomic then FeatureUnavailable
    else if !r.accepted then CommitFailed else Ok
  }

  function DrmOutcome(s: State, r: CommitRequest): State {
    if DrmCode(s, r) != Ok then s
    else if r.testOnly then FinishCommit(s)
    else if r.replaced.Some? then Retire(s, r.replaced.value, r.fence)
    else s
  }

  /** From READY the state machine's step is the concrete commit in COMMITTING, or nothing if that fails. */
  lemma ReadyCommit(s: State, r: CommitRequest)
    requires s.open && s.backend == Ready
    ensures var u := s.(backend := Committing);
            CommitCode(s, r) == DrmCode(u, r) &&
            CommitOutput(s, r) == if DrmCode(u, r) != Ok then s else DrmOutcome(u, r)
  {
  }

  /** A commit changes something only from READY, if it succeeds and is no test; then it leaves COMMITTING. */
  lemma CommitMeans(s: State, r: CommitRequest)
    ensures CommitCode(s, r) != Ok || r.testOnly ==> CommitOutput(s, r) == s
    ensures CommitCode(s, r) == Ok && !r.testOnly ==>
              s.open && s.backend == Ready && CommitOutput(s, r).backend == Committing
    ensures !s.open || s.backend != Ready ==> CommitCode(s, r) != Ok
  {
  }

  class Engine {
    const links: Links
    var buffers: Heap
    var backend: BackendState
    var lastError: Code
    var master: bool
    var attached: bool
    var open: bool
    var wire: seq<BufferId>
    ghost var holders: multiset<BufferId>
    ghost var cached: multiset<BufferId>
    ghost var retired: multiset<BufferId>
    ghost var dropped: multiset<BufferId>

    /** Every allocated buffer has its release node, and the links are two rings unless a push broke them. */
    ghost predicate Valid()
      reads this`buffers, links, links.flightHead, links.pendingHead, links.all
    {
      links.Valid() && links.nodes.Keys == buffers.Keys
    }

    ghost function View(): State
      reads this, links
    {
      State(buffers, links.inFlight, links.pending, backend, lastError, master, attached, open,
            holders, cached, wire, retired, dropped, links.broken)
    }

    /** b's node is on no list. */
    ghost predicate Loose(b: BufferId)
      reads links
    {
      b in links.nodes && b !in links.inFlight && b !in links.pending
    }

    constructor ()
      ensures Valid() && View() == INITIAL && links.all == {}
      ensures fresh(links) && fresh(links.flightHead) && fresh(links.pendingHead)
    {
      links := new Links();
      buffers, wire := map[], [];
      backend, lastError, master, attached, open := Uninitialized, Ok, false, false, false;
      holders, cached, retired, dropped := multiset{}, multiset{}, multiset{}, multiset{};
    }

    method RefBuffer(b: BufferId)
      requires b in buffers
      modifies this`buffers
      ensures buffers == AddRef(old(buffers), b)
    {
      buffers := buffers[b := buffers[b].(refcount := buffers[b].refcount + 1)];
    }

    /**
     b is gone afterwards if and only if this was its last reference, and then it is off the list that it
     was on; otherwise its count falls by one. No other buffer changes.
     */
    method UnrefBuffer(b: BufferId)
      requires Valid() && !links.broken && b in buffers
      modifies this`buffers, links, links.flightHead, links.pendingHead, links.all
      ensures Valid() && !links.broken && links.all <= old(links.all)
      ensures b in buffers <==> old(buffers[b].refcount) > 1
      ensures b in buffers ==> buffers[b] == old(buffers[b]).(refcount := old(buffers[b].refcount) - 1)
      ensures buffers - {b} == old(buffers) - {b}
      ensures b in buffers ==> links.inFlight == old(links.inFlight) && links.pending == old(links.pending)
      ensures b !in buffers ==>
                links.inFlight == Without(old(links.inFlight), b) && links.pending == Without(old(links.pending), b)
    {
      if buffers[b].refcount > 1 {
        buffers := buffers[b := buffers[b].(refcount := buffers[b].refcount - 1)];
        return;
      }
      FreeBuffer(b);
    }

    /** The node leaves the list it is on, then the buffer goes. */
    method FreeBuffer(b: BufferId)
      requires Valid() && !links.broken && b in buffers
      modifies this`buffers, links, links.flightHead, links.pendingHead, links.all
      ensures Valid() && !links.broken && links.all <= old(links.all) && buffers == old(buffers) - {b}
      ensures links.inFlight == Without(old(links.inFlight), b) && links.pending == Without(old(links.pending), b)
    {
      links.Free(b);
      buffers := buffers - {b};
    }

    method DropReference(b: BufferId)
      requires Valid() && !links.broken && b in buffers && (buffers[b].refcount > 1 || Loose(b))
      modifies this`buffers, links, links.flightHead, links.pendingHead, links.all
      ensures Valid() && !links.broken && links.all <= old(links.all)
      ensures buffers == Unref(old(buffers), b)
      ensures links.inFlight == old(links.inFlight) && links.pending == old(links.pending)
    {
      if buffers[b].refcount <= 1 {
        WithoutAbsent(links.inFlight, b);
        WithoutAbsent(links.pending, b);
      }
      UnrefBuffer(b);
      UnrefIs(old(buffers), b, buffers);
    }

    method SetReleasePending(b: BufferId, flag: bool)
      requires b in buffers
      modifies this`buffers
      ensures buffers == SetLinked(old(buffers), b, flag)
    {
      buffers := buffers[b := buffers[b].(releasePending := flag)];
    }

    method ReleaseBuffer(b: BufferId)
      requires b in buffers
      modifies this`buffers
      ensures buffers == MarkReleased(old(buffers), b)
    {
      buffers := buffers[b := buffers[b].(released := true)];
    }

    /** A commit in progress ends; READY, ERROR and an uninitialised backend stay as they are. */
    method FinishCommitting()
      requires Valid()
      modifies this`backend
      ensures Valid()
      ensures old(backend) == Committing ==> backend == Ready
      ensures old(backend) != Committing ==> backend == old(backend)
      ensures View() == old(View()).(backend := backend)
    {
      if backend == Committing {
        backend := Ready;
      }
    }

    /** What every drain does with a popped buffer: clear the flag, mark it released, drop the reference. */
    method LetGoOf(b: BufferId)
      requires Valid() && !links.broken && Loose(b)
      modifies this`buffers, links, links.flightHead, links.pendingHead, links.all
      ensures Valid() && !links.broken && links.all <= old(links.all)
      ensures buffers == LetGo(old(buffers), b)
      ensures links.inFlight == old(links.inFlight) && links.pending == old(links.pending)
    {
      SetReleasePending(b, false);
      ReleaseBuffer(b);
      DropReference(b);
    }

    /** push_back onto the pending list, and the flag. */
    method LinkPending(b: BufferId)
      requires Valid() && !links.broken && Loose(b)
      modifies this`buffers, links, links.flightHead, links.pendingHead, links.all
      ensures Valid() && !links.broken && links.all <= old(links.all)
      ensures buffers == SetLinked(old(buffers), b, true)
      ensures links.inFlight == old(links.inFlight) && links.pending == old(links.pending) + [b]
    {
      links.PushPending(b);
      SetReleasePending(b, true);
    }

    /** The hand-over of an explicit-sync buffer: a reference for the new list, one less for the old. */
    method MoveToPending(b: BufferId)
      requires Valid() && !links.broken && Loose(b) && buffers[b].refcount > 0
      modifies this`buffers, links, links.flightHead, links.pendingHead, links.all
      ensures Valid() && !links.broken && links.all <= old(links.all)
      ensures buffers == SetLinked(old(buffers), b, true)
      ensures links.inFlight == old(links.inFlight) && links.pending == old(links.pending) + [b]
    {
      SetReleasePending(b, false);
      RefBuffer(b);
      LinkPending(b);
      DropReference(b);
      MovedIs(old(buffers), b);
    }

    /** Tell the client, then let go. */
    method SendRelease(b: BufferId)
      requires Valid() && !links.broken && Loose(b)
      modifies this`buffers, this`wire, links, links.flightHead, links.pendingHead, links.all
      ensures Valid() && !links.broken && links.all <= old(links.all)
      ensures buffers == LetGo(old(buffers), b) && wire == old(wire) + [b]
      ensures links.inFlight == old(links.inFlight) && links.pending == old(links.pending)
    {
      wire := wire + [b];
      LetGoOf(b);
    }

    /** Without a server: the reference goes, and the page-flip hook marks an implicit-sync buffer only. */
    method LoseRelease(b: BufferId)
      requires Valid() && !links.broken && Loose(b)
      modifies this`buffers, this`dropped, links, links.flightHead, links.pendingHead, links.all
      ensures Valid() && !links.broken && links.all <= old(links.all)
      ensures dropped == old(dropped) + multiset{b}
      ensures old(buffers[b].explicitSync) ==> buffers == Unref(SetLinked(old(buffers), b, false), b)
      ensures !old(buffers[b].explicitSync) ==> buffers == LetGo(old(buffers), b)
      ensures links.inFlight == old(links.inFlight) && links.pending == old(links.pending)
    {
      dropped := dropped + multiset{b};
      if !buffers[b].explicitSync {
        LetGoOf(b);
        return;
      }
      SetReleasePending(b, false);
      DropReference(b);
    }

    /** What the page-flip handler does with a popped buffer. */
    method FlipPopped(b: BufferId, ghost s: State)
      requires Valid() && !links.broken && Loose(b) && buffers[b].refcount > 0
      requires s.inFlight != [] && s.inFlight[0] == b && View() == s.(inFlight := s.inFlight[1..])
      modifies this`buffers, this`wire, this`dropped, links, links.flightHead, links.pendingHead, links.all
      ensures Valid() && !links.broken && links.all <= old(links.all)
      ensures View() == FlipHead(s)
    {
      if attached && buffers[b].explicitSync {
        MoveToPending(b);
        assert View() == HandOver(s);
      } else if attached {
        SendRelease(b);
        assert View() == ReleaseFlipped(s);
      } else {
        LoseRelease(b);
        assert View() == LoseFlipped(s);
      }
    }

    /** One pass of the page-flip handler's loop; `more` is false when the list was empty. */
    method FlipOne() returns (more: bool)
      requires Valid() && !links.broken
      requires links.inFlight != [] ==> links.inFlight[0] in buffers && buffers[links.inFlight[0]].refcount > 0
      modifies this`buffers, this`wire, this`dropped, links, links.flightHead, links.pendingHead, links.all
      ensures Valid() && !links.broken && links.all <= old(links.all)
      ensures more == (old(links.inFlight) != [])
      ensures View() == if more then FlipHead(old(View())) else old(View())
    {
      var popped := links.PopFlight();
      if popped.None? {
        return false;
      }
      FlipPopped(popped.value, old(View()));
      return true;
    }

    /** The loop of the page-flip handler. */
    method FlipReleases()
      requires Valid() && Core(View())
      modifies this`buffers, this`wire, this`dropped, links, links.flightHead, links.pendingHead, links.all
      ensures Valid() && View() == FlipAll(old(View()))
    {
      ghost var start := View();
      while true
        invariant Valid() && links.all <= old(links.all)
        invariant Core(View()) && FlipAll(View()) == FlipAll(start)
        decreases |links.inFlight|
      {
        if links.inFlight != [] {
          assert BufferOk(View(), links.inFlight[0]);
          FlipHeadKeepsCore(View());
        }
        var more := FlipOne();
        if !more {
          return;
        }
      }
    }

    method PageFlipHandler()
      requires Valid() && Core(View()) && open
      modifies this, links, links.flightHead, links.pendingHead, links.all
      ensures Valid() && View() == Next(old(View()), PageFlip)
    {
      SteadyKeepsCore(View(), FinishCommit(View()));
      FinishCommitting();
      FlipReleases();
    }

    /** Back to the end of the pending list, with nothing else changed. */
    method Requeue(b: BufferId)
      requires Valid() && !links.broken && Loose(b) && buffers[b].releasePending
      modifies this`buffers, links, links.flightHead, links.pendingHead, links.all
      ensures Valid() && !links.broken && links.all <= old(links.all)
      ensures buffers == old(buffers)
      ensures links.inFlight == old(links.inFlight) && links.pending == old(links.pending) + [b]
    {
      SetReleasePending(b, false);
      LinkPending(b);
      RelinkIs(old(buffers), b);
    }

    /** What the fence poll does with a popped buffer; `stop` means that it went to the back. */
    method PollPopped(b: BufferId, signalled: set<BufferId>, ghost s: State) returns (stop: bool)
      requires Valid() && !links.broken && Loose(b) && buffers[b].releasePending
      requires s.pending != [] && s.pending[0] == b && View() == s.(pending := s.pending[1..])
      modifies this`buffers, this`wire, links, links.flightHead, links.pendingHead, links.all
      ensures Valid() && !links.broken && links.all <= old(links.all)
      ensures stop == Blocked(s, b, signalled)
      ensures View() == if stop then s.(pending := s.pending[1..] + [b]) else ReleaseHead(s)
    {
      if buffers[b].explicitSync && b !in signalled {
        Requeue(b);
        assert View() == s.(pending := s.pending[1..] + [b]);
        return true;
      }
      SendRelease(b);
      assert View() == ReleaseHead(s);
      return false;
    }

    /** One pass of the fence poll's loop; `stop` is true when the loop ends. */
    method PollOne(signalled: set<BufferId>) returns (stop: bool)
      requires Valid() && !links.broken
      requires links.pending != [] ==> links.pending[0] in buffers && buffers[links.pending[0]].releasePending
      modifies this`buffers, this`wire, links, links.flightHead, links.pendingHead, links.all
      ensures Valid() && !links.broken && links.all <= old(links.all)
      ensures stop ==> View() == PollAll(old(View()), signalled)
      ensures !stop ==> old(links.pending) != [] && !Blocked(old(View()), old(links.pending)[0], signalled) &&
                        View() == ReleaseHead(old(View()))
    {
      var popped := links.PopPending();
      if popped.None? {
        return true;
      }
      stop := PollPopped(popped.value, signalled, old(View()));
    }

    method PollOutFences(signalled: set<BufferId>)
      requires Valid() && Core(View())
      modifies this`buffers, this`wire, links, links.flightHead, links.pendingHead, links.all
      ensures Valid() && View() == PollAll(old(View()), signalled)
    {
      ghost var start := View();
      while true
        invariant Valid() && links.all <= old(links.all)
        invariant Core(View()) && PollAll(View(), signalled) == PollAll(start, signalled)
        decreases |links.pending|
      {
        if links.pending != [] {
          assert BufferOk(View(), links.pending[0]);
          ReleaseOneKeepsCore(View());
        }
        var stop := PollOne(signalled);
        if stop {
          return;
        }
      }
    }

    /** Let go without telling the client. */
    method DropPopped(b: BufferId)
      requires Valid() && !links.broken && Loose(b)
      modifies this`buffers, this`dropped, links, links.flightHead, links.pendingHead, links.all
      ensures Valid() && !links.broken && links.all <= old(links.all)
      ensures buffers == LetGo(old(buffers), b) && dropped == old(dropped) + multiset{b}
      ensures links.inFlight == old(links.inFlight) && links.pending == old(links.pending)
    {
      dropped := dropped + multiset{b};
      LetGoOf(b);
    }

    method DropInFlightOne() returns (more: bool)
      requires Valid() && !links.broken
      modifies this`buffers, this`dropped, links, links.flightHead, links.pendingHead, links.all
      ensures Valid() && !links.broken && links.all <= old(links.all)
      ensures more == (old(links.inFlight) != [])
      ensures View() == if more then DropInFlightHead(old(View())) else old(View())
    {
      var popped := links.PopFlight();
      if popped.None? {
        return false;
      }
      DropPopped(popped.value);
      assert View() == DropInFlightHead(old(View()));
      return true;
    }

    method DropInFlightReleases()
      requires Valid() && Core(View())
      modifies this`buffers, this`dropped, links, links.flightHead, links.pendingHead, links.all
      ensures Valid() && View() == DropInFlight(old(View())) && links.all <= old(links.all)
    {
      ghost var start := View();
      while true
        invariant Valid() && links.all <= old(links.all)
        invariant Core(View()) && DropInFlight(View()) == DropInFlight(start)
        decreases |links.inFlight|
      {
        if links.inFlight != [] {
          DropInFlightOneKeepsCore(View());
        }
        var more := DropInFlightOne();
        if !more {
          return;
        }
      }
    }

    method DropPendingOne() returns (more: bool)
      requires Valid() && !links.broken
      modifies this`buffers, this`dropped, links, links.flightHead, links.pendingHead, links.all
      ensures Valid() && !links.broken && links.all <= old(links.all)
      ensures more == (old(links.pending) != [])
      ensures View() == if more then DropPendingHead(old(View())) else old(View())
    {
      var popped := links.PopPending();
      if popped.None? {
        return false;
      }
      DropPopped(popped.value);
      assert View() == DropPendingHead(old(View()));
      return true;
    }

    method ReleaseDestroy()
      requires Valid() && Core(View())
      modifies this`buffers, this`dropped, links, links.flightHead, links.pendingHead, links.all
      ensures Valid() && View() == DropPending(old(View()))
    {
      ghost var start := View();
      while true
        invariant Valid() && links.all <= old(links.all)
        invariant Core(View()) && DropPending(View()) == DropPending(start)
        decreases |links.pending|
      {
        if links.pending != [] {
          DropPendingOneKeepsCore(View());
        }
        var more := DropPendingOne();
        if !more {
          return;
        }
      }
    }

    method Close()
      requires Valid()
      modifies this`open
      ensures Valid() && View() == old(View()).(open := false)
    {
      open := false;
    }

    method DestroyBackend()
      requires Valid() && Core(View()) && open
      modifies this, links, links.flightHead, links.pendingHead, links.all
      ensures Valid() && View() == Next(old(View()), CloseBackend)
    {
      DropInFlightReleases();
      Close();
    }

    // ---- owners outside the lists ----

    /** isz_buffer_import: a new buffer with one reference, no fence and a self-linked node. */
    method ImportNew(b: BufferId)
      requires Valid() && !links.broken && b !in buffers
      modifies this`buffers, this`holders, links
      ensures Valid() && fresh(links.all - old(links.all)) && View() == ImportBuffer(old(View()), b)
    {
      AddBuffer(b);
      NoteImported(b);
    }

    method AddBuffer(b: BufferId)
      requires Valid() && !links.broken && b !in buffers
      modifies this`buffers, links
      ensures Valid() && fresh(links.all - old(links.all))
      ensures View() == old(View()).(buffers := old(buffers)[b := Buffer(1, false, false, false)])
    {
      links.Allocate(b);
      buffers := buffers[b := Buffer(1, false, false, false)];
    }

    method NoteImported(b: BufferId)
      requires Valid()
      modifies this`holders
      ensures Valid() && View() == old(View()).(holders := old(holders) + multiset{b})
    {
      holders := holders + multiset{b};
    }

    method ReleaseAndUnref(b: BufferId)
      requires Valid() && !links.broken && b in buffers
      modifies this`buffers, links, links.flightHead, links.pendingHead, links.all
      ensures Valid() && !links.broken && links.all <= old(links.all)
      ensures buffers == Unref(MarkReleased(old(buffers), b), b)
      ensures b in buffers ==> links.inFlight == old(links.inFlight) && links.pending == old(links.pending)
      ensures b !in buffers ==>
                links.inFlight == Without(old(links.inFlight), b) && links.pending == Without(old(links.pending), b)
    {
      ReleaseBuffer(b);
      ghost var heap := buffers;
      UnrefBuffer(b);
      UnrefIs(heap, b, buffers);
    }

    method UnrefNamed(b: BufferId)
      requires Valid() && !links.broken && b in buffers
      modifies this`buffers, links, links.flightHead, links.pendingHead, links.all
      ensures Valid() && !links.broken && links.all <= old(links.all) && View() == AfterUnref(old(View()), b)
    {
      ReleaseAndUnref(b);
    }

    method NoteDropped(b: BufferId)
      requires Valid()
      modifies this`holders
      ensures Valid() && View() == old(View()).(holders := old(holders) - multiset{b})
    {
      holders := holders - multiset{b};
    }

    method NoteLost(b: BufferId, ghost lost: nat)
      requires Valid()
      modifies this`dropped
      ensures Valid() && View() == old(View()).(dropped := old(dropped)[b := old(dropped)[b] + lost])
    {
      dropped := dropped[b := dropped[b] + lost];
    }

    method NoteGone(b: BufferId, ghost lost: nat)
      requires Valid()
      modifies this`holders, this`dropped
      ensures Valid() && View() == Gone(old(View()), b, lost)
    {
      NoteDropped(b);
      NoteLost(b, lost);
    }

    /**
     isz_buffer_release, then isz_buffer_unref, by whoever names the buffer. If the last reference was a
     list's, the list loses the buffer.
     */
    method ReleaseAndDrop(b: BufferId)
      requires Valid() && !links.broken && b in buffers
      modifies this`buffers, this`holders, this`dropped, links, links.flightHead, links.pendingHead, links.all
      ensures Valid() && !links.broken && links.all <= old(links.all) && View() == DropRef(old(View()), b)
    {
      DropRefIs(View(), b);
      DropNamed(b, Lost(View(), b));
    }

    method DropNamed(b: BufferId, ghost lost: nat)
      requires Valid() && !links.broken && b in buffers
      modifies this`buffers, this`holders, this`dropped, links, links.flightHead, links.pendingHead, links.all
      ensures Valid() && !links.broken && links.all <= old(links.all)
      ensures View() == Gone(AfterUnref(old(View()), b), b, lost)
    {
      UnrefNamed(b);
      NoteGone(b, lost);
    }

    // ---- commits ----

    /** The fence, and a reference for the in-flight list. */
    method TakeForFlight(b: BufferId, fence: Fence)
      requires Valid() && b in buffers
      modifies this`buffers
      ensures Valid() && b in buffers
      ensures View() == old(View()).(buffers := AddRef(AttachFence(old(buffers), b, fence), b))
    {
      if fence != NoFence {
        buffers := buffers[b := buffers[b].(explicitSync := true)];
      }
      RefBuffer(b);
    }

    /** The push that nothing guards, and the flag. */
    method LinkInFlight(b: BufferId)
      requires Valid() && !links.broken && b in buffers
      modifies this`buffers, links, links.flightHead, links.pendingHead, links.all
      ensures Valid() && links.all == old(links.all)
      ensures buffers == SetLinked(old(buffers), b, true)
      ensures links.inFlight == old(links.inFlight) + [b] && links.pending == old(links.pending)
      ensures links.broken == (b in old(links.inFlight) || b in links.pending)
    {
      links.PushFlight(b);
      SetReleasePending(b, true);
    }

    method Append(b: BufferId)
      requires Valid() && !links.broken && b in buffers
      modifies this`buffers, links, links.flightHead, links.pendingHead, links.all
      ensures Valid() && links.all == old(links.all)
      ensures View() == old(View()).(buffers := SetLinked(old(buffers), b, true),
                                     inFlight := old(links.inFlight) + [b], faulted := IsListed(old(View()), b))
    {
      LinkInFlight(b);
    }

    method NoteRetired(b: BufferId)
      requires Valid()
      modifies this`retired
      ensures Valid() && View() == old(View()).(retired := old(retired) + multiset{b})
    {
      retired := retired + multiset{b};
    }

    /** The bookkeeping for the buffer that an accepted commit replaced. */
    method Enqueue(b: BufferId, fence: Fence)
      requires Valid() && !links.broken && b in buffers
      modifies this`buffers, this`retired, links, links.flightHead, links.pendingHead, links.all
      ensures Valid() && links.all == old(links.all) && View() == Retire(old(View()), b, fence)
    {
      NoteRetired(b);
      TakeForFlight(b, fence);
      Append(b);
    }

    /** isz_drm_atomic_commit: the kernel's answer, then the bookkeeping for the replaced buffer. */
    method AtomicCommit(r: CommitRequest) returns (code: Code)
      requires Valid()
      requires r.accepted && !r.testOnly && r.replaced.Some? ==> !links.broken && r.replaced.value in buffers
      modifies this`buffers, this`retired, links, links.flightHead, links.pendingHead, links.all
      ensures Valid() && links.all == old(links.all)
      ensures code == (if r.accepted then Ok else CommitFailed)
      ensures View() == if r.accepted && !r.testOnly && r.replaced.Some?
                        then Retire(old(View()), r.replaced.value, r.fence) else old(View())
    {
      if !r.accepted {
        return CommitFailed;
      }
      if r.replaced.Some? && !r.testOnly {
        Enqueue(r.replaced.value, r.fence);
      }
      return Ok;
    }

    /** isz_drm_commit. */
    method DrmCommit(r: CommitRequest) returns (code: Code)
      requires Valid()
      requires master && r.atomic && r.accepted && !r.testOnly && r.replaced.Some? ==>
                 !links.broken && r.replaced.value in buffers
      modifies this`buffers, this`retired, this`backend, links, links.flightHead, links.pendingHead, links.all
      ensures Valid() && links.all == old(links.all)
      ensures code == DrmCode(old(View()), r) && View() == DrmOutcome(old(View()), r)
    {
      if !master {
        return DrmMaster;
      }
      if !r.atomic {
        return FeatureUnavailable;
      }
      code := AtomicCommit(r);
      if code != Ok {
        return;
      }
      if r.testOnly {
        FinishCommitting();
      }
    }

    method MoveTo(state: BackendState)
      requires Valid()
      modifies this`backend
      ensures Valid() && View() == old(View()).(backend := state)
    {
      backend := state;
    }

    /** The concrete commit between two moves of the state machine: a failed one falls back to READY. */
    method CommitReady(r: CommitRequest) returns (code: Code)
      requires Valid() && open && backend == Ready
      requires Retires(View(), r) ==> !links.broken && r.replaced.value in buffers
      modifies this`buffers, this`retired, this`backend, links, links.flightHead, links.pendingHead, links.all
      ensures Valid() && links.all == old(links.all)
      ensures View() == CommitOutput(old(View()), r) && code == CommitCode(old(View()), r)
    {
      ReadyCommit(View(), r);
      MoveTo(Committing);
      code := DrmCommit(r);
      if code != Ok && backend == Committing {
        MoveTo(Ready);
        assert View() == old(View());
      }
    }

    /** isz_backend_commit: the state machine around the concrete commit. */
    method CommitBackend(r: CommitRequest) returns (code: Code)
      requires Valid() && (Retires(View(), r) ==> !links.broken && r.replaced.value in buffers)
      modifies this`buffers, this`retired, this`backend, links, links.flightHead, links.pendingHead, links.all
      ensures Valid() && links.all == old(links.all)
      ensures View() == CommitOutput(old(View()), r) && code == CommitCode(old(View()), r)
      ensures code != Ok || r.testOnly ==> View() == old(View())
      ensures code == Ok && !r.testOnly ==> old(backend) == Ready && backend == Committing
    {
      CommitMeans(View(), r);
      if !open {
        return InvalidArg;
      }
      match backend
      case Uninitialized => return InvalidArg;
      case Error => return if lastError != Ok then lastError else CommitFailed;
      case Committing => return CommitPending;
      case Ready => code := CommitReady(r);
    }

    // ---- VT switches ----

    /** Every commit after the first accepted one is refused as pending, so at most one of them retires. */
    method RecommitOutputs(outputs: seq<CommitRequest>)
      requires Valid() && CanCommit(View(), outputs)
      modifies this`buffers, this`retired, this`backend, links, links.flightHead, links.pendingHead, links.all
      ensures Valid() && View() == Run(old(View()), Recommits(outputs))
    {
      for i := 0 to |outputs|
        invariant Valid() && links.all == old(links.all) && CanCommit(View(), outputs)
        invariant Run(View(), Recommits(outputs[i..])) == Run(old(View()), Recommits(outputs))
      {
        RecommitOne(View(), outputs, i);
        var code := CommitBackend(outputs[i]);
      }
    }

    method TakeMaster()
      requires Valid()
      modifies this`master
      ensures Valid() && View() == old(View()).(master := true)
    {
      master := true;
    }

    /** drm_resume_after_vt: drop what no page flip will finish, then commit every output again. */
    method ResumeAfterVt(outputs: seq<CommitRequest>)
      requires Valid() && Core(View()) && open && !master
      requires forall i :: 0 <= i < |outputs| && outputs[i].replaced.Some? ==> outputs[i].replaced.value in holders
      modifies this, links, links.flightHead, links.pendingHead, links.all
      ensures Valid() && View() == Run(Next(old(View()), VtBack), Recommits(outputs))
    {
      CanRecommit(View(), outputs);
      TakeMaster();
      FinishCommitting();
      DropInFlightReleases();
      RecommitOutputs(outputs);
    }
  }
}
