/**
 What every step of the protocol leaves behind, field by field and for every state, legal or not. None
 of these statements mentions how the step is computed.
 */
module RetirementOutcomes {
  import opened Options
  import opened Retirement
  import opened RetirementProofs
  import opened RetirementRuns
  import opened RetirementTheorems
  import opened RetirementBooks

  /** Who owns what, what was retired and who is attached are the same. */
  predicate SameOwners(s: State, t: State) {
    t.holders == s.holders && t.cached == s.cached && t.retired == s.retired && t.attached == s.attached
  }

  // ---- page flip ----

  lemma {:induction false} FlipEmpties(s: State)
    ensures FlipAll(s).inFlight == []
    decreases |s.inFlight|
  {
    if s.inFlight != [] {
      FlipHeadFrame(s);
      FlipEmpties(FlipHead(s));
    }
  }

  /** A page flip always ends the commit and empties the in-flight list, whatever the lists hold. */
  lemma FlipEndsCommit(s: State)
    requires s.open
    ensures var t := Next(s, PageFlip);
            t.inFlight == [] && t.backend == (if s.backend == Committing then Ready else s.backend) &&
            t.open && t.master == s.master && t.lastError == s.lastError && SameOwners(s, t)
    ensures s.inFlight == [] ==>
              var t := Next(s, PageFlip);
              t.pending == s.pending && t.wire == s.wire && t.buffers == s.buffers && t.dropped == s.dropped
  {
    var u := if s.backend == Committing then s.(backend := Ready) else s;
    FlipEmpties(u);
    FlipAllFrame(u);
    assert s.inFlight == [] ==> FlipAll(u) == u;
  }

  /** After a page flip of a working backend a commit is no longer refused as pending. */
  lemma CommitAfterFlip(s: State, r: CommitRequest)
    requires s.open && s.backend == Committing && s.master && r.atomic && r.accepted
    ensures CommitCode(Next(s, PageFlip), r) == Ok
  {
    FlipEndsCommit(s);
  }

  lemma ClosedBackendIgnores(s: State)
    requires !s.open
    ensures Next(s, PageFlip) == s && Next(s, VtBack) == s && Next(s, SeatBack) == s && Next(s, CloseBackend) == s
  {
  }

  // ---- drops ----

  lemma {:induction false} DropInFlightLoses(s: State)
    ensures DropInFlight(s).inFlight == [] && DropInFlight(s).dropped == s.dropped + multiset(s.inFlight)
    decreases |s.inFlight|
  {
    if s.inFlight != [] {
      DropInFlightLoses(DropInFlightHead(s));
      assert s.inFlight == [s.inFlight[0]] + s.inFlight[1..];
    }
  }

  lemma {:induction false} DropPendingLoses(s: State)
    ensures DropPending(s).pending == [] && DropPending(s).dropped == s.dropped + multiset(s.pending)
    decreases |s.pending|
  {
    if s.pending != [] {
      DropPendingLoses(DropPendingHead(s));
      assert s.pending == [s.pending[0]] + s.pending[1..];
    }
  }

  /** VT resume takes master, ends the commit and loses what is in flight; nothing is sent. */
  lemma VtBackOutcome(s: State)
    requires s.open && !s.master
    ensures var t := Next(s, VtBack);
            t.master && t.open && t.backend == (if s.backend == Committing then Ready else s.backend) &&
            t.inFlight == [] && t.dropped == s.dropped + multiset(s.inFlight) &&
            t.pending == s.pending && t.wire == s.wire && t.lastError == s.lastError && SameOwners(s, t)
  {
    var u := (if s.backend == Committing then s.(backend := Ready) else s).(master := true);
    DropInFlightLoses(u);
    DropInFlightFrame(u);
    assert Next(s, VtBack) == DropInFlight(u);
  }

  lemma CloseBackendOutcome(s: State)
    requires s.open
    ensures var t := Next(s, CloseBackend);
            !t.open && t.inFlight == [] && t.dropped == s.dropped + multiset(s.inFlight) &&
            t.pending == s.pending && t.wire == s.wire && t.backend == s.backend && t.master == s.master &&
            SameOwners(s, t)
  {
    DropInFlightLoses(s);
    DropInFlightFrame(s);
  }

  lemma CloseServerOutcome(s: State)
    ensures var t := Next(s, CloseServer);
            t.pending == [] && t.dropped == s.dropped + multiset(s.pending) &&
            t.inFlight == s.inFlight && t.wire == s.wire && t.backend == s.backend && t.open == s.open &&
            t.master == s.master && SameOwners(s, t)
  {
    DropPendingLoses(s);
    DropPendingFrame(s);
  }

  // ---- the small steps ----

  lemma StartOutcome(s: State, attached: bool)
    ensures var t := Next(s, Start(attached));
            t.backend == Ready && t.open && t.master && t.attached == attached &&
            t.buffers == s.buffers && t.inFlight == s.inFlight && t.pending == s.pending && t.wire == s.wire
  {
  }

  /** Leaving the VT and coming back over libseat move only the master flag. */
  lemma SeatOutcome(s: State)
    requires s.open
    ensures Next(s, VtAway) == s.(master := false) && Next(s, SeatBack) == s.(master := true)
    ensures s.master ==> Next(s, VtBack) == s
  {
  }

  /** After a fatal error every commit answers its code. */
  lemma FailAnswers(s: State, code: Code, r: CommitRequest)
    requires s.open
    ensures CommitCode(Next(s, Fail(code)), r) == (if code != Ok then code else CommitFailed)
    ensures Next(s, Fail(code)) == s.(backend := Error, lastError := code)
  {
  }

  /** The code of every refusal, in the order in which the reasons are looked at. */
  lemma CommitCodes(s: State, r: CommitRequest)
    ensures !s.open || s.backend == Uninitialized ==> CommitCode(s, r) == InvalidArg
    ensures s.open && s.backend == Committing ==> CommitCode(s, r) == CommitPending
    ensures s.open && s.backend == Error && s.lastError != Ok ==> CommitCode(s, r) == s.lastError
    ensures s.open && s.backend == Ready && !s.master ==> CommitCode(s, r) == DrmMaster
    ensures s.open && s.backend == Ready && s.master && !r.atomic ==> CommitCode(s, r) == FeatureUnavailable
    ensures s.open && s.backend == Ready && s.master && r.atomic && !r.accepted ==> CommitCode(s, r) == CommitFailed
    ensures CommitCode(s, r) == Ok <==> s.open && s.backend == Ready && s.master && r.atomic && r.accepted
  {
  }

  /** A commit that is refused, is a test or replaces nothing touches no buffer and no list. */
  lemma CommitWithoutReplacement(s: State, r: CommitRequest)
    requires CommitCode(s, r) != Ok || r.testOnly || r.replaced.None?
    ensures Next(s, Commit(r)) == if CommitCode(s, r) == Ok && !r.testOnly then s.(backend := Committing) else s
  {
  }

  // ---- references ----

  /** A new buffer has one reference, no mark, no fence and no list. */
  lemma ImportOutcome(s: State, b: BufferId)
    ensures var t := Next(s, Import(b));
            t.buffers == s.buffers[b := Buffer(1, false, false, false)] &&
            t.holders == s.holders + multiset{b} && t.inFlight == s.inFlight && t.pending == s.pending
  {
  }

  lemma HoldOutcome(s: State, b: BufferId)
    requires b in s.buffers
    ensures var t := Next(s, Hold(b));
            t.buffers == s.buffers[b := s.buffers[b].(refcount := s.buffers[b].refcount + 1)] &&
            t.holders == s.holders + multiset{b}
  {
  }

  /** A drop marks the buffer; with another reference left it counts one less and no list changes. */
  lemma DropOutcome(s: State, b: BufferId)
    requires b in s.buffers
    ensures var t := Next(s, Drop(b));
            t.holders == s.holders - multiset{b} &&
            (b in t.buffers <==> s.buffers[b].refcount > 1) &&
            (forall x :: x in s.buffers && x != b ==> x in t.buffers && t.buffers[x] == s.buffers[x]) &&
            (b in t.buffers ==>
               t.buffers[b] == s.buffers[b].(refcount := s.buffers[b].refcount - 1, released := true) &&
               t.inFlight == s.inFlight && t.pending == s.pending && t.dropped == s.dropped)
    ensures b !in Next(s, Drop(b)).buffers ==>
              b !in Next(s, Drop(b)).inFlight && b !in Next(s, Drop(b)).pending
  {
    DropFrame(s, b, b);
    CountWithout(s.inFlight, b, b);
    CountWithout(s.pending, b, b);
    ListedMeansCounted(Without(s.inFlight, b), b);
    ListedMeansCounted(Without(s.pending, b), b);
  }

  /** The cache's steps take and drop a reference without marking anything. */
  lemma CacheOutcome(s: State, b: BufferId)
    requires b in s.buffers && s.buffers[b].refcount > 1
    ensures Next(s, CacheInsert(b, None)) ==
            s.(cached := s.cached + multiset{b},
               buffers := s.buffers[b := s.buffers[b].(refcount := s.buffers[b].refcount + 1)])
    ensures Next(s, CacheEvict(b)) ==
            s.(cached := s.cached - multiset{b},
               buffers := s.buffers[b := s.buffers[b].(refcount := s.buffers[b].refcount - 1)])
  {
  }

  // ---- what a release does to the buffers ----

  /** t has b as s has it, allocated or not. */
  predicate Unchanged(s: State, t: State, b: BufferId) {
    (b in t.buffers <==> b in s.buffers) && (b in s.buffers ==> t.buffers[b] == s.buffers[b])
  }

  /** A list let go of b: gone with the last reference, else one reference less, and marked. */
  predicate LetGone(s: State, t: State, b: BufferId) {
    b in s.buffers && (b in t.buffers <==> s.buffers[b].refcount > 1) &&
    (b in t.buffers ==> t.buffers[b] == Buffer(s.buffers[b].refcount - 1, true, s.buffers[b].explicitSync, false))
  }

  lemma ReleaseHeadBuffers(s: State, b: BufferId)
    requires s.pending != [] && s.pending[0] in s.buffers
    ensures if b == s.pending[0] then LetGone(s, ReleaseHead(s), b) else Unchanged(s, ReleaseHead(s), b)
  {
  }

  lemma {:induction false} PollUnchanged(s: State, signalled: set<BufferId>, b: BufferId)
    requires Core(s) && b !in s.pending[..ReadyPrefix(s.pending, signalled)]
    ensures Unchanged(s, PollAll(s, signalled), b)
    decreases |s.pending|
  {
    if s.pending != [] {
      assert BufferOk(s, s.pending[0]);
      if s.pending[0] in signalled {
        var k := ReadyPrefix(s.pending, signalled);
        assert s.pending[..k][0] == s.pending[0];
        assert s.pending[..k] == [s.pending[0]] + s.pending[1..][..k - 1];
        ReleaseHeadBuffers(s, b);
        ReleaseOneKeepsCore(s);
        PollUnchanged(ReleaseHead(s), signalled, b);
      }
    }
  }

  /** A poll lets go of exactly the buffers it releases; every other buffer is as it was. */
  lemma {:induction false} PollBuffers(s: State, signalled: set<BufferId>, b: BufferId)
    requires Core(s)
    ensures if b in s.pending[..ReadyPrefix(s.pending, signalled)] then LetGone(s, PollAll(s, signalled), b)
            else Unchanged(s, PollAll(s, signalled), b)
    decreases |s.pending|
  {
    var k := ReadyPrefix(s.pending, signalled);
    if b !in s.pending[..k] {
      PollUnchanged(s, signalled, b);
    } else {
      var x, next := s.pending[0], ReleaseHead(s);
      assert BufferOk(s, x) && BufferOk(s, b);
      assert s.pending[..k] == [x] + s.pending[1..][..k - 1];
      ReleaseOneKeepsCore(s);
      ReleaseHeadBuffers(s, b);
      if b == x {
        ListedMeansCounted(s.pending[1..], b);
        PollUnchanged(next, signalled, b);
      } else {
        PollBuffers(next, signalled, b);
      }
    }
  }

  lemma FlipOthers(s: State, b: BufferId, x: BufferId)
    requires s.inFlight == [b] && x != b
    ensures Unchanged(s, FlipHead(s), x)
  {
  }

  lemma HandOverBuffers(s: State, b: BufferId)
    requires s.inFlight == [b] && b in s.buffers && s.buffers[b].releasePending
    ensures Unchanged(s, HandOver(s), b)
  {
  }

  lemma FlipLetsGo(s: State, b: BufferId)
    requires s.inFlight == [b] && b in s.buffers && !IsExplicit(s, b)
    ensures LetGone(s, FlipHead(s), b)
  {
  }

  /** What a flip does to the one buffer in flight, and that it leaves every other as it was. */
  lemma FlipBuffers(s: State, b: BufferId, x: BufferId)
    requires Inv(s) && s.inFlight == [b]
    ensures var t := Next(s, PageFlip);
            (x != b ==> Unchanged(s, t, x)) &&
            (s.attached && IsExplicit(s, b) ==> Unchanged(s, t, b)) &&
            (!IsExplicit(s, b) ==> LetGone(s, t, b))
  {
    var u := if s.backend == Committing then s.(backend := Ready) else s;
    assert BufferOk(s, b);
    LastFlip(u, b);
    if x != b {
      FlipOthers(u, b, x);
    }
    if IsExplicit(s, b) {
      HandOverBuffers(u, b);
    } else {
      FlipLetsGo(u, b);
    }
  }

  // ---- what the teardowns do to the buffers ----

  lemma DropPendingHeadBuffers(s: State, b: BufferId)
    requires s.pending != [] && s.pending[0] in s.buffers
    ensures if b == s.pending[0] then LetGone(s, DropPendingHead(s), b) else Unchanged(s, DropPendingHead(s), b)
  {
  }

  lemma {:induction false} CloseServerSpares(s: State, b: BufferId)
    requires Core(s) && b !in s.pending
    ensures Unchanged(s, DropPending(s), b)
    decreases |s.pending|
  {
    if s.pending != [] {
      assert BufferOk(s, s.pending[0]);
      DropPendingHeadBuffers(s, b);
      DropPendingOneKeepsCore(s);
      CloseServerSpares(DropPendingHead(s), b);
    }
  }

  /** Server teardown marks and lets go of exactly the pending buffers. */
  lemma {:induction false} CloseServerBuffers(s: State, b: BufferId)
    requires Core(s)
    ensures if b in s.pending then LetGone(s, Next(s, CloseServer), b) else Unchanged(s, Next(s, CloseServer), b)
    decreases |s.pending|
  {
    if b !in s.pending {
      CloseServerSpares(s, b);
    } else {
      var next := DropPendingHead(s);
      assert BufferOk(s, s.pending[0]) && BufferOk(s, b);
      DropPendingOneKeepsCore(s);
      DropPendingHeadBuffers(s, b);
      if b == s.pending[0] {
        ListedMeansCounted(s.pending[1..], b);
        CloseServerSpares(next, b);
      } else {
        CloseServerBuffers(next, b);
      }
    }
  }

  lemma DropOnlyOne(s: State, x: BufferId, b: BufferId)
    requires s.inFlight == [x] && x in s.buffers
    ensures if b == x then LetGone(s, DropInFlight(s), b) else Unchanged(s, DropInFlight(s), b)
  {
    assert DropInFlight(s) == DropInFlightHead(s);
  }

  /** Coming back to the VT and closing the backend mark and let go of exactly the buffer in flight. */
  lemma DropInFlightBuffers(s: State, b: BufferId)
    requires Inv(s) && s.open
    ensures var t := Next(s, CloseBackend); if b in s.inFlight then LetGone(s, t, b) else Unchanged(s, t, b)
    ensures !s.master ==>
              var t := Next(s, VtBack); if b in s.inFlight then LetGone(s, t, b) else Unchanged(s, t, b)
  {
    if s.inFlight != [] {
      var x := s.inFlight[0];
      assert BufferOk(s, x);
      DropOnlyOne(s, x, b);
      DropOnlyOne((if s.backend == Committing then s.(backend := Ready) else s).(master := true), x, b);
    }
  }
}
