/**
 What every run of the retirement protocol keeps: reference accounting, one list per release
 node, conservation of retired buffers, and commit exclusion.
 */
module RetirementProofs {
  import opened Options
  import opened Retirement

  // ---- counting ----

  lemma {:induction false} CountPush(q: seq<BufferId>, x: BufferId, b: BufferId)
    ensures Count(q + [x], b) == Count(q, b) + (if x == b then 1 else 0)
  {
    if q != [] {
      CountPush(q[1..], x, b);
      assert (q + [x])[1..] == q[1..] + [x];
    }
  }

  lemma {:induction false} ListedMeansCounted(q: seq<BufferId>, b: BufferId)
    ensures b in q <==> Count(q, b) > 0
  {
    if q != [] {
      ListedMeansCounted(q[1..], b);
    }
  }

  lemma {:induction false} CountWithout(q: seq<BufferId>, x: BufferId, b: BufferId)
    ensures Count(Without(q, x), b) == if x == b then 0 else Count(q, b)
    ensures |Without(q, x)| <= |q|
  {
    if q != [] {
      CountWithout(q[1..], x, b);
      var rest := Without(q[1..], x);
      assert q[0] != x ==> Without(q, x) == [q[0]] + rest && Without(q, x)[1..] == rest;
      assert q[0] == x ==> Without(q, x) == rest;
    }
  }

  // ---- one entry at a time: the books of b depend on b alone ----

  lemma HandOverKeeps(s: State, b: BufferId)
    requires s.inFlight != [] && BufferOk(s, b) && IsExplicit(s, s.inFlight[0])
    ensures BufferOk(HandOver(s), b)
  {
    CountPush(s.pending, s.inFlight[0], b);
  }

  lemma ReleaseFlippedKeeps(s: State, b: BufferId)
    requires s.inFlight != [] && BufferOk(s, b)
    ensures BufferOk(ReleaseFlipped(s), b)
  {
    CountPush(s.wire, s.inFlight[0], b);
  }

  lemma LoseFlippedKeeps(s: State, b: BufferId)
    requires s.inFlight != [] && BufferOk(s, b)
    ensures BufferOk(LoseFlipped(s), b)
  {
  }

  lemma FlipHeadKeeps(s: State, b: BufferId)
    requires s.inFlight != [] && BufferOk(s, b)
    ensures BufferOk(FlipHead(s), b)
  {
    if !s.attached {
      LoseFlippedKeeps(s, b);
    } else if IsExplicit(s, s.inFlight[0]) {
      HandOverKeeps(s, b);
    } else {
      ReleaseFlippedKeeps(s, b);
    }
  }

  lemma ReleaseHeadKeeps(s: State, b: BufferId)
    requires s.pending != [] && BufferOk(s, b)
    ensures BufferOk(ReleaseHead(s), b)
  {
    CountPush(s.wire, s.pending[0], b);
  }

  lemma DropInFlightHeadKeeps(s: State, b: BufferId)
    requires s.inFlight != [] && BufferOk(s, b)
    ensures BufferOk(DropInFlightHead(s), b)
  {
  }

  lemma DropPendingHeadKeeps(s: State, b: BufferId)
    requires s.pending != [] && BufferOk(s, b)
    ensures BufferOk(DropPendingHead(s), b)
  {
  }

  lemma RotateKeeps(s: State, b: BufferId)
    requires s.pending != [] && BufferOk(s, b)
    ensures BufferOk(s.(pending := s.pending[1..] + [s.pending[0]]), b)
  {
    CountPush(s.pending[1..], s.pending[0], b);
  }

  // ---- whole drains ----

  lemma {:induction false} FlipAllKeeps(s: State, b: BufferId)
    requires BufferOk(s, b)
    ensures BufferOk(FlipAll(s), b)
    decreases |s.inFlight|
  {
    if s.inFlight != [] {
      FlipHeadKeeps(s, b);
      FlipAllKeeps(FlipHead(s), b);
    }
  }

  lemma {:induction false} DropInFlightKeeps(s: State, b: BufferId)
    requires BufferOk(s, b)
    ensures BufferOk(DropInFlight(s), b)
    decreases |s.inFlight|
  {
    if s.inFlight != [] {
      DropInFlightHeadKeeps(s, b);
      DropInFlightKeeps(DropInFlightHead(s), b);
    }
  }

  lemma {:induction false} DropPendingKeeps(s: State, b: BufferId)
    requires BufferOk(s, b)
    ensures BufferOk(DropPending(s), b)
    decreases |s.pending|
  {
    if s.pending != [] {
      DropPendingHeadKeeps(s, b);
      DropPendingKeeps(DropPendingHead(s), b);
    }
  }

  lemma {:induction false} PollAllKeeps(s: State, signalled: set<BufferId>, b: BufferId)
    requires BufferOk(s, b)
    ensures BufferOk(PollAll(s, signalled), b)
    decreases |s.pending|
  {
    if s.pending != [] {
      if Blocked(s, s.pending[0], signalled) {
        RotateKeeps(s, b);
      } else {
        ReleaseHeadKeeps(s, b);
        PollAllKeeps(ReleaseHead(s), signalled, b);
      }
    }
  }

  // ---- all buffers at once, with nothing freed that is still listed ----

  lemma FlipHeadKeepsCore(s: State)
    requires Core(s) && s.inFlight != []
    ensures Core(FlipHead(s))
  {
    assert BufferOk(s, s.inFlight[0]);
    forall b: BufferId ensures BufferOk(FlipHead(s), b) {
      assert BufferOk(s, b);
      FlipHeadKeeps(s, b);
    }
  }

  lemma {:induction false} FlipAllKeepsCore(s: State)
    requires Core(s)
    ensures Core(FlipAll(s)) && FlipAll(s).inFlight == []
    decreases |s.inFlight|
  {
    if s.inFlight != [] {
      FlipHeadKeepsCore(s);
      FlipAllKeepsCore(FlipHead(s));
    }
  }

  lemma DropInFlightOneKeepsCore(s: State)
    requires Core(s) && s.inFlight != []
    ensures Core(DropInFlightHead(s))
  {
    assert BufferOk(s, s.inFlight[0]);
    forall b: BufferId ensures BufferOk(DropInFlightHead(s), b) {
      assert BufferOk(s, b);
      DropInFlightHeadKeeps(s, b);
    }
  }

  lemma DropPendingOneKeepsCore(s: State)
    requires Core(s) && s.pending != []
    ensures Core(DropPendingHead(s))
  {
    assert BufferOk(s, s.pending[0]);
    forall b: BufferId ensures BufferOk(DropPendingHead(s), b) {
      assert BufferOk(s, b);
      DropPendingHeadKeeps(s, b);
    }
  }

  lemma {:induction false} DropInFlightKeepsCore(s: State)
    requires Core(s)
    ensures Core(DropInFlight(s)) && DropInFlight(s).inFlight == []
    decreases |s.inFlight|
  {
    if s.inFlight != [] {
      DropInFlightOneKeepsCore(s);
      DropInFlightKeepsCore(DropInFlightHead(s));
    }
  }

  lemma {:induction false} DropPendingKeepsCore(s: State)
    requires Core(s)
    ensures Core(DropPending(s)) && DropPending(s).pending == []
    decreases |s.pending|
  {
    if s.pending != [] {
      DropPendingOneKeepsCore(s);
      DropPendingKeepsCore(DropPendingHead(s));
    }
  }

  lemma RotateKeepsCore(s: State)
    requires Core(s) && s.pending != []
    ensures Core(s.(pending := s.pending[1..] + [s.pending[0]]))
  {
    var t := s.(pending := s.pending[1..] + [s.pending[0]]);
    forall b: BufferId ensures BufferOk(t, b) {
      assert BufferOk(s, b);
      RotateKeeps(s, b);
    }
  }

  lemma ReleaseOneKeepsCore(s: State)
    requires Core(s) && s.pending != []
    ensures Core(ReleaseHead(s))
  {
    assert BufferOk(s, s.pending[0]);
    forall b: BufferId ensures BufferOk(ReleaseHead(s), b) {
      assert BufferOk(s, b);
      ReleaseHeadKeeps(s, b);
    }
  }

  lemma {:induction false} PollAllKeepsCore(s: State, signalled: set<BufferId>)
    requires Core(s)
    ensures Core(PollAll(s, signalled))
    decreases |s.pending|
  {
    if s.pending != [] {
      if Blocked(s, s.pending[0], signalled) {
        RotateKeepsCore(s);
      } else {
        ReleaseOneKeepsCore(s);
        PollAllKeepsCore(ReleaseHead(s), signalled);
      }
    }
  }
}
