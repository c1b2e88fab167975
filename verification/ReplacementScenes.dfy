/** Reachable scenes in which a replaced buffer is released twice, or not at all. */
module ReplacementScenes {
  import opened Options
  import opened Retirement
  import opened RetirementRuns
  import opened RetirementPromises
  import opened Surfaces
  import opened ClientBuffers

  const ACCEPTED := CommitRequest(None, false, true, true, NoFence)

  // ---- twice ----

  /** Buffer 2 has replaced buffer 1, and buffer 1 was released once, and twice. */
  const SENT_ONCE := ATTACHED_TWICE.(protocol := TWO_READY.(wire := [1], retired := multiset{1},
                                     buffers := TWO_READY.buffers[1 := Buffer(1, true, false, false)]))

  const SENT_TWICE := SENT_ONCE.(protocol := SENT_ONCE.protocol.(wire := [1, 1], retired := multiset{1, 1}))

  lemma ServedFlip(s: State, b: BufferId)
    requires s.open && s.backend == Committing && s.attached && s.inFlight == [b]
    requires b in s.buffers && !s.buffers[b].explicitSync && s.buffers[b].refcount > 1
    ensures Next(s, PageFlip) ==
            s.(backend := Ready, inFlight := [], wire := s.wire + [b],
               buffers := s.buffers[b := Buffer(s.buffers[b].refcount - 1, true, false, false)])
  {
    LastFlip(FinishCommit(s), b);
  }

  lemma ShowAndFlip(c: Scene, p: BufferId, t: State)
    requires c.current.Some? && c.current.value in c.protocol.buffers && c.replaced == Some(p)
    requires c.protocol.attached && c.protocol.inFlight == []
    requires Retires(c.protocol, ShowRequest(c, ACCEPTED)) && p in c.protocol.buffers && !IsListed(c.protocol, p)
    requires c.protocol.buffers[p] == Buffer(1, c.protocol.buffers[p].released, false, false)
    requires t == c.protocol.(wire := c.protocol.wire + [p], retired := c.protocol.retired + multiset{p},
                              buffers := c.protocol.buffers[p := Buffer(1, true, false, false)])
    ensures Allowed(c, Show(ACCEPTED))
    ensures NextScene(NextScene(c, Show(ACCEPTED)), Other(PageFlip)) == c.(protocol := t)
  {
    UnfencedCommit(c.protocol, p);
    assert ShowRequest(c, ACCEPTED) == Replacing(p, NoFence);
    ServedFlip(NextScene(c, Show(ACCEPTED)).protocol, p);
  }

  lemma ReachShown(c: Scene, d: Scene)
    requires ReachableScene(c) && Allowed(c, Show(ACCEPTED))
    requires NextScene(NextScene(c, Show(ACCEPTED)), Other(PageFlip)) == d
    ensures ReachableScene(d)
  {
    ReachScene(c, Show(ACCEPTED));
    ReachScene(NextScene(c, Show(ACCEPTED)), Other(PageFlip));
  }

  lemma ReachSentOnce()
    ensures ReachableScene(SENT_ONCE)
  {
    ReachAttachedTwice();
    ShowAndFlip(ATTACHED_TWICE, 1, SENT_ONCE.protocol);
    ReachShown(ATTACHED_TWICE, SENT_ONCE);
  }

  /** Attach 1, attach 2, commit, flip, commit, flip: buffer 1 is replaced once and released twice. */
  lemma TwoReleasesForOneReplacement()
    ensures ReachableScene(SENT_TWICE)
    ensures SENT_TWICE.protocol.wire == [1, 1] && SENT_TWICE.replaced == Some(1)
  {
    ReachSentOnce();
    ShowAndFlip(SENT_ONCE, 1, SENT_TWICE.protocol);
    ReachShown(SENT_ONCE, SENT_TWICE);
  }

  // ---- never ----

  const ONE_ATTACHED := Scene(STARTED.protocol.(buffers := map[1 := Buffer(1, false, false, false)],
                                                holders := multiset{1}), Some(1), None, {1})

  lemma ReachOneAttached()
    ensures ReachableScene(ONE_ATTACHED)
  {
    ReachStarted();
    ReachScene(STARTED, Attach(1, true));
    assert NextScene(STARTED, Attach(1, true)) == ONE_ATTACHED;
  }

  /** A first frame: nothing is replaced, so the commit and its flip leave the scene as it was. */
  lemma FirstFrame()
    ensures Allowed(ONE_ATTACHED, Show(ACCEPTED))
    ensures NextScene(NextScene(ONE_ATTACHED, Show(ACCEPTED)), Other(PageFlip)) == ONE_ATTACHED
  {
  }

  lemma SecondAttach()
    ensures NextScene(ONE_ATTACHED, Attach(2, true)) == ATTACHED_TWICE
  {
  }

  lemma ThirdAttach()
    ensures var c := NextScene(ATTACHED_TWICE, Attach(3, true)); 1 !in c.protocol.buffers && c.protocol.wire == []
  {
  }

  lemma DetachShown()
    ensures var c := NextScene(ONE_ATTACHED, Detach); 1 !in c.protocol.buffers && c.protocol.wire == []
  {
  }

  /**
   Attach 1, commit, flip, attach 2, attach 3, or attach 1, commit, flip, detach: buffer 1 was scanned
   out, is gone, and no release was sent.
   */
  lemma ShownAndNeverReleased()
    ensures ReachableScene(ONE_ATTACHED)
    ensures NextScene(NextScene(ONE_ATTACHED, Show(ACCEPTED)), Other(PageFlip)) == ONE_ATTACHED
    ensures var c := NextScene(NextScene(ONE_ATTACHED, Attach(2, true)), Attach(3, true));
            ReachableScene(c) && 1 !in c.protocol.buffers && c.protocol.wire == []
    ensures var c := NextScene(ONE_ATTACHED, Detach);
            ReachableScene(c) && 1 !in c.protocol.buffers && c.protocol.wire == []
  {
    ReachOneAttached();
    FirstFrame();
    SecondAttach();
    ReachAttachedTwice();
    ReachScene(ATTACHED_TWICE, Attach(3, true));
    ThirdAttach();
    ReachScene(ONE_ATTACHED, Detach);
    DetachShown();
  }
}
