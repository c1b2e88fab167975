# Ishizue in Dafny

A Dafny model of the parts of Ishizue whose correctness is not visible from one function body: the
buffer retirement protocol of the DRM backend, the dmabuf import cache, the X11 bridge's request
reassembly, property store, raster image, window teardown and atom table, the connection layer's
outbound queue and object ids, the consent table, and the tiling of the example window manager.

Each component comes in two layers. A value layer has the state, the step functions and the theorems
about all inputs and all runs. An imperative layer has the code's own form (classes with mutable
fields, arrays changed in place, linked nodes, loops) and proves every operation equal to its step
function, so the theorems speak about it. The outcome of each step is also stated apart from the step
function, in the terms of the request and the old state (the modules named `Outcomes`, `Walks`, `Accounts`
and `Bytes`, and the lemmas named `Outcome` elsewhere). Kernel answers, socket answers, clock readings and
allocation results are inputs.

`dafny verify dfyconfig.toml` checks everything.

| files | component |
|---|---|
| `Retirement`, `RetirementProofs`, `RetirementRuns`, `RetirementBooks`, `RetirementTheorems`, `RetirementPromises`, `RetirementOutcomes` | release lists, reference counts, backend state machine |
| `ReleaseList`, `ReleaseLinks`, `RetirementEngine` | the intrusive lists, the two release lists over one set of nodes, the code that runs on them |
| `Surfaces`, `ClientBuffers`, `ReleasedMarks`, `Replacements`, `ReplacementScenes`, `SlotAccounts`, `SurfaceSlots` | a surface's two buffer slots and the client's buffer objects on top of the retirement protocol |
| `ImportCache`, `Backshift`, `BufferCache`, `CacheWalks`, `CacheAccounting` | the open-addressed fd cache |
| `Bytes`, `RequestStream`, `RequestBytes` | X11 integers, request reassembly |
| `Properties`, `PropertyTable` | window properties and GetProperty replies |
| `Raster`, `RasterWindow` | PutImage, ClearArea, GetImage |
| `WindowTree` | DestroyWindow |
| `AtomNames`, `Atoms` | the atom table |
| `Framing`, `SendQueue`, `ObjectTable` | wire frames, outbound queue, object ids |
| `Consent`, `ConsentBound` | the portal consent table |
| `Euclid`, `Tiling`, `Desktop`, `DeskOutcomes`, `WindowManager` | tinyisz |
| `Options` | optional values |

## Where the code and its promises differ

The model follows the code. Where a comment or header promises more than the code does, the project
holds a counterexample and the exact condition under which the promise is met.

- `isz_buffer_cache_evict` (src/buffer/isz_buffer.c:279-303) keeps the entries that its comment says to
  move and does not restart its index when the hole moves. It leaves a working table if and only if
  the fd is absent or the slot after it is empty (`ImportCache.EvictIsMapRemovalIff`); otherwise some
  other cached fd can no longer be found (`ImportCache.EvictLosesAnotherFd`,
  `BufferCache.EvictingThreeLoses35`). Which entries it moves, and where it stops, is
  `CacheWalks.EvictWalks`; it can lose an fd that is not even next to the victim
  (`CacheWalks.EvictingThreeLosesFive`). `Backshift` is the algorithm the comments describe, with the
  guard reversed and the walk restarted behind each new hole, proved for every table, full ones included.
- DestroyWindow (x11bridge/x11_client.c:1095-1122) promises the whole subtree and removes the direct
  children. The two agree if and only if the window has no grandchildren
  (`WindowTree.ChildrenAreSubtreeIff`, `WindowTree.GrandchildSurvives`).
- src/buffer/isz_buffer.h:188-192 promises that one poll releases every buffer whose fence has
  signalled. The walk stops at the first entry that is not ready
  (`RetirementPromises.PollReleasesAllSignalledIff`, `RetirementPromises.PollLeavesSignalledWaiting`).
- The push at src/backend/isz_drm_atomic.c:631-636 does not check that the buffer's node is free. A
  surface keeps its replaced buffer across commits (src/render/isz_surface.c:155-165), so committing
  twice without attaching pushes a node that a list still links
  (`RetirementPromises.RecommitBeforeFenceFaults`). The protocol's invariant survives a step if and
  only if `release_pending` is false for the buffer it retires (`RetirementRuns.StepKeepsInvIff`);
  `ReleaseList.PushBack` and `ReleaseLinks.Push` state what becomes of the two rings in each case.
- src/backend/isz_drm_atomic.c:613-617 logs that a failed fence import falls back to the page-flip event.
  The syncobj exists by then, so the flip releases the buffer if and only if it has no syncobj, old or
  new (`RetirementPromises.FlipReleasesIff`); after a failed import it goes to the pending list
  (`RetirementPromises.FailedImportDoesNotFallBack`), and no run in which its fence never signals
  releases it (`RetirementPromises.UnsignalledIsNeverReleased`).
- src/buffer/isz_buffer.h:183-184 calls the page-flip hook a no-op without a server. The released mark
  stays as it was if and only if it was set already or the buffer has a syncobj
  (`RetirementPromises.FlipWithoutServerMarksIff`, `RetirementPromises.FlipWithoutServerMarks`).
- src/backend/isz_drm.c:293-306 says that the resume sequence runs on the libseat path too.
  `drm_enable_seat` does not call it: a commit that was open before the switch is open after it, and
  until a page flip every commit is refused (`RetirementPromises.ResumePathsDiffer`,
  `RetirementPromises.LostFlipBlocksCommits`, `RetirementPromises.SeatBackLeavesCommitOpen`).
- doc/api.md:317-318 has one release message for a buffer that is no longer in flight. The replaced
  buffer stays in its slot until the next attach, and every commit before that retires it again. With
  none lost or owed it is released at most once if and only if at most one event retires it in between,
  and once if and only if one does (`Replacements.ReleasesPerReplacement`); with a server at most one
  does if and only if none retires it while its released mark is set
  (`Replacements.RetiredOnceIffUnmarked`). It can be released twice
  (`ReplacementScenes.TwoReleasesForOneReplacement`), and a buffer that was shown can go without a
  release (`ReplacementScenes.ShownAndNeverReleased`).
- src/buffer/isz_buffer.h:107-112 expects a client to be free to destroy a buffer at any time. An attach
  registers the buffer on the connection without taking a reference
  (src/isz_client_dispatch.c:584-592), and BUFFER_DESTROY drops one (861-863). A scene stays sound if
  and only if the buffer is still allocated, a slot that names it is not its only owner, and the
  reference is not one the cache counts on (`Surfaces.DestroyKeepsSceneInvIff`); as the code has it, if
  and only if the buffer has left the slots and is still on a list (`ClientBuffers.DestroyIsSoundIff`).
  Both other moments fault in reachable scenes (`ClientBuffers.DestroyFaults`). One reference taken at
  registration makes every run sound, whatever the client destroys (`ClientBuffers.CountingRepairs`).
- src/protocol/isz_conn.h:38-41 promises ids that increase for the lifetime of a connection. They do if
  and only if there are fewer than 2^32 - 1 registrations (`ObjectTable.IdsIncreaseIff`); then they
  wrap onto an id that may be in use (`ObjectTable.WrapReusesLiveId`). A registration is safe if and
  only if the next id is free (`ObjectTable.RegisterRefinesIff`).
- The atom counter has 32 bits as well: an interned name's atom leads back to the name if and only if
  its place in the table comes before the counter wraps (`Atoms.InternThenName`); the first name
  behind that gets atom 0, which means none (`Atoms.AtomsRunOut`).
- ChangeProperty with an unknown mode is refused only when the property exists
  (`Properties.UnknownModeRefusedIff`, `Properties.UnknownModeStores`); section 9 of the X Window System Protocol asks for a Value error.
- A single tinyisz window covers the master part only; the output is covered if and only if there are
  at least two windows (`Tiling.OutputCoveredIff`).

## Model

| member | source | states |
|---|---|---|
| RetirementTheorems.EveryReachableState | src/backend/isz_drm_event.c:64-126 | in every state a legal run reaches, each retirement of a buffer is in flight, pending, on the wire or dropped; its refcount is its number of owners; a freed buffer is on no list and in no cache; its node is on at most one list; at most one buffer is in flight and only while COMMITTING or ERROR |
| RetirementRuns.StepKeepsInvIff | src/backend/isz_drm_atomic.c:631-636 | a step by callers who use only references they hold keeps the invariant if and only if it does not retire a buffer whose node is still linked |
| RetirementPromises.RecommitBeforeFenceFaults | src/render/isz_surface.c:155-165 | a reachable state in which committing again pushes a linked node |
| RetirementTheorems.EveryExplicitReleaseSawItsFence | src/buffer/isz_buffer.c:402-435 | in every run an explicit-sync buffer goes on the wire only in a poll that saw its fence signalled |
| RetirementTheorems.ExplicitReleaseNeedsFence | src/buffer/isz_buffer.c:379-400 | the same for one step from any safe state |
| RetirementTheorems.SignalledIsReleased | src/buffer/isz_buffer.c:402-435 | a signalled buffer at position k of the pending list is released within k + 1 polls, whatever other fences do and whatever is appended |
| RetirementPromises.PollReleasesAllSignalledIff | src/buffer/isz_buffer.h:188-192 | one poll releases every signalled buffer if and only if none waits behind an unsignalled one |
| RetirementPromises.PollLeavesSignalledWaiting | src/buffer/isz_buffer.c:416-427 | a reachable state in which a poll leaves a signalled buffer waiting |
| RetirementPromises.FlipReleasesIff | src/backend/isz_drm_atomic.c:594-636 | the flip after a retiring commit releases the buffer if and only if there is a server and the buffer has no syncobj, from before or from this commit; a failed import leaves it pending |
| RetirementPromises.UnsignalledIsNeverReleased | src/buffer/isz_buffer.c:402-435 | in every run without server teardown in which no poll sees its fence signalled, a pending buffer stays pending and is never sent |
| RetirementPromises.FailedImportDoesNotFallBack | src/backend/isz_drm_atomic.c:608-617 | a reachable commit with a failed import whose flip leaves the buffer pending and the wire empty |
| RetirementPromises.FlipWithoutServerMarksIff | src/backend/isz_drm_event.c:108-125 | without a server a flip sends nothing and drops the reference; the released mark is unchanged if and only if it was set or the buffer has a syncobj |
| RetirementPromises.FlipWithoutServerMarks | src/buffer/isz_buffer.c:379-400 | a reachable flip without a server that sets the mark with nothing on the wire |
| RetirementPromises.ResumePathsDiffer | src/backend/isz_drm.c:838-853 | after a switch away and back the direct path has ended the commit and emptied the in-flight list; the libseat path has changed neither |
| RetirementPromises.LostFlipBlocksCommits | src/backend/isz_backend.c:95-104 | in every run without a flip, VT resume, error or teardown an open commit stays open and every other is refused as pending |
| RetirementPromises.SeatBackLeavesCommitOpen | src/backend/isz_drm.c:818-853 | a reachable open commit that a libseat switch away and back leaves exactly as it was |
| RetirementTheorems.ErrorIsForever | src/backend/isz_backend.c:140-152 | no run leaves the ERROR state |
| RetirementTheorems.CommitOutcome | src/backend/isz_drm_atomic.c:598-636 | a retiring commit leaves exactly that buffer in flight with one more reference and its fence, and the backend COMMITTING |
| RetirementTheorems.SentMeansReleased | src/buffer/isz_buffer.c:429-433 | whatever is released on the wire is marked released while somebody holds it |
| RetirementTheorems.FreedIffLastOwner | src/buffer/isz_buffer.c:124-174 | dropping a reference frees the buffer if and only if it was the only one, and then no list, cache or other holder has it |
| RetirementRuns.PollOutcome | src/buffer/isz_buffer.c:410-434 | a poll releases exactly the longest signalled prefix and moves the entry that stopped it to the back |
| RetirementRuns.PageFlipOutcome | src/backend/isz_drm_event.c:98-125 | with one buffer in flight a flip hands it to the pending list, the wire or nobody, by sync kind and server; what a flip does to the backend and the lists in every other state is `RetirementOutcomes.FlipEndsCommit` |
| RetirementOutcomes.FlipEndsCommit | src/backend/isz_drm_event.c:98-126 | whatever is in flight or pending, a flip of an open backend leaves nothing in flight and turns COMMITTING into READY and no other state; master and owners stay, and with nothing in flight so do the pending list, the wire and every buffer |
| RetirementOutcomes.CommitAfterFlip | src/backend/isz_backend.c:89-120 | after a flip that ended a commit, one that the kernel accepts answers Ok |
| RetirementOutcomes.FlipBuffers | src/backend/isz_drm_event.c:108-125 | the buffer in flight keeps its reference when it is handed over, and is marked and loses one when it is released; every other buffer is as it was |
| RetirementOutcomes.PollBuffers | src/buffer/isz_buffer.c:402-435 | a poll marks and lets go of exactly the buffers it releases; every other buffer is as it was |
| RetirementOutcomes.VtBackOutcome | src/backend/isz_drm.c:309-330 | coming back to the VT takes master, ends the commit and drops exactly what is in flight; pending list and wire stay |
| RetirementOutcomes.CloseBackendOutcome | src/backend/isz_drm.c:1068-1091 | closing drops exactly what is in flight and leaves the pending list and the wire |
| RetirementOutcomes.CloseServerOutcome | src/buffer/isz_buffer.c:437-451 | server teardown drops exactly what is pending and leaves the in-flight list and the wire |
| RetirementOutcomes.DropInFlightBuffers | src/backend/isz_drm_event.c:64-76 | the buffer that either drop finds in flight is marked and loses one reference; every other buffer is as it was |
| RetirementOutcomes.CloseServerBuffers | src/buffer/isz_buffer.c:437-451 | every pending buffer is marked and loses one reference; every other buffer is as it was |
| RetirementOutcomes.ClosedBackendIgnores | src/backend/isz_drm_event.c:86-97 | flips, both ways back to the VT and a second close change nothing once the backend is closed |
| RetirementOutcomes.FailAnswers | src/backend/isz_backend.c:95-152 | after a fatal error every commit answers its code |
| RetirementOutcomes.CommitCodes | src/backend/isz_backend.c:89-120 | the code of every refusal in its order, and Ok if and only if the kernel was asked and accepted |
| RetirementOutcomes.CommitWithoutReplacement | src/backend/isz_drm_atomic.c:585-650 | a refused or test-only commit changes nothing; one that replaces nothing only opens a commit |
| RetirementOutcomes.DropOutcome | src/buffer/isz_buffer.c:110-174 | a drop marks the buffer and takes one reference, the last of which takes it off every list; other buffers stay |
| RetirementRuns.RunKeepsInv | src/backend/isz_drm.c:309-347 | every legal run keeps the invariant |
| RetirementRuns.BooksAreLocal | src/buffer/isz_buffer.c:110-174 | the count, the list and the retirements of a buffer stay right over every step that meets its obligation to that buffer, whatever it does to others |
| RetirementBooks.EveryRunConserves | src/backend/isz_drm_event.c:64-126 | in every run, legal or not, each retirement of a buffer is in flight, pending, on the wire or dropped |
| RetirementProofs.FlipAllKeepsCore | src/backend/isz_drm_event.c:108-125 | draining at a flip keeps accounting and conservation and empties the list |
| RetirementProofs.PollAllKeepsCore | src/buffer/isz_buffer.c:411-434 | polling keeps accounting and conservation |
| RetirementProofs.DropInFlightKeepsCore | src/backend/isz_drm_event.c:69-75 | dropping keeps accounting and conservation and empties the list |
| RetirementProofs.DropPendingKeepsCore | src/buffer/isz_buffer.c:443-450 | server teardown keeps accounting and conservation and empties the list |
| RetirementEngine.Engine.UnrefBuffer | src/buffer/isz_buffer.c:124-174 | the buffer is gone if and only if its count was 1, and then it has left the list it was on and both lists are rings; otherwise its count falls by one; no other buffer changes |
| RetirementEngine.Engine.MoveToPending | src/backend/isz_drm_event.c:112-124 | taking a reference for the new list and dropping the old list's leaves the count as it was and the node linked |
| RetirementEngine.Engine.ImportNew | src/buffer/isz_buffer.c:46-108 | a new buffer has one owner, no fence and a node on no list |
| RetirementEngine.Engine.ReleaseAndDrop | src/buffer/isz_buffer.c:110-174 | whoever names the buffer marks it released and drops one reference, without having to own it; if the last reference was a list's, the buffer leaves the list and its retirement is lost |
| RetirementEngine.Engine.FlipOne | src/backend/isz_drm_event.c:109-125 | one entry: handed over, released or let go, with its flags and reference |
| RetirementEngine.Engine.PageFlipHandler | src/backend/isz_drm_event.c:86-126 | the handler, over the linked lists, is the page-flip step, whose outcome in every state is `RetirementOutcomes.FlipEndsCommit`, and the links stay two rings |
| RetirementEngine.Engine.PollOutFences | src/buffer/isz_buffer.c:402-435 | the polling loop over the linked list is the poll step |
| RetirementEngine.Engine.DropInFlightReleases | src/backend/isz_drm_event.c:64-76 | the loop drops every in-flight entry |
| RetirementEngine.Engine.ReleaseDestroy | src/buffer/isz_buffer.c:437-451 | the loop drops every pending entry |
| RetirementEngine.Engine.DestroyBackend | src/backend/isz_drm.c:1068-1091 | drains the in-flight list and closes the backend |
| RetirementEngine.Engine.AtomicCommit | src/backend/isz_drm_atomic.c:585-650 | a refused or test-only commit queues nothing; an accepted one retires the replaced buffer, and breaks the lists if its node was linked |
| RetirementEngine.Engine.DrmCommit | src/backend/isz_drm.c:1019-1040 | refused without master or atomic support; test-only finishes at once |
| RetirementEngine.Engine.CommitBackend | src/backend/isz_backend.c:89-120 | the concrete commit runs only from READY; a failed or test-only commit changes nothing; success leaves COMMITTING; all error codes |
| RetirementEngine.Engine.ResumeAfterVt | src/backend/isz_drm.c:309-347 | VT resume is the drop step followed by one commit step for each output, whatever the outputs replace |
| ReleaseList.PushBack | src/util/isz_list.h:35-49 | a free node extends the ring and leaves the other list alone; a node of the other list destroys that list; a node of this list destroys this one |
| ReleaseList.PopFront | src/util/isz_list.h:67-75 | the first node leaves self-linked and the rest is a ring; an empty list yields nothing |
| ReleaseList.Remove | src/util/isz_list.h:57-64 | the ring closes around the node, wherever it is; a self-linked node is left as it is |
| ReleaseLinks.Push | src/util/isz_list.h:46-49 | a free node leaves two rings with it at the end of one; after a linked node the two sentinels head no pair of rings at all |
| ReleaseLinks.Pop | src/util/isz_list.h:67-75 | the first node leaves and every node on neither list is self-linked |
| ReleaseLinks.Detach | src/util/isz_list.h:57-64 | the node leaves whichever of the two lists it is on, and both stay rings |
| ReleaseLinks.Links.PushFlight | src/backend/isz_drm_atomic.c:631-636 | the unguarded push appends the buffer, and keeps the two rings if and only if the buffer was on neither list |
| ReleaseLinks.Links.PushPending | src/backend/isz_drm_event.c:116-118 | the same for the pending list |
| ReleaseLinks.Links.PopFlight | src/backend/isz_drm_event.c:108-111 | the first buffer in flight, on no list afterwards |
| ReleaseLinks.Links.PopPending | src/buffer/isz_buffer.c:411-413 | the first pending buffer, on no list afterwards |
| ReleaseLinks.Links.Free | src/buffer/isz_buffer.c:148-153 | the buffer leaves whichever list it is on, the order of the others is kept, and its node goes with it |
| Surfaces.EveryScene | src/render/isz_surface.c:94-188 | in every run from start-up of attaches, detaches, commits, sound client destroys and foreign steps the slots own what they name, nothing is freed too early, and the current buffer was never retired |
| Surfaces.DestroyKeepsSceneInvIff | src/isz_client_dispatch.c:844-864 | a BUFFER_DESTROY keeps a scene sound if and only if the id is not registered, or the buffer is allocated, a slot that names it is not its only owner, and the reference is a holder's or a list's last |
| ClientBuffers.DestroyIsSoundIff | src/isz_client_dispatch.c:584-592 | as the slots hold every reference outside the lists, destroying a registered buffer is sound if and only if it has left the slots and a list still has it |
| ClientBuffers.DestroyFaults | src/isz_client_dispatch.c:861-863 | a reachable scene in which destroying a replaced buffer faults, whether before or after the next attach |
| ClientBuffers.CountingRepairs | src/isz_client_dispatch.c:584-592 | with a reference taken at registration every run is sound and every registered buffer allocated, whatever the client destroys |
| ReleasedMarks.SparedFollows | src/buffer/isz_buffer.c:379-451 | a step that does not name a buffer sets its released mark only if a retirement of it ends and, with a server, whenever one does |
| Replacements.ReleasesPerReplacement | src/render/isz_surface.c:155-165 | in every run, whatever client and callers do, each event that retires a buffer is one release of it, sent, lost or owed; with none lost or owed it is released at most once if and only if at most one event retired it, and once if and only if one did |
| Replacements.RetiredOnceIffUnmarked | src/backend/isz_drm_atomic.c:362-367 | with a server, in every run until a freed buffer is touched, client destroys included, the replaced buffer is retired at most once until the next attach if and only if no commit retires it while it is marked released |
| Replacements.EveryWrittenScene | src/isz_client_dispatch.c:844-864 | in every run until a freed buffer is touched the books of both slots are right: the slot's reference is there, or a client destroyed it and cannot name it again |
| ReplacementScenes.TwoReleasesForOneReplacement | src/render/isz_surface.c:155-165 | a reachable scene in which a buffer was replaced once and released twice |
| ReplacementScenes.ShownAndNeverReleased | src/render/isz_surface.c:155-188 | reachable scenes in which a buffer was shown, is gone by two attaches or a detach, and was never released |
| SlotAccounts.NothingLeaks | src/render/isz_surface.c:94-188 | in every run in which nobody else holds or drops a buffer, the references outside the lists and the cache are exactly the slots that name it, and it is allocated if and only if a slot, a list or the cache has it |
| SlotAccounts.AttachMoves | src/render/isz_surface.c:140-175 | after an attach the new buffer is current and the old current one is the replaced one; only a client registers it |
| SlotAccounts.DetachMoves | src/render/isz_surface.c:94-188 | a detach empties the current slot only, a destroy both |
| SlotAccounts.ShowRetiresReplaced | src/backend/isz_drm_atomic.c:354-370 | a commit of the surface retires the replaced buffer if and only if it succeeds, is no test and something is shown |
| SlotAccounts.ShowFaultsIff | src/backend/isz_drm_atomic.c:354-370 | a commit of the surface faults if and only if it reaches the planes with a freed current buffer or retires a freed or linked one |
| SurfaceSlots.Surface.AttachBuffer | src/render/isz_surface.c:140-175 | the swap of the two slots with its release, and the registration of a client's buffer; a failed import changes nothing |
| SurfaceSlots.Surface.DetachBuffer | src/render/isz_surface.c:177-188 | drops the current buffer and keeps the replaced one; that the reference goes is `SlotAccounts.NothingLeaks`, where the slots stand is `SlotAccounts.DetachMoves` |
| SurfaceSlots.Surface.DestroySurface | src/render/isz_surface.c:94-123 | drops both buffers |
| SurfaceSlots.Surface.CommitSurface | src/backend/isz_drm_atomic.c:354-370 | the commit retires the replaced buffer if there is a current one |
| SurfaceSlots.Surface.BufferDestroy | src/isz_client_dispatch.c:844-864 | an unknown id changes nothing; otherwise the object goes and one reference with it |
| ImportCache.FindableIffNoGap | src/buffer/isz_buffer.c:197-217 | every cached fd is found if and only if no empty slot lies between a key's home and its slot |
| ImportCache.LookupIsMapLookup | src/buffer/isz_buffer.c:197-217 | lookup is map lookup, for any hash |
| ImportCache.InsertIsMapUpdate | src/buffer/isz_buffer.c:219-248 | insert is map update and keeps the table working; refused if and only if the table is full and the fd is new |
| ImportCache.EvictIsMapRemovalIff | src/buffer/isz_buffer.c:250-304 | evict as written removes exactly the fd and leaves a working table if and only if the fd is absent or the next slot is empty |
| ImportCache.EvictLosesAnotherFd | src/buffer/isz_buffer.c:282-303 | otherwise all other pairs are still stored and at least one cannot be found |
| ImportCache.ShiftNeverRepairs | src/buffer/isz_buffer.c:282-303 | once the hole lies on a probe path, no later pass of the loop repairs the table |
| CacheWalks.LookupEndsAt | src/buffer/isz_buffer.c:197-217 | on any table a lookup ends at a slot if and only if the slot has the fd and every slot before it on the way from home has another one |
| CacheWalks.InsertTakes | src/buffer/isz_buffer.c:219-248 | on any table an insert takes the slot that is empty or has the fd, all before it having others, and changes no other |
| CacheWalks.EvictWalks | src/buffer/isz_buffer.c:250-304 | the victim is emptied, and pass after pass the entry i slots behind the hole stays if it is at least as far from home as from the hole, else moves into the hole; the walk ends at an empty slot or after pass 31 |
| CacheWalks.WalkIsUnique | src/buffer/isz_buffer.c:282-303 | every walk by these rules that has ended, ends with the table evict leaves |
| CacheWalks.EvictOfAbsent | src/buffer/isz_buffer.c:250-268 | an fd that a lookup does not find changes nothing |
| CacheWalks.EvictingThreeLosesFive | src/buffer/isz_buffer.c:290-303 | with the code's hash and fds 3, 35 and 5: evicting 3 passes over 35 and moves 5 before its home, where it is lost |
| Backshift.RemoveIsMapRemoval | src/buffer/isz_buffer.c:270-280 | the back-shift the comments describe removes exactly the fd from every working table, full or not, for any hash |
| Backshift.MoveLowersCost | src/buffer/isz_buffer.c:279-280 | every move brings an entry nearer to its home, so the back-shift ends |
| BufferCache.EvictDropsOneRef | src/buffer/isz_buffer.c:270-303 | evict as written drops exactly the victim's reference |
| BufferCache.InsertTakesOneRef | src/buffer/isz_buffer.c:229-242 | insert takes one reference and drops the one it replaces |
| BufferCache.RoomMeetsProbe | src/buffer/isz_buffer.c:197-248 | on any table the slot an insert takes is the one a lookup finds, if it finds one |
| BufferCache.EvictingThreeLoses35 | src/buffer/isz_buffer.c:180-185 | with the code's hash: two inserts, one evict, and the other fd can no longer be found |
| BufferCache.RemovingThreeKeeps35 | src/buffer/isz_buffer.c:279-280 | the described back-shift keeps it |
| BufferCache.Cache.Get | src/buffer/isz_buffer.c:197-217 | on any table what the probe path leads to; in a working one the cached buffer or none |
| BufferCache.Cache.Put | src/buffer/isz_buffer.c:219-248 | on any table the new slots, the displaced buffer and the count; in a working one map update, refused if and only if the table is full and the fd is new |
| BufferCache.Cache.EvictAsWritten | src/buffer/isz_buffer.c:250-304 | on any table the as-written result, whose passes are those of `CacheWalks.EvictWalks`, the count and the dropped buffer; a working one still works afterwards if and only if nothing followed the victim |
| BufferCache.Cache.EvictAsMeant | src/buffer/isz_buffer.c:250-280 | the described algorithm is map removal and keeps the cache valid |
| BufferCache.Cache.Destroy | src/buffer/isz_buffer.c:306-318 | drops exactly the references the slots of any table held and leaves a working empty cache |
| BufferCache.Cache.constructor | src/buffer/isz_buffer.c:187-195 | an initialised cache stands for the empty map |
| CacheAccounting.PutIsCacheInsert | src/buffer/isz_buffer.c:219-248 | with the slots' references equal to the protocol's cached ones, an insert is the insert step with the displaced buffer: its obligation holds and the two stay equal |
| CacheAccounting.EvictIsCacheEvict | src/buffer/isz_buffer.c:250-304 | the same for evict as written and the evict step, even where the table stops working |
| Bytes.RoundTrip16 | x11bridge/x11_proto.c:34-60 | reading back a written 16-bit integer, in both byte orders |
| Bytes.RoundTrip32 | x11bridge/x11_proto.c:41-74 | reading back a written 32-bit integer, in both byte orders |
| Bytes.U16OnTheWire | x11bridge/x11_proto.c:34-39 | the first byte counts 256 fold most significant first, the second one otherwise |
| Bytes.U32OnTheWire | x11bridge/x11_proto.c:41-50 | the same for four bytes |
| Bytes.Pad4 | x11bridge/x11_proto.c:76-78 | the least multiple of four that is not smaller |
| RequestStream.ChunkingDoesNotMatter | x11bridge/x11_client.c:3036-3099 | however a stream is cut into reads, the dispatched requests are those of the greedy parse of the whole stream up to the first bad length or refused request |
| RequestStream.EveryByteIsAccountedFor | x11bridge/x11_client.c:3066-3097 | while the connection lives, received bytes are dispatched bytes followed by leftover, and the leftover never fills the buffer |
| RequestStream.RequestsAreWhole | x11bridge/x11_client.c:3068-3088 | every dispatched request has 4 to 16384 bytes, as many as the parser takes its header to state; `RequestBytes.DispatchedAreFramed` says it of bytes 2 and 3 |
| RequestBytes.StatedIsField | x11bridge/x11_client.c:3068-3079 | the length is four times bytes 2 and 3 in the client's byte order, and bad if and only if that field is 0 or above 4096 |
| RequestBytes.DispatchedAreFramed | x11bridge/x11_client.c:3068-3088 | every dispatched request is as long as bytes 2 and 3 of its own header say |
| RequestBytes.FirstRequest | x11bridge/x11_client.c:3066-3088 | a request at the front of any stream is dispatched first, and the rest is parsed if it is accepted |
| RequestBytes.BuiltIsFramed | x11bridge/x11_client.c:3068-3079 | opcode, data, the unit count in either byte order and a body of whole units are a request |
| RequestBytes.BadHeaderKills | x11bridge/x11_client.c:3071-3079 | a length of 0 or above 16384 bytes ends the connection with nothing dispatched |
| RequestBytes.PartialWaits | x11bridge/x11_client.c:3068-3083 | part of a request is kept and nothing is dispatched |
| RequestBytes.RequestsArrive | x11bridge/x11_client.c:3036-3099 | a stream of accepted requests, however it is cut, is dispatched as exactly those requests with nothing left |
| RequestBytes.FourBytesAreOneRequest | x11bridge/x11_client.c:3070-3075 | GetInputFocus least significant byte first is one request of four bytes |
| RequestStream.GreedyContinues | x11bridge/x11_client.c:3066-3097 | more bytes continue an open parse exactly where it stopped and never revive a dead one |
| RequestStream.Client.ParseRequests | x11bridge/x11_client.c:3066-3088 | the parsing loop over the buffer is the greedy parse, whose first request and length field are those of `RequestBytes.FirstRequest` |
| RequestStream.Client.ShiftDown | x11bridge/x11_client.c:3090-3097 | the remainder moves to the front unchanged |
| RequestStream.Client.DrainSocket | x11bridge/x11_client.c:3036-3099 | one drain is one step of the parse, so the requests sent are the requests dispatched (`RequestBytes.RequestsArrive`); end of stream, errors and a full buffer refuse and change nothing; success leaves room |
| Properties.ChangeKeepsWellFormed | x11bridge/x11_client.c:1183-1260 | at most 16 properties, each a whole number of units and at most 4096 bytes, after any change |
| Properties.EveryStoreIsWellFormed | x11bridge/x11_client.c:1154-1528 | the same after any sequence of requests |
| Properties.ChangedReadsBack | x11bridge/x11_client.c:1209-1255 | after a change, reading in chunks gives the data set, before or behind the old value, and no other atom moved |
| Properties.ScreenOutcome | x11bridge/x11_client.c:1154-1192 | the error of a request with a bad format, atom 0, too little data or too much, by the bytes per unit of its format |
| Properties.ChangeOutcome | x11bridge/x11_client.c:1200-1260 | any other change succeeds exactly if there is a slot, the mode is known or the property new, type and format agree and the value fits; then it is the data, or the data before or behind the old value |
| Properties.QueryOutcome | x11bridge/x11_client.c:1281-1342 | a property is read if and only if it is there and the type asked for is 0 or its own, from the offset and no longer than asked |
| Properties.RemovalOutcome | x11bridge/x11_client.c:1281-1528 | a delete takes exactly its property; a read takes it if and only if it asks to and leaves nothing behind |
| Properties.UnknownModeRefusedIff | x11bridge/x11_client.c:1209-1260 | an unknown mode is refused if and only if the property exists |
| Properties.UnknownModeStores | x11bridge/x11_client.c:1209-1233 | mode 7 on a window without properties stores the data |
| Properties.PartIsExact | x11bridge/x11_client.c:1325-1342 | skipped plus returned plus remaining bytes are the value; the unit count is exact; the reply fits its buffer |
| Properties.ChunksReassemble | x11bridge/x11_client.c:1325-1370 | for every value and positive chunk length the chunks concatenate to the value, and with the delete flag the property is then gone |
| PropertyTable.MemMove | x11bridge/x11_client.c:1248-1251 | an overlapping move as if through a copy |
| PropertyTable.Extend | x11bridge/x11_client.c:1237-1255 | growing in place yields data before or behind the old value |
| PropertyTable.FullIffAllUsed | x11bridge/x11_client.c:464-471 | there is no free slot if and only if the map has 16 entries |
| PropertyTable.Window.Find | x11bridge/x11_client.c:453-461 | finds the slot of an atom if and only if it is stored |
| PropertyTable.Window.Allocate | x11bridge/x11_client.c:464-471 | finds a free slot if and only if fewer than 16 are stored |
| PropertyTable.Window.ChangeProperty | x11bridge/x11_client.c:1154-1260 | the error code and the new store of every change; errors change nothing; atoms stay unique |
| PropertyTable.Window.DeleteProperty | x11bridge/x11_client.c:1496-1528 | removes exactly that atom; atom 0 is an error |
| PropertyTable.Window.GetProperty | x11bridge/x11_client.c:1281-1372 | the slice of the stored value, and deletion with the last one |
| PropertyTable.ReplyReadsBack | x11bridge/x11_proto.c:261-283 | the reply bytes fit the buffer and decode to the slice, in both byte orders |
| PropertyTable.ReplyHead | x11bridge/x11_proto.c:261-283 | a client reads back kind 1, the format and the sequence number |
| PropertyTable.BuildReply | x11bridge/x11_proto.c:261-283 | writes exactly the reply, or nothing into a buffer that is too small |
| Raster.RasterLaw | x11bridge/x11_client.c:1884-1927 | after any run of clears each image point shows the latest background painted over it, else the pixel that was put |
| Raster.PixelsApart | x11bridge/x11_client.c:1922-1924 | different pixels share no byte |
| Raster.ClearReaches | x11bridge/x11_client.c:1909-1921 | a clear reaches a point if and only if the point is at or behind its corner and within its width and height, 0 standing for the edge of the image |
| Raster.InsideIff | x11bridge/x11_client.c:1918-1923 | a point is painted and shown if and only if it is in the image and all of its bytes are stored |
| RasterWindow.PaintRect | x11bridge/x11_client.c:1906-1927 | the loops paint exactly the covered image points, zero width or height reaching to the edge, and change no other byte |
| RasterWindow.CopyRect | x11bridge/x11_client.c:2081-2097 | every reply pixel shows the image point under it or zero |
| RasterWindow.HeaderReadsBack | x11bridge/x11_client.c:2069-2075 | a client reads back kind, depth, sequence number, length in units, visual and zeros |
| RasterWindow.Window.PutImage | x11bridge/x11_client.c:1785-1866 | replaces the image, or reports the error and changes nothing |
| RasterWindow.Window.ClearArea | x11bridge/x11_client.c:1884-1927 | records and paints one clear if the image is a 24-bit ZPixmap |
| RasterWindow.Window.GetImage | x11bridge/x11_client.c:2009-2107 | an unknown format is refused; otherwise at every reply pixel the latest background over that point, else the put pixel, else zero; exact header and length |
| WindowTree.ChildrenAreSubtreeIff | x11bridge/x11_client.c:1095-1122 | direct children are the whole subtree if and only if there are no grandchildren |
| WindowTree.GrandchildSurvives | x11bridge/x11_client.c:1113 | a three-window chain whose grandchild survives |
| WindowTree.DestroyAsWritten | x11bridge/x11_client.c:1068-1125 | removes exactly the window and its direct children; meets the promise if and only if there are no grandchildren; an unknown id changes nothing |
| WindowTree.DestroyAsMeant | x11bridge/x11_client.c:1095-1105 | a terminating fixpoint that removes exactly the window and every window whose parent chain reaches it |
| WindowTree.NothingLeft | x11bridge/x11_client.c:1103-1105 | once no window in use has a destroyed parent, the whole subtree is gone |
| WindowTree.FindWindow | x11bridge/x11_client.c:183-191 | the first slot in use with the id |
| AtomNames.RankOfName | x11bridge/x11_atoms.c:44-113 | the 68 predefined names are told apart, so they are pairwise different |
| AtomNames.WellKnownTypes | x11bridge/x11_atoms.c:44-113 | the atoms of the types that clients have compiled in, spelt out |
| AtomNames.WellKnownProperties | x11bridge/x11_atoms.c:44-113 | the same for the names of window properties |
| AtomNames.WellKnownHints | x11bridge/x11_atoms.c:44-113 | the same for the hints |
| Atoms.TablesOnlyGrow | x11bridge/x11_atoms.c:148-201 | in every run ids are 69 plus the position in 32 bits, names stay different, and no entry changes |
| Atoms.InternThenName | x11bridge/x11_atoms.c:148-234 | an interned name's atom is not 0 and leads back to the name if and only if the name is predefined or its place comes before the 32-bit counter wraps |
| Atoms.NameThenIntern | x11bridge/x11_atoms.c:148-234 | interning the name of an atom returns the atom and adds nothing |
| Atoms.OnlyIfExists | x11bridge/x11_atoms.c:148-201 | asking only for what exists adds nothing, and a name nobody interned answers 0, as the empty name always does |
| Atoms.NewNameIsAdded | x11bridge/x11_atoms.c:148-201 | a new name is appended with the next atom |
| Atoms.PredefinedAtom | x11bridge/x11_atoms.c:148-201 | a predefined name has its place in the list, counted from 1 |
| Atoms.SameAtomIffSameName | x11bridge/x11_atoms.c:148-201 | two interns with any run between them give equal names the same atom, and different names different atoms while both fit the counter |
| Atoms.AtomsRunOut | x11bridge/x11_atoms.c:193-200 | after 2^32 - 69 new names of 52 characters the next one is stored under atom 0 |
| Atoms.Registry.InternAtom | x11bridge/x11_atoms.c:148-201 | the scans and the growing array compute intern |
| Atoms.Registry.GetName | x11bridge/x11_atoms.c:203-234 | the true length and the prefix that fits the caller's buffer |
| Framing.DecodeEncode | src/protocol/isz_protocol.c:50-113 | a frame at the front of any stream decodes to its message |
| Framing.DecodeAllEncodeAll | src/protocol/isz_protocol.c:50-113 | a stream of frames decodes to the messages that were framed |
| Framing.FrameLayout | src/protocol/isz_protocol.c:50-81 | length and id least significant byte first, then the payload |
| Framing.DecodeRefusals | src/protocol/isz_protocol.c:83-113 | malformed if and only if the length is below 4 or above 8188, incomplete if and only if it is sound and bytes are missing |
| SendQueue.OrderIsKept | src/protocol/isz_conn.c:129-217 | in every run accepted frames are the frames on the wire followed by the queue, the queue is bounded by 1024, the wire only grows and dead is permanent |
| SendQueue.PeerDecodesWhatWasSent | src/protocol/isz_conn.c:129-217 | in every run the peer decodes exactly the first accepted messages, in order, and all of them once the queue is empty |
| SendQueue.DrainOutcome | src/protocol/isz_conn.c:190-217 | with k the smaller of the queue and the leading complete writes, a drain puts exactly the first k frames on the wire and keeps the others; Ok if and only if none is left, Disconnected and dead if and only if the next write fails, else Pending |
| SendQueue.SendOutcome | src/protocol/isz_conn.c:129-188 | a message that fits is written at once if nothing waits, else goes behind what waits; TooSlow if and only if 1024 frames wait |
| SendQueue.SendRefusals | src/protocol/isz_conn.c:129-150 | a dead connection and an oversized message are refused and change nothing |
| SendQueue.Conn.Append | src/protocol/isz_conn.c:175-187 | the new node is last, tail is the last node and the count is the length |
| SendQueue.Conn.SentHead | src/protocol/isz_conn.c:208-214 | the head leaves, head and tail stay the ends of the chain |
| SendQueue.Conn.SendMessage | src/protocol/isz_conn.c:129-188 | direct send, queueing, overflow, failure and every error code |
| SendQueue.Conn.DrainQueue | src/protocol/isz_conn.c:190-217 | writes the longest prefix of the queue the socket takes, keeps the rest, and answers Ok, Pending or Disconnected accordingly, without naming the step function |
| ObjectTable.IdsAreNeverReused | src/protocol/isz_conn.c:222-274 | with fewer than 2^32 - 1 registrations the n-th gets id n, which is free, and lookup finds exactly the live objects of that kind |
| ObjectTable.TableIsLiveMap | src/protocol/isz_conn.c:222-274 | the table is the map of live objects by registration number, despite swap-with-last removal |
| ObjectTable.RegisterRefinesIff | src/protocol/isz_conn.c:237-245 | a registration keeps ids distinct if and only if its id is free |
| ObjectTable.NextIdIs | src/protocol/isz_conn.c:237-240 | in every run the next id is the number of registrations modulo 2^32 - 1, plus 1 |
| ObjectTable.IdsIncreaseIff | src/protocol/isz_conn.c:237-240 | ids are registration numbers if and only if there were fewer than 2^32 - 1 |
| ObjectTable.WrapReusesLiveId | src/protocol/isz_conn.c:237-240 | with one object kept and 2^32 - 2 others coming and going the next id is the one in use, and the new entry cannot be looked up |
| ObjectTable.Objects.RegisterObject | src/protocol/isz_conn.c:222-247 | the next id and the appended entry, or 0 and nothing when the table cannot grow |
| ObjectTable.Objects.LookupObject | src/protocol/isz_conn.c:249-260 | the handle of the first entry with that id if the kind agrees |
| ObjectTable.Objects.UnregisterObject | src/protocol/isz_conn.c:262-274 | removes that entry by moving the last one into its place |
| Consent.GrantSurvives | src/isz_capture_consent.c:88-156 | a grant checks true at any reading before its own plus 60s if the clock never goes back and fewer than 32 other keys are granted from its reading on |
| ConsentBound.BoundIsExact | src/isz_capture_consent.c:97-113 | with exactly 32 other keys granted at the same reading the first grant no longer checks true |
| ConsentBound.GrantIsValid | src/isz_capture_consent.c:120-156 | in every run a grant to a server's output of kind 0, 1 or 2 checks true from its reading on for 60s |
| ConsentBound.OthersAreRefused | src/isz_capture_consent.c:120-156 | without server or output, or with another kind, nothing is granted, allowed or changed |
| ConsentBound.CheckOutcome | src/isz_capture_consent.c:141-156 | a check reclaims exactly the expired slot of its key |
| Consent.NoConsentWithoutGrant | src/isz_capture_consent.c:138-156 | nothing is allowed without a grant of that very key less than 60s before |
| Consent.LiveGrantIsSpared | src/isz_capture_consent.c:97-113 | a live grant of another key is not evicted while a slot is free or expired |
| Consent.KeysStayDistinct | src/isz_capture_consent.c:88-136 | in every run the used slots have different keys |
| Consent.Registry.Find | src/isz_capture_consent.c:88-114 | the key's slot, else the first free one, else the one nearest to expiry |
| Consent.Registry.GrantConsent | src/isz_capture_consent.c:120-136 | the new table and the error code of a grant |
| Consent.Registry.CheckConsent | src/isz_capture_consent.c:141-156 | whether a grant is live, and reclaiming of an expired one |
| Tiling.ExactTiling | tinyisz/layout.c:42-58 | with at least two windows every output point lies in exactly one window |
| Tiling.TilesStayInside | tinyisz/layout.c:42-58 | no window reaches beyond the output |
| Tiling.OutputCoveredIff | tinyisz/layout.c:42-58 | the output is covered if and only if there are at least two windows |
| Tiling.FocusedOnTop | tinyisz/layout.c:59-61 | z-positions are pairwise different and the focused window is strictly on top |
| Tiling.LookupFindsTile | tinyisz/window.c:92-102 | point lookup returns the one window whose tile holds the point |
| Tiling.OneFocusInEveryRun | tinyisz/window.c:17-90 | in every run exactly one window has the flag, the one at the focus index, or there is none |
| Tiling.AddPutsFirst | tinyisz/window.c:30-45 | add puts the new window first, focuses it and keeps the others' order |
| Tiling.RemoveDropsFocused | tinyisz/window.c:47-61 | remove drops only the focused window and focuses the master |
| Tiling.CycleUndoes | tinyisz/window.c:80-90 | cycling by d moves the focus to (index + d) mod count, and by -d back |
| Desktop.EveryDeskIsTidy | tinyisz/input.c:71-181 | in every run the geometry is the layout of the current list, with one focused window and a ratio of 20 to 80 |
| Desktop.FocusFollowsPointer | tinyisz/input.c:117-147 | after any run that ends with a pointer motion over at least two windows, the focused window holds the pointer and is on top |
| DeskOutcomes.CycleKeys | tinyisz/input.c:87-88 | Super+J and Super+K move the focus one on and one back round the list and nothing else |
| DeskOutcomes.RatioKeys | tinyisz/input.c:89-90 | Super+H and Super+L take and give the master five percent between 20 and 80 |
| DeskOutcomes.NumberKeys | tinyisz/input.c:92-95 | Super+1 to Super+9 focus the window of that number, or the last |
| DeskOutcomes.ShiftKeys | tinyisz/input.c:78-84 | Super+Shift+Q takes out the focused window and focuses the first; Super+Shift+Esc asks to quit |
| DeskOutcomes.OtherKeys | tinyisz/input.c:71-97 | every other key, a release, and any key without Super change nothing |
| DeskOutcomes.PointerEnds | tinyisz/input.c:117-136 | the pointer ends at the point of the output nearest to where the motion takes it |
| DeskOutcomes.ConnectOutcome | tinyisz/input.c:166-172 | a client's window comes first and has the focus; none without an output or with 32 windows |
| DeskOutcomes.DisconnectOutcome | tinyisz/input.c:174-181 | a client that goes takes exactly the focused window with it |
| DeskOutcomes.MasterPlace | tinyisz/layout.c:42-51 | the master is at the left edge, full height, with its percentage of the width |
| DeskOutcomes.StackPlace | tinyisz/layout.c:43-57 | the stack is right of the master to the edge, in equal heights, the last down to the bottom |
| DeskOutcomes.RetilePlaces | tinyisz/layout.c:47-61 | a retile gives every window its place and depth and keeps surface and flag |
| WindowManager.Manager.FocusAt | tinyisz/window.c:70-78 | clamps the index and moves the flag |
| WindowManager.Manager.AddWindow | tinyisz/window.c:17-45 | append and rotate; refused when full |
| WindowManager.Manager.RotateToFront | tinyisz/window.c:36-41 | the last window comes first, the others move up by one |
| WindowManager.Manager.RemoveFocusedWindow | tinyisz/window.c:47-61 | compaction removes the focused window |
| WindowManager.Manager.CycleFocus | tinyisz/window.c:80-90 | the loop computes the Euclidean remainder |
| WindowManager.Manager.WindowAt | tinyisz/window.c:92-102 | the first window that contains the point |
| WindowManager.Manager.Retile | tinyisz/layout.c:33-65 | the loop assigns every window its place and depth |
| WindowManager.Manager.KeyEvent | tinyisz/input.c:71-97 | every key binding, including the retile after it |
| WindowManager.Manager.PointerMotion | tinyisz/input.c:117-147 | clamping and focus follows mouse |

## Left out

- Property building for KMS, EDID, libinput, libseat, xkbcommon, PSI, epoll and signals: only their answers matter here and they are inputs.
- Rendering and outputs: the surfaces have their buffer slots only, one surface at a time with everybody else's steps around it.
- Reuse of a freed buffer's address: buffers are named by their import, and a new one has a new name.
- The setup handshake of an X11 client and of an Ishizue connection: the models start after it.
- The other X11 requests (fonts, cursors, colormaps, selections, pointer queries, event delivery): they keep little state between requests.
- Decoding of the fixed part of X11 requests and the window lookup in front of each handler: the handlers take decoded fields of a window that exists.
- PutImage and GetImage on the root window and on pixmaps: the first discards, the second answers zeros.
- Allocation failure, except where it is an error result of the operation (object table, outbound queue).
- File descriptors carried by queued frames and by buffers.
- ReleaseLinks.Links.PushFlight: once a linked node was pushed, nothing is said about later operations on the broken lists.
- Consent.GrantSurvives: readings are assumed far enough from the end of 64 bits that adding the timeout does not wrap, which the model itself does.
- Tiling.ExactTiling: integers are unbounded, so products of output width and ratio do not overflow.
- Desktop.FocusFollowsPointer: pointer coordinates are whole numbers already; the truncation of the device's floating-point values is an input.
- RetirementTheorems.EveryReachableState: late page-flip events from before a VT resume are not told apart, as in the code.
- WindowTree.DestroyAsMeant: is what the comments promise, not what the code does.
- Backshift.RemoveIsMapRemoval: is about the back-shift the comments promise, not the code's.
- BufferCache.Cache.EvictAsMeant: is what the comments promise, not what the code does.
