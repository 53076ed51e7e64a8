# Verified model of pixelflux's capture pipeline and the machinery around it

pixelflux captures a Wayland desktop, encodes it and hands the stream to browser clients. This
project models its parts that carry state across threads and across requests, and a few
self-contained algorithms, and proves what they keep over every run.

Every module follows one pattern. Functions over a value describe what each operation does, a
class holds the program's own fields and does it in place, with each method proved to do what its
function says, and lemmas prove what every sequence or interleaving of the operations keeps.

| file | what it models |
|---|---|
| `FramePool.dfy` | the hand-off of frame buffers between the compositor and the encode thread |
| `HostFrames.dfy` | host compositor buffers on their way through a zero-copy session and back |
| `PartialRedraw.dfy` | buffer ages and content generations: redrawing a stale buffer only where it is stale |
| `EncodeLoop.dfy` | the encode thread's recovery ladder and its keyframe requests |
| `ReadbackSlots.dfy` | the mapped buffers screenshots are read back into and copied from |
| `Layout.dfy` | the registry of outputs and views and its geometry checks |
| `HostLayout.dfy` | reconciling captures with the mode a host compositor runs; parked geometry readers |
| `Relay.dfy` | the bounded per-client relay of the browser example |
| `DistinctRuns.dfy`, `Typing.dfy` | cutting a text into runs; the key events of `type` and `key` |
| `CuRequest.dfy`, `CuHead.dfy`, `Admission.dfy` | the bounded HTTP request reader; what a request head says; screenshot permits |
| `Spdx.dfy`, `Licenses.dfy`, `Closure.dfy` | the license expression parser and evaluator; the dependency closure |
| `GpuFilter.dfy` | the in-place filter over enumerated GPU ids |
| `Options.dfy` | the option type |

Threads are modelled as atomic steps, one for each critical section or atomic access, interleaved
in any order. What the program asks of the outside (the GPU, the damage tracker, the encoder
sessions, the host compositor, the socket, the keymap, clocks) is a parameter that may turn out
any way its documentation allows.

## What the proofs found

- A failed plain readback is still published, and its buffer marked current. So published
  readback frames are the composite exactly in the runs where no such read failed on a buffer that
  showed something else (`PartialRedraw.PublishedIsCurrent`; `LostReadPublishesStale` is a run).
  The comment at `pixelflux/src/lib.rs:4970` promises it without that condition.
- A chord that names right Alt is taken to hold AltGr whatever key the backend's AltGr is, so a
  key on an AltGr level is then struck without it, and types what stands there without AltGr.
  `Typing.ChordTypesWhatItAsks` has the exact condition, and by `Typing.RightAltHidesAltGr` right
  Alt and the euro sign type an e.
- A request head is found for certain only where it ends, terminator included, within one byte
  more than `MAX_CU_HEAD`, and refused for certain only beyond `MAX_CU_HEAD` and one read. In
  between the pieces it came in decide, for every such request (`CuRequest.HeadInBetweenDepends`).
- A restart at the host's mode is the last if and only if the display can follow that mode: it is a
  view, or its target can be had, or its own mode is one the host's is followed at, or the host is
  lost meanwhile (`HostLayout.RestartIsTheLast`). Then clients' starts bound the restarts
  (`OneRestartPerStart`); otherwise every ruling restarts it again, from any such state
  (`UnfollowedRestartsForEver`; `RefusedTargetsRestartForEver` is a run from the beginning).
- The checks that keep a view on its screen add up 32-bit numbers, which wrap in a release build.
  A view's move is accepted and does not wrap if and only if it is to a place on its screen
  (`Layout.MoveAcceptedIffOnScreen`); the default view's move to `x` 2147483647 is accepted
  (`Layout.FarMoveIsAccepted`). In every run the views stay on their screens if and only if no
  such sum wraps and captures are started on their screens (`Layout.RunsInsideExactly`).
- Resizing a screen is not checked against the others, as its documentation says; the screens stay
  apart exactly when the new rectangles are clear of them (`Layout.ResizeApart`, and
  `Layout.ResizeCanOverlap` for two screens side by side).
- Whatever token follows WITH is taken as the exception, so `MIT WITH )` is accepted
  (`Spdx.ParenthesisAsException`). The exceptions of an accepted expression are words if and only
  if a word follows every WITH (`Spdx.ExceptionsArePlainExactly`).

## Model

| member | source | states |
|---|---|---|
| `FramePool.WlFramePool.Of` | pixelflux/src/lib.rs:1265-1277 | the buffers numbered, all free, nothing in the slot |
| `FramePool.WlFramePool.TryBegin` | pixelflux/src/lib.rs:1280-1286 | a buffer is reserved exactly where one is free and nothing is waiting to be taken |
| `FramePool.WlFramePool.Publish` | pixelflux/src/lib.rs:1289-1295 | the frame is in the slot and the reservation gone |
| `FramePool.WlFramePool.Cancel` | pixelflux/src/lib.rs:1298-1301 | a reserved buffer is free again |
| `FramePool.WlFramePool.Take` | pixelflux/src/lib.rs:1304-1317 | the slot's frame, the end after a shutdown with an empty slot, or waiting |
| `FramePool.WlFramePool.Recycle` | pixelflux/src/lib.rs:1320-1323 | a buffer the encode thread is done with is free again |
| `FramePool.WlFramePool.Shutdown` | pixelflux/src/lib.rs:1326-1330 | nothing but the flag changes, a published frame included |
| `FramePool.RunsAreValid` | pixelflux/src/lib.rs:1263-1332 | every interleaving of the two threads keeps the pool's invariant |
| `FramePool.BuffersAreConserved` | pixelflux/src/lib.rs:1263-1332 | free, reserved, slot and the encode thread's hold exactly the buffers there were at the start, each once |
| `FramePool.PublishFindsSlotEmpty` | pixelflux/src/lib.rs:1289-1295 | a frame being filled means the slot is empty, so no published frame is overwritten |
| `FramePool.TakenIsPublished` | pixelflux/src/lib.rs:1304-1317 | the frames taken are those published, in order, missing at most the one in the slot |
| `FramePool.ShutdownDropsNothing` | pixelflux/src/lib.rs:1304-1330 | `take` ends only when everything published was taken |
| `FramePool.FillingNeverSharesABuffer` | pixelflux/src/lib.rs:1263-1332 | the buffer being filled is none the encode thread has or will take |
| `FramePool.BeginExactly` | pixelflux/src/lib.rs:1280-1286 | a buffer is had exactly where one is free and no frame waits, the one returned last |
| `FramePool.BeginNeverStarves` | pixelflux/src/lib.rs:1280-1286 | with two buffers one is always free where no frame waits, in every run |
| `FramePool.PublishExactly` | pixelflux/src/lib.rs:1289-1295 | the reserved buffer is what the next frame holds |
| `FramePool.TakeExactly` | pixelflux/src/lib.rs:1304-1317 | the waiting frame is taken, the end is told only where none waits, and otherwise nothing happens |
| `FramePool.ReturnedComesNext` | pixelflux/src/lib.rs:1298-1323 | a buffer cancelled or recycled is the next one given out |
| `FramePool.ShutdownExactly` | pixelflux/src/lib.rs:1326-1330 | a shutdown touches no buffer |
| `FramePool.FrameGoesRound` | pixelflux/src/lib.rs:1263-1332 | a run in which a frame is published, taken as it was, and its buffer used again |
| `HostFrames.HostCapture.ReleaseHostInflight` | pixelflux/src/lib.rs:2331-2350 | frames whose last reader is done go back, in place, the others stay in order; a detached copy is not the host's |
| `HostFrames.HostCapture.RetainHostFrame` | pixelflux/src/lib.rs:2225-2243 | the replaced frame is put aside with its last reader, and what is done is released |
| `HostFrames.HostCapture.DetachRetainedGpu` | pixelflux/src/lib.rs:2248-2305 | when a still copy is drawn, into which buffer, and what is retained then |
| `HostFrames.HostCapture.CountPublished` | pixelflux/src/lib.rs:5341-5344 | the published count, and the retained frame's last reader where the frame reads it |
| `HostFrames.RunsAreValid` | pixelflux/src/lib.rs:2225-2350 | the invariant of the joint state of pool, encode thread and retained frames over every interleaving, whatever a restarted capture finds retained |
| `HostFrames.HostNeverHoldsAReadBuffer` | pixelflux/src/lib.rs:2331-2350 | no buffer given back to the host is read by a frame the encode thread has or will take |
| `HostFrames.StillNeverDrawnOver` | pixelflux/src/lib.rs:2248-2305 | the buffer a still copy is drawn into is read by no such frame |
| `HostFrames.FreshFrameIsUnread` | pixelflux/src/lib.rs:2225-2243 | a frame the host just delivered is read by no frame in flight |
| `HostFrames.KeptOnlyWhileRead` | pixelflux/src/lib.rs:1903-1905 | what is still kept after a release is read by a published frame not yet counted as recycled |
| `HostFrames.HostBuffersAreConserved` | pixelflux/src/lib.rs:2225-2350 | in every interleaving the host's buffers and those kept of frames that are no copies are those of the start, each in one place |
| `HostFrames.DoneBuffersGoBack` | pixelflux/src/lib.rs:2331-2350 | after a release the host has every buffer of its own that is neither retained nor read by a frame not yet counted as done |
| `HostFrames.AdoptedIsRetained` | pixelflux/src/lib.rs:2225-2243 | what the host delivers is what is retained from then on |
| `HostFrames.StillGivesWayToCopy` | pixelflux/src/lib.rs:2248-2305 | a still host frame gives way to a copy exactly where one can be made |
| `PartialRedraw.WlCapture.RenderPixman` | pixelflux/src/lib.rs:5040-5230 | the ages and the buffer after a software tick, bind and render failures included |
| `PartialRedraw.WlCapture.RenderZeroCopy` | pixelflux/src/lib.rs:4747-4964 | the same for a zero-copy tick, a missed fence included |
| `PartialRedraw.WlCapture.RenderOffscreen` | pixelflux/src/lib.rs:4895-4968 | the offscreen render and the content generation |
| `PartialRedraw.WlCapture.ReadBack` | pixelflux/src/lib.rs:4969-5001 | when the target is read into the pool buffer, and what a failed read leaves |
| `PartialRedraw.WlCapture.RenderReadback` | pixelflux/src/lib.rs:4895-5001 | a readback tick |
| `PartialRedraw.PartialIsFull` | pixelflux/src/lib.rs:4747-4776 | redrawing at a buffer's own age leaves the whole composite |
| `PartialRedraw.PixmanKeeps` | pixelflux/src/lib.rs:5040-5230 | ages stay right, and a tick that succeeds leaves the composite in the buffer |
| `PartialRedraw.ZeroCopyKeeps` | pixelflux/src/lib.rs:4747-4964 | the same for zero-copy |
| `PartialRedraw.OffscreenKeeps` | pixelflux/src/lib.rs:4895-4968 | the target is the composite, or a whole redraw is due; equal generations mean equal pictures |
| `PartialRedraw.ReadbackKeeps` | pixelflux/src/lib.rs:4969-5001 | the published buffer is the composite if and only if its read is not lost |
| `PartialRedraw.PublishedIsCurrent` | pixelflux/src/lib.rs:4747-5230 | in every run every published buffer is the composite of its tick, if and only if no read was lost |
| `PartialRedraw.NoFailedReadNoStaleFrame` | pixelflux/src/lib.rs:3636-3647 | so a run in which every read of the target succeeds publishes only composites |
| `PartialRedraw.OwnBuffersNeverSpoil` | pixelflux/src/lib.rs:4747-5230 | software and zero-copy captures need no condition |
| `PartialRedraw.LostReadPublishesStale` | pixelflux/src/lib.rs:4996-5000 | a run that publishes a buffer never filled |
| `PartialRedraw.AgesCount` | pixelflux/src/lib.rs:4747-4776 | in every run the sequence numbers count the renders since a buffer last took one |
| `PartialRedraw.WholeRedrawDueExactly` | pixelflux/src/lib.rs:4895-5230 | a partial redraw is allowed exactly where a render succeeded and nothing since has disturbed or lost one |
| `PartialRedraw.RenderedAtItsAge` | pixelflux/src/lib.rs:4747-4776 | so everything is redrawn exactly for an animation, a redraw due, or a buffer with nothing to build on, and otherwise no older content than the buffer's own is made up for |
| `PartialRedraw.PublishedExactly` | pixelflux/src/lib.rs:4747-5230 | a tick publishes its buffer, and only that, exactly where neither render, fence nor checked read fails |
| `PartialRedraw.FilledIsCurrent` | pixelflux/src/lib.rs:4969-5001 | a readback tick that succeeds leaves its buffer current |
| `PartialRedraw.StillScreenIsReadOnce` | pixelflux/src/lib.rs:4996-5000 | as long as nothing is drawn a current buffer is not read into again |
| `PartialRedraw.RebuiltExactly` | pixelflux/src/lib.rs:2580-2690 | what a move, a rebuilt tracker and a rebuilt pool leave of the bookkeeping, in every run |
| `EncodeLoop.EncodeThread.RequestIdr` | pixelflux/src/lib.rs:1856-1857 | the flag armed, from either thread |
| `EncodeLoop.EncodeThread.TakeBack` | pixelflux/src/lib.rs:1659-1665 | a session taken back by a restart |
| `EncodeLoop.EncodeThread.Prepare` | pixelflux/src/lib.rs:1680-1717 | a failed rate change and a refused report |
| `EncodeLoop.EncodeThread.TakeRequest` | pixelflux/src/lib.rs:1718-1722 | the flag swapped out, a joining recorder asked where it is clear |
| `EncodeLoop.EncodeThread.BeginPass` | pixelflux/src/lib.rs:1656-1722 | a zero-copy thread without a session ends; a failed rate change fills the streak; the request is taken |
| `EncodeLoop.EncodeThread.Recover` | pixelflux/src/lib.rs:1803-1872 | a rebuild first, a demotion after it; what it leaves of session, streak and request |
| `EncodeLoop.EncodeThread.Encode` | pixelflux/src/lib.rs:1755-1874 | an encode resets the ladder, the thirtieth failure climbs it |
| `EncodeLoop.EncodeThread.EncodeStriped` | pixelflux/src/lib.rs:1877-1900 | the software path has no ladder |
| `EncodeLoop.EncodeThread.FinishPass` | pixelflux/src/lib.rs:1906-1924 | a request that got no output is armed again |
| `EncodeLoop.RunsKeepLadder` | pixelflux/src/lib.rs:1646-1874 | streak, `hw_rebuilt` and session agree with the history of encodes in every run |
| `EncodeLoop.RebuildsNeverLoop` | pixelflux/src/lib.rs:1795-1804 | between two GPU rebuilds there is a successful encode or a demotion |
| `EncodeLoop.ThirtyFailuresRecover` | pixelflux/src/lib.rs:1787-1804 | thirty failures in a row are followed at once by a rebuild or a demotion |
| `EncodeLoop.ZeroCopyEndsWithinSixty` | pixelflux/src/lib.rs:1840-1850 | a zero-copy thread that runs has failed fewer than sixty times since it last encoded |
| `EncodeLoop.RunsKeepRequests` | pixelflux/src/lib.rs:1715-1722 | where every request is, with requests arriving at any point |
| `EncodeLoop.RequestsStayArmed` | pixelflux/src/lib.rs:1906-1910 | a request is armed or in the pass that took it until a pass that took it has output, and no other is made up |
| `EncodeLoop.RequestStaysUntilDelivery` | pixelflux/src/lib.rs:1715-1910 | a request armed at any point is armed or taken for as long as the events show no encode that delivers |
| `EncodeLoop.PassServesExactly` | pixelflux/src/lib.rs:1715-1910 | a pass that took a request leaves the flag clear if and only if its one encode delivered and nothing was armed since |
| `EncodeLoop.DeedsAreTheEncodes` | pixelflux/src/lib.rs:1755-1900 | the record the ladder's theorems speak of is how the encodes turned out, in order |
| `EncodeLoop.RecoveriesAreEarned` | pixelflux/src/lib.rs:1787-1804 | where no rate change fails nothing is rebuilt or demoted before thirty failures in a row |
| `EncodeLoop.RateFailureRecovers` | pixelflux/src/lib.rs:1680-1872 | after a refused rate change the next failure recovers at once, and with what is left of session and request |
| `EncodeLoop.PassBeginsExactly` | pixelflux/src/lib.rs:1656-1665 | a pass begins, or ends the thread exactly where it is a zero-copy one without a session |
| `EncodeLoop.TakenBackEnds` | pixelflux/src/lib.rs:1656-1665 | so a thread whose session was taken back ends at its next pass, nothing encoded and the flag left for its successor |
| `EncodeLoop.ThreadsEndAfterTheirEncode` | pixelflux/src/lib.rs:1656-1874 | a thread ends between passes or after the one encode of a pass |
| `EncodeLoop.EndedEncodesNoMore` | pixelflux/src/lib.rs:1656-1874 | and then encodes no more |
| `EncodeLoop.FirstRequest` | pixelflux/src/lib.rs:1715-1910 | a thread's first request, answered or armed again according to its one encode |
| `ReadbackSlots.ScreenshotReadbacks.Find` | pixelflux/src/lib.rs:3705-3727 | the first free slot of the size, or of any |
| `ReadbackSlots.ScreenshotReadbacks.Create` | pixelflux/src/lib.rs:3729-3757 | a mapped slot where GL gives one |
| `ReadbackSlots.ScreenshotReadbacks.Acquire` | pixelflux/src/lib.rs:3705-3757 | reuse, eviction at the bound, or a new slot |
| `ReadbackSlots.ScreenshotReadbacks.ReapIdle` | pixelflux/src/lib.rs:3780-3789 | exactly the slots idle long enough and held by nobody go |
| `ReadbackSlots.RunsAreValid` | pixelflux/src/computer_use.rs:171-213 | the invariant of slots, holders and copies over every interleaving |
| `ReadbackSlots.CopiesReadLiveMappings` | pixelflux/src/computer_use.rs:196-213 | a copy under way reads a mapped slot of a live context within its size; no slot is lent twice; the bound holds |
| `ReadbackSlots.HeldSlotsAreLeftAlone` | pixelflux/src/lib.rs:3705-3789 | a held slot is neither handed out, evicted nor reaped |
| `ReadbackSlots.AcquireExactly` | pixelflux/src/lib.rs:3705-3757 | a free slot of the size is given where there is one, a new one else, at the bound in place of a free one, nothing where neither can be; its use is renewed |
| `ReadbackSlots.ReapExactly` | pixelflux/src/lib.rs:3780-3789 | exactly the listed slots held by nobody and unused for ten seconds are deleted |
| `ReadbackSlots.AcquireTouchesOne` | pixelflux/src/lib.rs:3705-3757 | a request leaves every other slot as it is but one that gives way at four, which is deleted |
| `ReadbackSlots.HolderStepsExactly` | pixelflux/src/computer_use.rs:196-213 | in every run a copy starts exactly where the slot is still mapped; ending it and letting go change nothing else |
| `ReadbackSlots.ShutdownExactly` | pixelflux/src/lib.rs:3791-3797 | the shutdown unmaps slot after slot, each once its copy is done, and only then goes the context |
| `ReadbackSlots.SlotGoesRound` | pixelflux/src/lib.rs:3705-3757 | a run in which a slot is made, copied from, let go, and lent again at its size |
| `ReadbackSlots.IdleSlotGoes` | pixelflux/src/lib.rs:3780-3789 | one in which it is deleted once idle for ten seconds |
| `Layout.OverlapIsASharedPoint` | pixelflux/src/lib.rs:5394-5408 | the overlap test holds exactly where the rectangles share an integer point |
| `Layout.AppState.constructor` | pixelflux/src/lib.rs:6527-6549 | display 0 with a view covering it |
| `Layout.AppState.FindOutputOverlap` | pixelflux/src/lib.rs:5419-5446 | the first screen overlapped, and none exactly where the placement is clear |
| `Layout.AppState.CreateOutputOn` | pixelflux/src/lib.rs:5454-5570 | accepted exactly where the id is new, the geometry positive, the host has room, both rectangles are clear and the target is had; the new list |
| `Layout.AppState.CreateViewOn` | pixelflux/src/lib.rs:5982-6058 | accepted where its far corner, added up in 32 bits, is within the mode; the new list |
| `Layout.AppState.RepositionOutputOn` | pixelflux/src/lib.rs:5628-5736 | a view moves where its 32-bit far corner is within the mode, a screen to where it is clear and with its views |
| `Layout.AppState.DestroyOutputOn` | pixelflux/src/lib.rs:5740-5803 | display 0 is refused; the node and its views go, and no other |
| `Layout.AppState.RemoveNodes` | pixelflux/src/lib.rs:5780-5789 | the views go one by one, and exactly they |
| `Layout.AppState.ResizeOutputOn` | pixelflux/src/lib.rs:5863-5968 | refused where a capturing view would not fit; else the mode of the screen and its views |
| `Layout.RunsKeepRegistry` | pixelflux/src/lib.rs:5454-6058 | after any requests ids are unique, display 0 is a screen, and every view's owner is a registered screen whose mode and scale it shares |
| `Layout.StepKeepsApart` | pixelflux/src/lib.rs:5419-5446 | every request but a resize keeps the screens apart |
| `Layout.MovedApart` | pixelflux/src/lib.rs:5668-5692 | a screen's move keeps the screens apart if and only if the check made of it holds |
| `Layout.NoPointInTwoScreens` | pixelflux/src/lib.rs:5410-5446 | after any requests but resizes no point lies in two screens, each taken to be its mode divided by its scale, or its mode |
| `Layout.ResizeApart` | pixelflux/src/lib.rs:5863-5968 | a resize keeps the screens apart if and only if its rectangles are clear of the others |
| `Layout.ResizeCanOverlap` | pixelflux/src/lib.rs:5863-5968 | two screens side by side, the first widened over the second |
| `Layout.MoveAcceptedIffOnScreen` | pixelflux/src/lib.rs:5652-5661 | a view's move is accepted and its sums do not wrap if and only if it is to a place on its screen |
| `Layout.CreateAcceptedIffOnScreen` | pixelflux/src/lib.rs:5990-6011 | the same of a view's creation |
| `Layout.FarMoveIsAccepted` | pixelflux/src/lib.rs:5652-5661 | the default, captured view moved to 2147483647 is accepted and is off its screen |
| `Layout.MovingCarriesViews` | pixelflux/src/lib.rs:5701-5714 | a screen's move leaves a view's relative rectangle alone if and only if its new place is a 32-bit number |
| `Layout.ResizeKeepsInside` | pixelflux/src/lib.rs:5873-5894 | an accepted resize leaves every capturing view inside, though only the far corner is checked |
| `Layout.StepInsideExactly` | pixelflux/src/lib.rs:5628-6058 | a request keeps the views on their screens if and only if its sums fit and a capture it starts is on its screen |
| `Layout.RunsInsideExactly` | pixelflux/src/lib.rs:5628-6058 | in every run the captured views, or all where none is resized or stopped, stay on their screens if and only if every request's sums fit and every capture is started on its view's screen |
| `Layout.LogicalSizeExactly` | pixelflux/src/lib.rs:5477-5480 | a logical size is the mode divided by the scale to the nearest pixel, clamped to 32 bits, for every mode and scale, and the only one |
| `Layout.CreateAcceptedExactly` | pixelflux/src/lib.rs:5454-5500 | a screen is created exactly where its id is new, its geometry positive, the host has room, its target is had and no screen covers a point of it |
| `Layout.MoveAcceptedExactly` | pixelflux/src/lib.rs:5668-5692 | and moved exactly to where no other screen covers a point of it |
| `Layout.ResizeAcceptedExactly` | pixelflux/src/lib.rs:5863-5935 | a resize is accepted exactly where it is of a screen, positive, clear of its captured views' far corners, and had |
| `Layout.ViewAcceptedExactly` | pixelflux/src/lib.rs:5982-6030 | where its sums do not wrap a view is created exactly with a new id, some size, and all of it on a registered screen |
| `Layout.OthersAcceptedExactly` | pixelflux/src/lib.rs:5740-5760 | every node but display 0 may be destroyed, and a capture starts and stops on the nodes there are |
| `Layout.CaptureChanges` | pixelflux/src/lib.rs:2729-3355 | a capture started or stopped touches its node alone |
| `Layout.CreateChanges` | pixelflux/src/lib.rs:5510-6058 | the node asked for is added, a view with its screen's mode, scale and place, and no other changes |
| `Layout.MoveChanges` | pixelflux/src/lib.rs:5700-5736 | a move touches its node and, of a screen, the views; a moved capture is redrawn |
| `Layout.ResizeChanges` | pixelflux/src/lib.rs:5936-5968 | a resize gives mode and scale to the screen and its views and touches nothing else |
| `Layout.DestroyChanges` | pixelflux/src/lib.rs:5740-5803 | exactly the node and its views go |
| `HostLayout.Compositor.RealizedGeometry` | pixelflux/src/lib.rs:2416-2439 | the capture's size, else the output's mode, else zeros |
| `HostLayout.Compositor.AnswerGeometryWaiters` | pixelflux/src/lib.rs:2443-2455 | each reader is sent the display's realized geometry |
| `HostLayout.Compositor.StopCaptureOnDisplay` | pixelflux/src/lib.rs:2391-2415 | the capture ends, the request goes and its readers are answered; an unknown display changes nothing |
| `HostLayout.Compositor.StopCaptures` | pixelflux/src/lib.rs:2361-2376 | every capture stopped, whatever the order |
| `HostLayout.Compositor.DrainPending` | pixelflux/src/lib.rs:2383-2388 | every request left drained, whatever the order |
| `HostLayout.Compositor.ReapDeadHost` | pixelflux/src/lib.rs:2352-2389 | a dead host: every capture stopped, every request drained, in any order |
| `HostLayout.Compositor.TakeDown` | pixelflux/src/lib.rs:2741-2809 | the node, its request's readers and a dead host taken out before a start |
| `HostLayout.Compositor.Configure` | pixelflux/src/lib.rs:2810-2950 | the host connected where wanted, and the size captured at |
| `HostLayout.Compositor.InstallCapture` | pixelflux/src/lib.rs:3153-3170 | the readers parked behind the new request, or answered without a host |
| `HostLayout.Compositor.StartCaptureOnDisplay` | pixelflux/src/lib.rs:2729-3355 | masking, the kept mode where a target is refused, and the readers carried to the new request or answered |
| `HostLayout.Compositor.Settle` | pixelflux/src/lib.rs:2492-2565 | one display's ruling: left, settled, or restarted |
| `HostLayout.Compositor.ReconcileHostLayouts` | pixelflux/src/lib.rs:2487-2566 | the tick settles each pending display once, in some order |
| `HostLayout.Compositor.CuGetInfo` | pixelflux/src/lib.rs:7399-7408 | the reader is parked behind the display's request, or answered |
| `HostLayout.StartedOnce` | pixelflux/src/lib.rs:2759-2765 | a start loses none of the readers of the request it supersedes |
| `HostLayout.RunsAreValid` | pixelflux/src/lib.rs:2352-2566 | every run keeps readers accounted for and every request with a live host and a capture of its size |
| `HostLayout.AnsweredOnceOrParkedOnce` | pixelflux/src/lib.rs:2441-2455 | every reader has exactly one answer, or none and one parking place |
| `HostLayout.SettledReadersSeeTheCapture` | pixelflux/src/lib.rs:2561-2564 | the answer of a settled request is the size captured from then on, the host's masked mode after a restart |
| `HostLayout.RestartIsTheLast` | pixelflux/src/lib.rs:2519-2564 | against a host that keeps its mode a restart is the last if and only if the display can follow that mode, odd modes included |
| `HostLayout.OneRestartPerStart` | pixelflux/src/lib.rs:2487-2566 | against a host that keeps one mode a display restarts at most as often as clients start it, where each restart can follow the mode |
| `HostLayout.UnfollowedRestartsForEver` | pixelflux/src/lib.rs:2926-2950 | where one cannot, any number of rulings are as many restarts, from every such state |
| `HostLayout.RefusedTargetsRestartForEver` | pixelflux/src/lib.rs:2926-2950 | a run from the beginning in which one start is followed by any number of restarts |
| `HostLayout.StartCapturesAt` | pixelflux/src/lib.rs:2778-2950 | a start captures at what was asked, for video each side even and at most one less, on a view or where the target is had; else at the mode |
| `HostLayout.SettledFollowsTheHost` | pixelflux/src/lib.rs:2519-2528 | after a ruling the capture runs at the host's mode as its codec takes it, on a view or where the target is had |
| `HostLayout.RestartedOnlyOffTheMode` | pixelflux/src/lib.rs:2519-2528 | and is restarted exactly where it did not |
| `HostLayout.AskedWithoutRequest` | pixelflux/src/lib.rs:7399-7408 | without a request a reader is told the capture's size, or the mode, at once |
| `HostLayout.ModeIsTheScreens` | pixelflux/src/lib.rs:2416-2439 | a view's mode is its screen's, and an unknown display has none |
| `HostLayout.StopEndsIt` | pixelflux/src/lib.rs:2391-2415 | a stop ends capture and request and answers its readers with the mode, others untouched |
| `HostLayout.ReapEndsAll` | pixelflux/src/lib.rs:2352-2389 | a lost host ends all of them, each reader told its own display's mode; a live one is left alone |
| `HostLayout.UnansweredWaits` | pixelflux/src/lib.rs:2498-2505 | a ruling not given changes nothing |
| `Relay.RelayQueue.RequestIdrThrottled` | example/screen_to_browser.py:304-308 | a keyframe is asked for where the floor has passed |
| `Relay.RelayQueue.Enqueue` | example/screen_to_browser.py:310-348 | gating by row, queueing, the drop of a full backlog and what is queued after it |
| `Relay.RelayQueue.SendNext` | example/screen_to_browser.py:217-222 | the oldest queued stripe goes to the client |
| `Relay.RunsAreValid` | example/screen_to_browser.py:283-348 | the relay's invariant over every run of offers and sends |
| `Relay.ClientSeesEncoderPictures` | example/screen_to_browser.py:284-290 | what is sent decodes to what was encoded, from a keyframe on and without a gap, in order, within the bound |
| `Relay.DeltasFollowTheirPredecessor` | example/screen_to_browser.py:284-290 | before each delta delivered stands its immediate predecessor of that row |
| `Relay.RequestsAreFloorApart` | example/screen_to_browser.py:304-308 | keyframe requests are at least the floor apart |
| `Relay.WithheldOnlyWithARequest` | example/screen_to_browser.py:320-342 | a stripe not queued is a delta with a keyframe asked for within the floor; a backlog goes only when full |
| `Relay.KindsAreTheBytes` | example/screen_to_browser.py:311-319 | a key stripe is told by the low nibble of byte 1, a video stripe by its first byte and length |
| `Relay.RowsAreTheBytes` | example/screen_to_browser.py:320-320 | two stripes share a row if and only if their bytes 4 and 5 agree |
| `Relay.ClientDecodesEveryRow` | example/screen_to_browser.py:284-348 | over the wire bytes alone: each video stripe sent decodes to the encoder's picture of its row, from a keyframe on, within 120 queued |
| `Relay.DeltasFollowTheirRow` | example/screen_to_browser.py:319-324 | before each delta sent stands the encoder's last stripe with the same bytes 4 and 5 |
| `Relay.OfferExactly` | example/screen_to_browser.py:310-348 | what is withheld, queued, or queued after the backlog is dropped, and when a keyframe is asked for, in every run |
| `Relay.SendExactly` | example/screen_to_browser.py:217-222 | the queue is sent from the front |
| `DistinctRuns.Cut` | pixelflux/src/computer_use.rs:638-654 | non-empty runs that join to the input, each within the bound, and no cut has fewer |
| `DistinctRuns.GreedyReaches` | pixelflux/src/computer_use.rs:638-654 | why greedy is best: no other cut of as many runs reaches further |
| `Typing.KeyResolver.Prefetch` | pixelflux/src/computer_use.rs:674-692 | the cache holds what the backend resolves, for every keysym asked |
| `Typing.KeyResolver.Resolve` | pixelflux/src/computer_use.rs:694-706 | the backend's place of the keysym, through the cache |
| `Typing.Keyboard.TypeSym` | pixelflux/src/computer_use.rs:920-938 | a keysym's tap with its level's modifiers, its transient bind's, or nothing |
| `Typing.Keyboard.TypeRun` | pixelflux/src/computer_use.rs:907-940 | the events of one run |
| `Typing.Keyboard.TypeRuns` | pixelflux/src/computer_use.rs:905-941 | the runs one after another, each under its own keymap |
| `Typing.Keyboard.FindUnresolved` | pixelflux/src/computer_use.rs:910-915 | the keysyms the keymap lacks, each once, in order |
| `Typing.Keyboard.PlanChord` | pixelflux/src/computer_use.rs:946-972 | which parts are modifiers and which key counts |
| `Typing.Keyboard.Type` | pixelflux/src/computer_use.rs:874-943 | the events of a text, cut into a best cut's runs |
| `Typing.Keyboard.Chord` | pixelflux/src/computer_use.rs:946-1018 | the events of a chord |
| `Typing.RunsType` | pixelflux/src/computer_use.rs:907-940 | decoding the events of any runs gives their placed keysyms in order, with nothing held |
| `Typing.TypeTypesTheText` | pixelflux/src/computer_use.rs:907-940 | decoding a `type` request gives the text's placeable keysyms, in order and with repeats, with nothing held |
| `Typing.KeyHoldsNothing` | pixelflux/src/computer_use.rs:974-1016 | a `key` request ends with nothing held, whatever it spells |
| `Typing.Keyboard.Strike` | pixelflux/src/computer_use.rs:985-1010 | the key with its level's modifiers, or the last modifier, tapped |
| `Typing.ChordTypes` | pixelflux/src/computer_use.rs:974-1016 | a chord's events type one keysym, its key's at the level of what is then held |
| `Typing.ChordReaches` | pixelflux/src/computer_use.rs:987-1000 | that level is the one asked for, except where right Alt hides AltGr |
| `Typing.ChordTypesWhatItAsks` | pixelflux/src/computer_use.rs:946-1016 | a `key` request types the keysym it asks for if and only if right Alt does not hide AltGr or the keymap has it at both levels |
| `Typing.RightAltHidesAltGr` | pixelflux/src/computer_use.rs:993-997 | right Alt and the euro sign, on a keymap with another AltGr, type an e |
| `Typing.ModifiersExactly` | pixelflux/src/computer_use.rs:946-960 | a chord holds every modifier it names, in order, and nothing else |
| `Typing.LastKeyCounts` | pixelflux/src/computer_use.rs:946-984 | the key tapped is what the last key part asks for: named, of the keymap, bound for the request, or none |
| `Typing.NoKeyNamed` | pixelflux/src/computer_use.rs:946-972 | a chord whose parts name no key has none |
| `Typing.ChordGoesDownAndUp` | pixelflux/src/computer_use.rs:974-1016 | modifiers, key, or last modifier once more go down in order and come up mirrored |
| `Typing.ModifiersTypeNothing` | pixelflux/src/computer_use.rs:1005-1010 | a chord of modifiers alone types nothing and leaves nothing held |
| `Typing.UnresolvedExactly` | pixelflux/src/computer_use.rs:910-915 | exactly the keysyms the keymap lacks are to be bound, each once, in the order they first come |
| `Typing.BindingTypesEverything` | pixelflux/src/computer_use.rs:904-940 | a desktop that binds what it is asked to types the whole text |
| `CuRequest.Connection.ReadHead` | pixelflux/src/computer_use.rs:1591-1606 | the search over whatever pieces the reads return |
| `CuRequest.Connection.ReadExact` | pixelflux/src/computer_use.rs:1640-1641 | all the bytes, in order, unless the stream ends or fails first |
| `CuRequest.Connection.ParseFields` | pixelflux/src/computer_use.rs:1609-1623 | the three header fields, a later line of a name replacing an earlier one |
| `CuRequest.Connection.Judge` | pixelflux/src/computer_use.rs:1607-1635 | what the head alone decides: dropped, 401, 411, 413, or a length to read |
| `CuRequest.Connection.ReadBody` | pixelflux/src/computer_use.rs:1636-1650 | the body is what follows the head, cut or completed to its length |
| `CuRequest.Connection.AnswerFound` | pixelflux/src/computer_use.rs:1607-1650 | the outcome once the head is found depends on the bytes alone |
| `CuRequest.Connection.ReadAndAnswer` | pixelflux/src/computer_use.rs:1586-1652 | unless a read fails, the outcome is one the bytes alone allow, and only one outside the last piece |
| `CuRequest.Connection.ReadCuRequest` | pixelflux/src/computer_use.rs:1586-1652 | the same, and an accepted request's body is the one its head announces (RFC 9112, section 6.2) |
| `CuRequest.HeadDecided` | pixelflux/src/computer_use.rs:1591-1606 | the head found is the request's first, giving up comes past the limit only, and the buffer stays within limit and piece |
| `CuRequest.HeadWithinLimitIsFound` | pixelflux/src/computer_use.rs:1591-1606 | a head that fits is found however it is cut |
| `CuRequest.HeadBeyondLimitIsRefused` | pixelflux/src/computer_use.rs:1595-1598 | one beyond limit and piece is refused however it is cut |
| `CuRequest.HeadInBetweenDepends` | pixelflux/src/computer_use.rs:1591-1606 | in between, for every request, one way of cutting finds it and another refuses it |
| `CuRequest.AcceptedAsAnnounced` | pixelflux/src/computer_use.rs:1608-1649 | an accepted request is authorized, unchunked, and has exactly its Content-Length of body after the head |
| `CuHead.ParsesExactly` | pixelflux/src/computer_use.rs:1617-1618 | a length is read as `n` if and only if it is `n` in decimal, zeros and one plus sign before it allowed, and fits 64 bits |
| `CuHead.LinesReadBack` | pixelflux/src/computer_use.rs:1607-1608 | lines joined by CR LF are told apart again |
| `CuHead.EveryTextIsLines` | pixelflux/src/computer_use.rs:1607-1608 | and every head is its lines joined |
| `CuHead.AuthorizationExactly` | pixelflux/src/computer_use.rs:1610-1616 | the credentials are the last such line's, its name in any case and its value without the whitespace around it |
| `CuHead.LengthExactly` | pixelflux/src/computer_use.rs:1609-1618 | the same of the length, which is 0 without a line |
| `CuHead.TransferEncodingExactly` | pixelflux/src/computer_use.rs:1619-1621 | a request is chunked exactly where some line is so named |
| `CuHead.FieldLineSays` | pixelflux/src/computer_use.rs:1610-1619 | a field line with spaces and tabs around its value says that value (RFC 9112, section 5; RFC 9110, section 5.6.3) |
| `CuHead.EveryNameIsGiven` | pixelflux/src/computer_use.rs:1610-1622 | every name is either said by a last line or not named at all |
| `CuHead.WrittenRequestAnswered` | pixelflux/src/computer_use.rs:1607-1650 | what a written request is answered with, from the lines written: 401, 411, 413, 400, dropped, or its target and body accepted |
| `CuHead.NoRequestLine` | pixelflux/src/computer_use.rs:1607-1609 | a head that is no text or has no target is dropped |
| `CuHead.FirstEndExactly` | pixelflux/src/computer_use.rs:1592-1594 | the head ends at the first CR LF CR LF |
| `CuHead.OutcomesExactly` | pixelflux/src/computer_use.rs:1575-1606 | what the bytes allow, by the bounds 16385 and 20480 |
| `Admission.ScreenshotAdmission.Sum` | pixelflux/src/computer_use.rs:313-313 | the counts summed in any order |
| `Admission.ScreenshotAdmission.Acquire` | pixelflux/src/computer_use.rs:311-325 | a permit exactly where fewer than four live, and fewer than two of the display |
| `Admission.ScreenshotAdmission.DropPermit` | pixelflux/src/computer_use.rs:333-344 | the count given back, and no display left at zero |
| `Admission.TotalIsPermits` | pixelflux/src/computer_use.rs:313-313 | the sum of the counts is the number of live permits |
| `Admission.RunsAreValid` | pixelflux/src/computer_use.rs:310-344 | in every run counts are the live permits, none zero, within both limits |
| `Admission.RefusedExactlyAtALimit` | pixelflux/src/computer_use.rs:313-317 | refusal in every run is exactly at a limit |
| `Admission.ReleaseExactly` | pixelflux/src/computer_use.rs:333-344 | a permit dropped gives back its own display's count and no other |
| `Spdx.Parser.ParseOrAt` | scripts/check-licenses.py:124-129 | the shared position and the rank are those of the functional reading at OR level |
| `Spdx.Parser.OrLoopAt` | scripts/check-licenses.py:126-129 | its loop reads and ranks as the functional one |
| `Spdx.Parser.ParseAndAt` | scripts/check-licenses.py:131-136 | the same at AND level |
| `Spdx.Parser.AndLoopAt` | scripts/check-licenses.py:133-136 | and its loop |
| `Spdx.Parser.ParseWithAt` | scripts/check-licenses.py:138-147 | the same for WITH and its exception |
| `Spdx.Parser.ParseAtomAt` | scripts/check-licenses.py:149-164 | the same for identifiers and groups, each error case included |
| `Spdx.Parser.Classify` | scripts/check-licenses.py:104-169 | the imperative parser returns what the grammar's reading of the tokens is worth, and fails where there is none |
| `Spdx.ParsesExactly` | scripts/check-licenses.py:124-169 | a tree is read from tokens if and only if it is of the grammar and prints to them |
| `Spdx.Unambiguous` | scripts/check-licenses.py:124-164 | no two trees of the grammar print alike |
| `Spdx.ClassifiedExactly` | scripts/check-licenses.py:104-169 | rank `k` is returned if and only if some tree prints to the tokens and is worth `k` |
| `Spdx.WrittenReadsBack` | scripts/check-licenses.py:124-164 | a tree printed with least parentheses is read back: WITH before AND before OR (SPDX Specification 2.3, Annex D) |
| `Spdx.TightExactlyWritten` | scripts/check-licenses.py:124-164 | the trees so printed are exactly those of the grammar without superfluous groups |
| `Spdx.AnyTokenIsAnException` | scripts/check-licenses.py:138-147 | any token after a word and WITH is read as its exception |
| `Spdx.ExceptionsArePlainExactly` | scripts/check-licenses.py:138-147 | an accepted tree's exceptions are words if and only if a word follows every WITH |
| `Spdx.ParenthesisAsException` | scripts/check-licenses.py:138-147 | `MIT WITH )` is accepted |
| `Spdx.NoBetterChoice` | scripts/check-licenses.py:104-107 | no way of taking the ORs has a better worst license |
| `Spdx.BestChoice` | scripts/check-licenses.py:104-107 | and one is as good, exceptions applied at the leaves |
| `Spdx.WorstCovered` | scripts/check-licenses.py:138-147 | an exception over a group is one over each leaf |
| `Spdx.LiftedIsMonotone` | scripts/check-licenses.py:145-147 | lifting keeps the order of ranks and keeps unknown |
| `Spdx.LiftedExactly` | scripts/check-licenses.py:145-147 | a linking exception makes both kinds of copyleft permissive, and nothing else changes a rank |
| `Spdx.LeafRankExactly` | scripts/check-licenses.py:138-166 | a license is worth its own rank unless it is copyleft and one of the exceptions over it links |
| `Spdx.WorstExactly` | scripts/check-licenses.py:131-136 | the worst of a choice is one of its leaves' ranks, and none is worse |
| `Spdx.IdentExactly` | scripts/check-licenses.py:162-164 | a plus sign at the end stands for `-or-later` |
| `Spdx.KeywordsExactly` | scripts/check-licenses.py:126-161 | the operators are told in any case and nothing else is one |
| `Licenses.ClassifyExpression` | scripts/check-licenses.py:104-169 | text to rank: tokens, tables and parser together |
| `Licenses.LexReadsBack` | scripts/check-licenses.py:111-111 | tokens written apart are read back |
| `Licenses.TextReadsBack` | scripts/check-licenses.py:104-169 | a license written out as text is ranked at what it is worth |
| `Licenses.LegacySlash` | scripts/check-licenses.py:109-111 | the legacy slash between two licenses is an OR |
| `Licenses.AnyLayoutReadsBack` | scripts/check-licenses.py:111-111 | tokens are read back however they are laid out, apart or against parentheses |
| `Licenses.SlashesAreOrs` | scripts/check-licenses.py:111-111 | every slash is an OR |
| `Licenses.FamiliesExactly` | scripts/check-licenses.py:89-97 | an unlisted license is ranked by its family, the lesser GPL told from the others |
| `Licenses.ListedArePermissive` | scripts/check-licenses.py:89-92 | a listed license is permissive, those with file-level copyleft included |
| `Closure.NormalClosure` | scripts/check-licenses.py:292-309 | exactly the packages reachable over normal edges, on any graph; fails exactly where the root or a reached package is missing |
| `Closure.Visit` | scripts/check-licenses.py:302-308 | one node's normal edges are seen, and stacked where new |
| `Closure.DoneIsReachable` | scripts/check-licenses.py:300-308 | with nothing stacked, the seen are the reachable |
| `Closure.OnlyNormalEdgesReach` | scripts/check-licenses.py:302-308 | a package is reached exactly where it is the root or a reached package depends on it with a kind that is null |
| `GpuFilter.Scan` | pixelflux/src/nvgpufilter.rs:291-302 | the live ids counted and those to keep collected |
| `GpuFilter.CopyBack` | pixelflux/src/nvgpufilter.rs:303-308 | the kept ids in front, the sentinel in every other slot |
| `GpuFilter.FilterIds` | pixelflux/src/nvgpufilter.rs:290-309 | the array is unchanged, or the kept live ids padded with the sentinel |
| `GpuFilter.KeptIsSubsequence` | pixelflux/src/nvgpufilter.rs:293-302 | the kept ids are the live ones at the kept places, in order and none twice |
| `GpuFilter.EveryKeptPlace` | pixelflux/src/nvgpufilter.rs:298-301 | no id to keep is lost |
| `GpuFilter.LiveAfter` | pixelflux/src/nvgpufilter.rs:303-308 | what is live afterwards, exactly |
| `GpuFilter.NeverEmptied` | pixelflux/src/nvgpufilter.rs:303-303 | a live answer is never emptied |
| `GpuFilter.Idempotent` | pixelflux/src/nvgpufilter.rs:290-309 | filtering twice is filtering once |
| `GpuFilter.RewriteAttachedIds` | pixelflux/src/nvgpufilter.rs:355-388 | only a successful enumeration on the control device, of its command's size, is filtered |
| `GpuFilter.EncodedSizeIsIgnored` | pixelflux/src/nvgpufilter.rs:42-56 | the size a driver encodes in the request does not matter |
| `GpuFilter.FilteredExactly` | pixelflux/src/nvgpufilter.rs:290-309 | the answer stays as long as it was; it is the kept ids and sentinels exactly where some are kept and some not |
| `GpuFilter.EnumeratesExactly` | pixelflux/src/nvgpufilter.rs:355-388 | which calls are filtered: successful, of either command, of the layout's size, on the control device |

## Left out

- GPU, EGL, GBM, GL, smithay and encoder sessions: pictures, pixel sets and outcomes stand for them. The damage tracker is taken to cover what changed over the age asked for, and to forget its history after a failed render.
- The release of every frame in flight when a capture is torn down, and what its outgoing encode thread still reads then: the pipeline's claims are about one session, from its start with what the last one left retained.
- Counters are unbounded (`published`, `recycled`, `render_seq`, `content_gen` are 64 bits wide).
- Debug builds, in which a wrapping sum stops the compositor instead.
- `f64` arithmetic: scaled sizes are rounded half away from zero over the reals, and scales that are infinite or no numbers are not modelled.
- `start_capture_on_display`'s commit of a screen's size is not among `Layout`'s requests: like a resize it is not checked against the other screens, and unlike one not against the views.
- Windows, focus, parking, copy sessions and pointer state that creating, moving and destroying outputs also touch.
- `HostLayout` leaves out scale and refresh, the count of refusals behind a log hint, encoder selection (which may change a start's settings), and the host's ranking of displays.
- The 10 second time-outs of the request reader, its replies, and what it reads and drops after refusing; which credentials are good and text decoding are parameters.
- Sleeps and pacing between key events, and typing through a nested compositor's own socket.
- Typing.TypeTypesTheText: takes a keymap that holds still during a run, a resolver that reports what the keymap has, and tapped keys that are not modifiers.
- Case folding beyond ASCII in license operators, except the dotless i; recursion depth of the parser; the sorting of the closure's packages.
- The send task's time-out and the closing of the socket: a relay run ends there.
- `scroll`, `click` and the other agent actions; HTTP serving, PNG coding, ELF patching, `/proc` parsing and `uinput`.
