# A verified model of the DRM hardware composer

The composer turns a stack of layers into a picture on a display. For each frame it
decides which layers the GPU blends, places the rest on display planes, hands the result
to the kernel, and releases the previous frame once the new one is up. Around that it
keeps a table of display modes, binds connectors to displays as they come and go, shares
out CRTCs and planes, and caches imported buffers. This project models these parts in
Dafny 4.11 and proves what they keep.

`dafny verify dfyconfig.toml` checks everything.

| file | subject |
|---|---|
| `Layers.dfy`, `Planner.dfy`, `VideoPlanner.dfy` | which z-range of layers goes to the GPU |
| `KmsPlan.dfy` | greedy matching of layers to planes |
| `Blending.dfy`, `Composition.dfy` | z-map, plan and picture |
| `Flattening.dfy`, `Validation.dfy` | idle flattening, and validation of a frame end to end |
| `AtomicCommit.dfy`, `PresentTracker.dfy`, `FrameLifetime.dfy`, `AtomicStateManager.dfy` | commits, the tracker thread, planes and framebuffers |
| `DisplayConfigs.dfy` | the table of display configurations |
| `Hotplug.dfy`, `PipelineBinding.dfy` | displays and pipelines, exclusive binding of hardware |
| `SwapChain.dfy` | the per-layer buffer cache |
| `Options.dfy`, `Sequences.dfy` | notions that several modules share |

Where the source changes things in place the model does too: classes and loops, each
proved against a function on values. Theorems about runs are lemmas about those
functions, for every sequence of steps. What the kernel, gralloc and the client decide
enters as parameters, so each theorem holds for all of their answers.

## What the proofs found

- **Cost counter.** The window search starts from the largest 32-bit cost and accepts
  only cheaper windows. If every candidate costs exactly 2^32 - 1, no start is recorded
  and the old one is returned with the new size. `ExtraClientRangeWellPlanned` shows that
  this is the only way to miss the plane budget or a mandatory layer. A validated frame
  survives it: for distinct z-orders the planned marking then has no plan and every layer
  goes to the client. Only equal z-orders can let it pass (`SettledIsValidated`,
  `SaturatedEqualZExample`).
- **Video planes.** The plane count is unsigned. If the video layers span at least as many
  positions as there are planes, subtracting them wraps and the budget reads as unlimited
  (`VideoBudgetWraps`, `VideoWrapExample`). Otherwise the doubled charge for video is met
  (`VideoBudgetFits`).
  `VideoWindowFitsIff` and `ClientRangeWellPlanned` give the exact condition under which
  the planner's range fits the planes at all.
- **Lost planes.** A commit made while a frame is pending derives its state from the frame
  before that one, so a plane used only by the pending frame is never disabled.
  `BookkeepingIff` gives the exact condition, `PlaneLeakExample` a run of three commits.
  It can cost a framebuffer too: once the third frame is up and retired, the display still
  scans out one that nothing references (`FramebufferLeakExample`). A lost plane need not
  be a lost framebuffer (`MovedBufferExample`), so that has its own exact condition: each
  plane that neither the active state nor the new plan lists must show a framebuffer of the
  plan, and without a composition no plane may be on (`HoldsIff`, and `RunHoldsIff` over runs).
- **Switching off.** Taking the pipeline from a display whose CRTC is already off turns the
  CRTC on if the kernel takes the commit, because the repeated value is dropped and
  activation is then forced (`DeinitSwitchesOffIff`, `DeinitTurnsOnExample`). This disagrees
  with the comment in the code that the check is there to avoid setting the inactive state
  twice; the model follows the code.
- **Timeouts.** A fence wait that times out still retires the frame. The frame on screen
  then loses its references exactly if its successor is not up yet (`RetireNeedsPresent`,
  `TimeoutExample`).
- **Equal z-orders.** Layers with equal z-orders displace each other in the z-map;
  `AllPlacedIff` says exactly when nothing is lost, `EqualZExample` shows a loss.
- **Single buffer.** A layer that keeps presenting one buffer is never served from its cache
  (`LayerSingleBufferNeverCached`).

## Model

| member | source | states |
|---|---|---|
| `Planner.CalcPixOps` | backend/Backend.cpp:143-153 | the cost of a window is the sum of its layer areas in 32-bit unsigned arithmetic |
| `Planner.CheapestOf` | backend/Backend.cpp:197-204 | the search loop returns the leftmost cheapest window, or the old start if none is below the counter's maximum |
| `Planner.GetExtraClientRange` | backend/Backend.cpp:165-208 | the loop over prepend, append and steps equals a search over all windows covering the mandatory range |
| `Planner.CoveringStarts` | backend/Backend.cpp:183-195 | the starts visited are exactly those of the in-bounds covering windows |
| `Planner.CheapestIsLeftmostMinimum` | backend/Backend.cpp:197-204 | no visited window is cheaper, and every window to the left costs more |
| `Planner.ExtraClientRangeExact` | backend/Backend.cpp:180-207 | on every input on which the range must grow: size n minus the device planes, at the leftmost covering window of least 32-bit cost, or at the old start if all of them cost the maximum |
| `Planner.ExtraClientRangeOptimal` | backend/Backend.cpp:180-205 | the chosen window is the leftmost of minimum true area among all covering windows, for non-negative areas adding up to less than the counter's maximum |
| `Planner.ExtraClientRangeWellPlanned` | backend/Backend.cpp:168-207 | the result covers the mandatory range and fits the planes if and only if the cost counter is not saturated |
| `Planner.ExtraClientRangeMinimal` | backend/Backend.cpp:168-207 | a mandatory range that fits the planes is returned unchanged, and no covering range that fits is smaller than the result |
| `Planner.SaturatedExample` | backend/Backend.cpp:197-207 | three layers of 21845 x 65537 pixels and one plane give the range (-1, 3) |
| `VideoPlanner.HullIsTight` | backend/Backend.cpp:85-96 | a hull contains every layer of its kind and starts and ends on one |
| `VideoPlanner.FindHulls` | backend/Backend.cpp:80-96 | one pass finds the must-be-client hull and the video hull |
| `VideoPlanner.CheckHulls` | backend/Backend.cpp:100-112 | the consistency test passes if and only if the two hulls are disjoint |
| `VideoPlanner.VideoWindow` | backend/Backend.cpp:210-309 | every non-fallback result is in bounds, covers the client hull, contains no layer of the video hull and leaves min(n - client size, available planes) layers on planes |
| `VideoPlanner.VideoBudgetFits` | backend/Backend.cpp:213-230 | with fewer video positions than planes, device layers, the extra video planes and the client target fit the planes |
| `VideoPlanner.VideoBudgetWraps` | backend/Backend.cpp:213-230 | with at least as many, the unsigned count wraps, no fallback is taken and the planes do not suffice |
| `VideoPlanner.VideoWindowExistsIff` | backend/Backend.cpp:217-309 | a video window is found iff some window covers the client hull, avoids the video hull and leaves exactly the budgeted layers on planes |
| `VideoPlanner.VideoWindowMinimal` | backend/Backend.cpp:213-230 | with fewer video positions than planes, any smaller window would exceed the planes under the doubled charge |
| `VideoPlanner.VideoWindowPlace` | backend/Backend.cpp:233-308 | the gap between video and mandatory range goes to planes before the far side, and without a mandatory range the shorter side of the video does |
| `VideoPlanner.VideoWrapExample` | backend/Backend.cpp:213-230 | two video layers and one plane give the range (2, 0), so both layers stay on planes |
| `VideoPlanner.MarkValidated` | backend/Backend.cpp:155-163 | exactly the layers of the range become Client, all others Device |
| `VideoPlanner.GetClientLayers` | backend/Backend.cpp:78-120 | the method returns the planner's range for the layers it is given |
| `VideoPlanner.VideoWindowFitsIff` | backend/Backend.cpp:213-309 | a video window fits the planes iff the video span is below the planes, or nothing must be client and there are as many layers as planes |
| `VideoPlanner.VideoStaysOnPlanes` | backend/Backend.cpp:98-119 | whenever a video window is found, every video layer is marked Device |
| `VideoPlanner.ClientRangeMinimal` | backend/Backend.cpp:98-119 | without a video window the must-be-client hull is returned if it fits, and no covering range that fits is smaller |
| `VideoPlanner.ClientRangeWellPlanned` | backend/Backend.cpp:78-120 | unless saturated, the range contains every must-be-client layer, and the rest fits the planes iff no video window is used or that window fits |
| `KmsPlan.PopValidPlane` | compositor/DrmKmsPlan.cpp:38-45 | planes are popped up to and including the first one valid for the layer |
| `KmsPlan.CreateDrmKmsPlan` | compositor/DrmKmsPlan.cpp:26-57 | the nested loops build the greedy plan |
| `KmsPlan.GreedyIsLeast` | compositor/DrmKmsPlan.cpp:33-45 | if any order-preserving assignment exists, greedy finds one, pointwise the least |
| `KmsPlan.GreedyComplete` | compositor/DrmKmsPlan.cpp:33-56 | greedy succeeds if and only if an order-preserving assignment to valid planes exists |
| `KmsPlan.GreedyPlanCorrect` | compositor/DrmKmsPlan.cpp:33-56 | a plan is returned iff an assignment exists, and is one: layers in order, numbered from zero, on ascending planes |
| `KmsPlan.GreedyUniform` | compositor/DrmKmsPlan.cpp:33-56 | if every plane can show every layer, a plan exists iff the planes suffice |
| `KmsPlan.PlanNeedsPlanes` | compositor/DrmKmsPlan.cpp:38-45 | whatever the planes can show, more layers than planes have no plan |
| `Blending.OverAssociative` | hwc2_device/HwcDisplay.cpp:170 | premultiplied source-over is associative |
| `Blending.BlendFlattened` | hwc2_device/HwcDisplay.cpp:170 | a run of a stack may be blended first and then take the run's place |
| `Composition.BuildZMap` | hwc2_device/HwcDisplay.cpp:542-561 | the loop builds the z-map: earlier device layers win a z-order, the client target enters under the lowest client z-order |
| `Composition.WalkMap` | hwc2_device/HwcDisplay.cpp:574-586 | the map is listed completely in ascending z-order |
| `Composition.WalkCollapsesRun` | hwc2_device/HwcDisplay.cpp:542-586 | for distinct z-orders and any marking by a range, the list is the z-sorted layers with the client run replaced by the client target |
| `Composition.PlanShowsAllLayers` | hwc2_device/HwcDisplay.cpp:542-598 | the plan shows at every position exactly the blend of all layers in z-order, on as many planes as budgeted |
| `Composition.WalkWithinBudget` | hwc2_device/HwcDisplay.cpp:546-586 | for any z-orders, equal ones included, the list is no longer than the planes budgeted |
| `Composition.ZMapMeaning` | hwc2_device/HwcDisplay.cpp:542-561 | on every input a z-order holds its first device layer, and the client target stands at the lowest client z-order iff no device layer has it |
| `Composition.AllPlacedIff` | hwc2_device/HwcDisplay.cpp:546-561 | every device layer and the client target have their place iff no two of them share a z-order |
| `Composition.EqualZExample` | hwc2_device/HwcDisplay.cpp:549 | of two device layers with one z-order the second gets no place |
| `Composition.CollectSlots` | hwc2_device/HwcDisplay.cpp:574-586 | layer data is collected in order unless a layer cannot be shown |
| `Composition.OutcomeMeaning` | hwc2_device/HwcDisplay.cpp:563-608 | BadLayer iff nothing or something unusable is listed, BadConfig iff no order-preserving assignment exists, BadParameter iff the kernel rejects the plan; a plan is such an assignment |
| `Composition.CreateComposition` | hwc2_device/HwcDisplay.cpp:513-620 | a headless display reports success without a plan; otherwise error and plan follow from the walked z-map, and it succeeds iff the marking passes |
| `Composition.OutcomeDecides` | hwc2_device/HwcDisplay.cpp:563-608 | the walk of a z-map is unique, so one walk decides whether a marking passes |
| `Flattening.ClientFlattening.ProcessClientFlatteningState` | hwc2_device/HwcDisplay.cpp:1066-1086 | new state and answer of one validation |
| `Flattening.ClientFlattening.OnVsync` | hwc2_device/HwcDisplay.cpp:1088-1096 | new state of one vsync and whether the refresh callback is called |
| `Flattening.FlattensIff` | hwc2_device/HwcDisplay.cpp:1066-1096 | in every run a validation flattens iff it is not skipped and at least 60 vsyncs, and nothing else, followed the arming validation |
| `Flattening.VsyncCountedIff` | hwc2_device/HwcDisplay.cpp:1082-1095 | vsyncs are counted exactly from an arming validation to the refresh callback |
| `Flattening.DisabledStays` | hwc2_device/HwcDisplay.cpp:1067-1070 | the disabled state never flattens, never refreshes and never changes |
| `Flattening.NeverTwiceInARow` | hwc2_device/HwcDisplay.cpp:1077-1085 | consecutive validations never both flatten |
| `Flattening.RefreshesIff` | hwc2_device/HwcDisplay.cpp:1088-1096 | the refresh callback is called exactly at the 60th vsync after an arming validation, so at most once per arming |
| `Validation.ValidateDisplay` | backend/Backend.cpp:32-76 | Unsupported iff a decoration layer is present, and then nothing changes; a flattening frame chooses all layers, any other one all layers iff the planner asks for all or the planned marks fail the test, and else the planned range; the type count is the size of the choice; for distinct z-orders or an unsaturated counter the marks are contiguous, hold every must-be-client layer and are all Client or passed |
| `Validation.TestMarks` | backend/Backend.cpp:54-66 | the planned range stays, with its marks, iff it passes or is all layers; otherwise all layers become Client |
| `Validation.MarksOfRange` | backend/Backend.cpp:155-163 | the marks that follow a range are determined by it |
| `Validation.PlanAndTest` | backend/Backend.cpp:52-66 | all layers are chosen iff the planner asks for all or the planned marks fail the test-only composition, else the planned range, and the marks follow the choice |
| `Validation.SettledIsValidated` | backend/Backend.cpp:32-76 | for distinct z-orders Client marks are one contiguous z-range with every must-be-client layer, and all layers are Client or exactly this marking passed the test-only composition; for any z-orders this holds iff the counter is not saturated or all layers went to the client |
| `Validation.OverBudgetFails` | backend/Backend.cpp:54-66 | for distinct z-orders a marking that needs more planes than there are fails the test-only composition |
| `Validation.SaturatedEqualZExample` | backend/Backend.cpp:54-66 | three layers of 21845 x 65537 pixels with one z-order and one plane: the saturated marking passes and marks no layer Client |
| `Validation.SortedForMarks` | hwc2_device/HwcDisplay.cpp:843-857 | marking never touches z-orders, so the sorted order serves any marks |
| `Validation.SettledWhenSorted` | backend/Backend.cpp:37-76 | the same for layers sorted before they were marked |
| `Validation.ValidatedShowsAllLayers` | backend/Backend.cpp:54-66 | a validated marking that passed has a plan the kernel takes and that shows the whole picture |
| `Validation.DeviceLayersQualify` | backend/Backend.cpp:122-141 | a layer left on a plane has a supported type and a usable buffer, on a display without colour transform or forced GPU composition |
| `Validation.QualifyingNeverForced` | backend/Backend.cpp:122-141 | if all layers qualify, none is forced on the GPU |
| `Validation.PlannedMarkingHasPlan` | backend/Backend.cpp:165-208 | for every layer list, equal z-orders included: if every plane can show every layer of the composition and the planner's range fits the planes, its marking has a plan |
| `AtomicStateManager.SetPlanes` | drm/DrmAtomicStateManager.cpp:108-148 | used planes and framebuffers are those of the plan, unused planes those of the previous state that the plan does not use |
| `AtomicStateManager.DisablePlanes` | drm/DrmAtomicStateManager.cpp:183-189 | succeeds iff every unused plane can be disabled |
| `AtomicStateManager.DrmAtomicStateManager.Prepare` | drm/DrmAtomicStateManager.cpp:67-148 | error of building the property set, and the state of the new frame |
| `AtomicStateManager.DrmAtomicStateManager.CommitSet` | drm/DrmAtomicStateManager.cpp:198-234 | waits for and retires the prior frame, then stages or activates the new one |
| `AtomicStateManager.DrmAtomicStateManager.CommitFrame` | drm/DrmAtomicStateManager.cpp:49-245 | takes exactly the commit step; its asserts hold, and hold at the next call unless a taken commit's fence could not be duplicated |
| `AtomicStateManager.DrmAtomicStateManager.CleanupPriorFrameResources` | drm/DrmAtomicStateManager.cpp:309-317 | takes exactly the retire step; the source's asserts are its precondition |
| `AtomicStateManager.DrmAtomicStateManager.ExecuteAtomicCommit` | drm/DrmAtomicStateManager.cpp:319-339 | a failed real commit is followed by an empty one, whatever becomes of the fences |
| `AtomicStateManager.PresentTrackerThread.ReadFence` | drm/DrmAtomicStateManager.cpp:266-283 | first locked section of the tracker loop |
| `AtomicStateManager.PresentTrackerThread.AwaitFence` | drm/DrmAtomicStateManager.cpp:285-293 | the unlocked wait |
| `AtomicStateManager.PresentTrackerThread.RetireFrame` | drm/DrmAtomicStateManager.cpp:295-305 | second locked section; the asserts of the cleanup hold |
| `AtomicStateManager.PresentTrackerThread.Stop` | drm/DrmAtomicStateManager.h:66-71 | stopping changes nothing else |
| `AtomicCommit.UnusedElements` | drm/DrmAtomicStateManager.cpp:139-141 | erasing plan planes one by one leaves the set difference |
| `PresentTracker.StepSafe` | drm/DrmAtomicStateManager.cpp:198-317 | every step keeps counters, fence, histories and the tracker's knowledge in agreement |
| `PresentTracker.RunSafe` | drm/DrmAtomicStateManager.cpp:198-317 | over every interleaving no assert fires, at most one frame is pending and exactly while the fence is set, and frames are retired once each in staging order |
| `PresentTracker.TrackerRetiresItsFrame` | drm/DrmAtomicStateManager.cpp:295-305 | the tracker retires a frame iff it is still pending, and then the one whose fence it waited on |
| `PresentTracker.StoppedExits` | drm/DrmAtomicStateManager.cpp:274-298 | a stopped tracker leaves the manager alone and exits |
| `PresentTracker.RunAwake` | drm/DrmAtomicStateManager.cpp:266-305 | over every run whose fences can be duplicated the tracker never sleeps on a pending frame |
| `PresentTracker.CatchesUp` | drm/DrmAtomicStateManager.cpp:266-305 | one round waits on the fence of the pending frame and retires that frame, whatever the wait returns |
| `PresentTracker.RunCatchesUp` | drm/DrmAtomicStateManager.cpp:266-305 | the same after every run from power-on |
| `PresentTracker.DupDecides` | drm/DrmAtomicStateManager.cpp:227-231 | a nonblocking commit keeps this agreement iff its fence could be duplicated |
| `FrameLifetime.FailedCommitKeepsNewest` | drm/DrmAtomicStateManager.cpp:193-225 | a failed or test-only commit leaves the newest state, the programmed planes and ACTIVE alone |
| `FrameLifetime.PrepareErrMeaning` | drm/DrmAtomicStateManager.cpp:67-189 | the property set is built iff every property it needs can be set; ENOMEM without a set, else EINVAL |
| `FrameLifetime.CommitVerdict` | drm/DrmAtomicStateManager.cpp:52-245 | 0 and no change if there is nothing to do; a test-only commit returns the kernel verdict unchanged; a real one returns the kernel code, which is 0 iff the kernel took one more commit |
| `FrameLifetime.RunAlternates` | drm/DrmAtomicStateManager.cpp:52-65 | over every run the values written to ACTIVE alternate and the newest state knows the last one |
| `FrameLifetime.DeinitSwitchesOffIff` | hwc2_device/HwcDisplay.cpp:120-132 | taking the pipeline away switches the CRTC off iff it was on |
| `FrameLifetime.DeinitTurnsOnExample` | hwc2_device/HwcDisplay.cpp:120-132 | at power-on it turns the CRTC on |
| `FrameLifetime.StepShowsHeld` | drm/DrmAtomicStateManager.cpp:198-234 | a step whose waits succeed keeps the display on the active frame or the pending staged one |
| `FrameLifetime.RunShowsHeld` | drm/DrmAtomicStateManager.cpp:198-317 | in every run whose waits succeed, the display shows the active frame or the pending staged one, and a woken tracker finds its pending frame on screen |
| `FrameLifetime.DropsAfterSuccessor` | drm/DrmAtomicStateManager.cpp:309-317 | a step that drops the references to a frame leaves a later frame on screen |
| `FrameLifetime.RunDropsAfterSuccessor` | drm/DrmAtomicStateManager.cpp:198-317 | in every run from power-on whose waits succeed, references to a frame drop only after a later frame is on screen |
| `FrameLifetime.RunReleases` | drm/DrmAtomicStateManager.cpp:309-317 | over every run an idle manager holds references through the active state only |
| `FrameLifetime.RetireNeedsPresent` | drm/DrmAtomicStateManager.cpp:201-208 | retiring keeps the shown frame referenced iff the staged one is already up |
| `FrameLifetime.TimeoutExample` | drm/DrmAtomicStateManager.cpp:201-225 | a wait that times out before a rejected commit drops the frame on screen |
| `FrameLifetime.BookkeepingIff` | drm/DrmAtomicStateManager.cpp:67-148 | after a taken commit the kernel's planes are those of the newest state iff the commit was tidy |
| `FrameLifetime.TidyWhenIdle` | drm/DrmAtomicStateManager.h:134-140 | with no frame pending every commit is tidy |
| `FrameLifetime.RunTracksPlanes` | drm/DrmAtomicStateManager.cpp:108-189 | over every run of tidy commits the kernel's planes are those of the newest state |
| `FrameLifetime.ExecuteTracks` | drm/DrmAtomicStateManager.cpp:319-339 | a commit with its recovery, started idle, keeps the bookkeeping |
| `FrameLifetime.ExecuteRecovers` | drm/DrmAtomicStateManager.cpp:319-339 | the error is that of the commit; only a failed real commit is followed by one attempt with an empty composition |
| `FrameLifetime.RecoveryClearsIff` | drm/DrmAtomicStateManager.cpp:326-332 | a taken recovery turns all planes off iff the active state lists what the newest does, so always when idle or after a rejection by the kernel |
| `FrameLifetime.PlaneSevenReached` | drm/DrmAtomicStateManager.cpp:67-234 | two commits from power-on lead to the state, with a frame pending, that the next examples start from |
| `FrameLifetime.PlaneLeakExample` | drm/DrmAtomicStateManager.cpp:67-148 | a third commit loses a plane |
| `FrameLifetime.HeldBeforeLeak` | drm/DrmAtomicStateManager.cpp:108-148 | before the third commit every framebuffer is held |
| `FrameLifetime.FramebufferLeakExample` | drm/DrmAtomicStateManager.cpp:67-148 | after it is up and retired, a framebuffer on screen is referenced by no state |
| `FrameLifetime.MovedBufferExample` | drm/DrmAtomicStateManager.cpp:67-148 | a commit that moves the pending buffer to another plane loses the plane and keeps the framebuffer |
| `FrameLifetime.HoldsIff` | drm/DrmAtomicStateManager.cpp:67-234 | pending or not, a taken commit keeps the framebuffers referenced, also once the new frame is up and the one before it retired, iff each plane left on outside the active state and the plan shows a framebuffer of the plan, or, without a composition, no plane is on |
| `FrameLifetime.TidyKeepsFramebuffers` | drm/DrmAtomicStateManager.cpp:108-148 | a tidy commit with a composition meets that condition |
| `FrameLifetime.StepHoldsIff` | drm/DrmAtomicStateManager.cpp:198-317 | a step whose wait succeeds keeps the framebuffers referenced iff it is not a taken commit against that condition |
| `FrameLifetime.RunHoldsIff` | drm/DrmAtomicStateManager.cpp:198-317 | a run whose waits succeed keeps them referenced throughout iff every taken commit meets that condition |
| `FrameLifetime.CompositionNeededIff` | drm/DrmAtomicStateManager.cpp:111-137 | an idle commit keeps the references iff it carries a composition or no plane is in use |
| `FrameLifetime.RunHoldsFramebuffers` | drm/DrmAtomicStateManager.cpp:108-234 | in every run with successful waits whose taken commits meet that condition, each framebuffer on screen is referenced, also once the pending frame is up and retired, and all invariants hold at the end |
| `FrameLifetime.StartIsGood` | drm/DrmAtomicStateManager.h:119-160 | the initial state meets every invariant |
| `DisplayConfigs.FindGroup` | hwc2_device/HwcDisplayConfigs.cpp:96-102 | finds the group of an entry of equal resolution, or none |
| `DisplayConfigs.GroupModes` | hwc2_device/HwcDisplayConfigs.cpp:87-137 | consecutive ids, same group iff same resolution, 3D modes off, the first preferred mode or the first mode is preferred |
| `DisplayConfigs.ScanTypes` | hwc2_device/HwcDisplayConfigs.cpp:140-157 | detects exactly the groups with enabled modes of both scan types |
| `DisplayConfigs.KeepScanType` | hwc2_device/HwcDisplayConfigs.cpp:165-183 | disables exactly the entries of the group with the unwanted scan type |
| `DisplayConfigs.ScanTypePass` | hwc2_device/HwcDisplayConfigs.cpp:139-184 | a mixed group keeps one scan type: interlaced iff it holds an interlaced preferred mode |
| `DisplayConfigs.DisableCloseTo` | hwc2_device/HwcDisplayConfigs.cpp:191-204 | one inner loop disables exactly the entries too close to an enabled one |
| `DisplayConfigs.FilterStep` | hwc2_device/HwcDisplayConfigs.cpp:190-205 | no entry disables one with a lower id |
| `DisplayConfigs.RefreshRatePass` | hwc2_device/HwcDisplayConfigs.cpp:186-205 | the in-place double loop computes the greedy filter by ascending id |
| `DisplayConfigs.SurvivorNear` | hwc2_device/HwcDisplayConfigs.cpp:186-205 | what this pass disables keeps an enabled witness of lower id within 1 fps |
| `DisplayConfigs.PassesReason` | hwc2_device/HwcDisplayConfigs.cpp:87-205 | an entry is disabled iff it is 3D, has the losing scan type of its group, or an enabled one of lower id in its group is within 1 fps |
| `DisplayConfigs.PassesGood` | hwc2_device/HwcDisplayConfigs.cpp:83-205 | enabled modes of a group have one scan type and are 1 fps apart, groups with a non-3D mode keep an enabled one, a non-3D preferred mode is enabled or shadowed within 1 fps, and interlaced modes give way to progressive ones unless the preferred mode is interlaced, and an entry is disabled for one of three reasons only |
| `DisplayConfigs.HwcDisplayConfigs.FillHeadless` | hwc2_device/HwcDisplayConfigs.cpp:45-64 | one fresh headless configuration with its physical size |
| `DisplayConfigs.HwcDisplayConfigs.FillModes` | hwc2_device/HwcDisplayConfigs.cpp:78-208 | the good table for the modes, with consecutive fresh ids |
| `DisplayConfigs.HwcDisplayConfigs.Update` | hwc2_device/HwcDisplayConfigs.cpp:67-208 | the whole table on success, the headless one on failure, the active id, the physical size, and ids above all ids given out before |
| `Hotplug.DrmHwcTwo.BindDisplay` | hwc2_device/DrmHwcTwo.cpp:89-117 | takes the bind step; fails iff the pipeline is already bound |
| `Hotplug.DrmHwcTwo.UnbindDisplay` | hwc2_device/DrmHwcTwo.cpp:119-145 | takes the unbind step; fails iff the pipeline is not bound |
| `Hotplug.DrmHwcTwo.SetDisplayPipeline` | hwc2_device/HwcDisplay.cpp:107-118 | changes the pipeline and schedules the hotplug event |
| `Hotplug.DrmHwcTwo.SettleDisplays` | hwc2_device/DrmHwcTwo.cpp:31-49 | the locked first part of finalizing |
| `Hotplug.DrmHwcTwo.ClearDeferredEvents` | hwc2_device/DrmHwcTwo.cpp:55 | the part after the callbacks drops what is deferred by then |
| `Hotplug.DrmHwcTwo.DisposeDisplays` | hwc2_device/DrmHwcTwo.cpp:63-69 | removes exactly the displays on the never-cleared list |
| `Hotplug.BindConsistent` | hwc2_device/DrmHwcTwo.cpp:89-117 | binding keeps the maps consistent and adds exactly this pipeline |
| `Hotplug.UnbindConsistent` | hwc2_device/DrmHwcTwo.cpp:119-145 | unbinding keeps the maps consistent and removes exactly this pipeline |
| `Hotplug.HandlesInjective` | hwc2_device/DrmHwcTwo.cpp:113-114 | no two pipelines share a handle |
| `Hotplug.BindAnnounces` | hwc2_device/HwcDisplay.cpp:112-117 | binding schedules exactly a connect event for the handle it gives |
| `Hotplug.UnbindAnnounces` | hwc2_device/HwcDisplay.cpp:112-117 | unbinding schedules exactly a disconnect event, or a connect event for the primary |
| `Hotplug.SettleAnnounces` | hwc2_device/DrmHwcTwo.cpp:31-49 | a created or reattached primary is announced, and the display it replaces is taken back |
| `Hotplug.FinalizeAlone` | hwc2_device/DrmHwcTwo.cpp:31-74 | run alone, finalizing leaves the primary, headless iff nothing is bound, and the bound displays, and no event is left over |
| `Hotplug.RunConsistent` | hwc2_device/DrmHwcTwo.cpp:31-145 | over every interleaving of binds, unbinds and the parts of finalizing the maps agree, the removal list names no bound display and deferred hotplug events tell the truth |
| `Hotplug.RunAnnounced` | hwc2_device/DrmHwcTwo.cpp:31-145 | over every interleaving a handle whose connectedness differs from when the client was last up to date has a deferred event, which tells its connectedness now |
| `Hotplug.DisposeSparesBound` | hwc2_device/DrmHwcTwo.cpp:64-69 | a bound display is never disposed of |
| `Hotplug.ResourceManager.Attach` | drm/ResourceManager.cpp:251-256 | attaches one connector and keeps frontend and attached pipelines in step |
| `Hotplug.ResourceManager.Detach` | drm/ResourceManager.cpp:257-262 | detaches one connector likewise |
| `Hotplug.ResourceManager.UpdateFrontendDisplays` | drm/ResourceManager.cpp:237-291 | exactly the connected connectors with a pipeline are attached, each with its own display |
| `PipelineBinding.DrmDevice.BindPipeline` | drm/DrmDisplayPipeline.cpp:32-49 | a free resource is bound; a bound one is returned only to its own pipeline on request |
| `PipelineBinding.DrmDevice.BindThree` | drm/DrmDisplayPipeline.cpp:59-65 | binds all three resources or none |
| `PipelineBinding.DrmDevice.FindPrimaries` | drm/DrmDisplayPipeline.cpp:67-82 | collects the primary planes of the CRTC |
| `PipelineBinding.PrimariesMeaning` | drm/DrmDisplayPipeline.cpp:72-82 | the collected ids are exactly those of the primary planes that serve the CRTC |
| `PipelineBinding.PrimariesUnique` | drm/DrmDisplayPipeline.cpp:84-93 | one id is collected iff exactly one plane of the device is a primary plane of the CRTC, and it is that plane |
| `PipelineBinding.UsableMeaning` | drm/DrmDisplayPipeline.cpp:51-105 | a pair is usable iff its parts are free and the one primary plane of the CRTC is free |
| `PipelineBinding.DrmDevice.TryCreatePipeline` | drm/DrmDisplayPipeline.cpp:51-105 | succeeds iff the pair is usable; a failed attempt restores every binding |
| `PipelineBinding.DrmDevice.TryCreatePipelineUsingEncoder` | drm/DrmDisplayPipeline.cpp:107-133 | takes the encoder's first usable pair |
| `PipelineBinding.DrmDevice.CreatePipeline` | drm/DrmDisplayPipeline.cpp:135-161 | takes the first usable pair of all, made of supported or current parts, on the one primary plane of its CRTC; or changes nothing |
| `PipelineBinding.FirstUsableMeaning` | drm/DrmDisplayPipeline.cpp:135-161 | nothing is found iff every pair is unusable as things stand before the search |
| `PipelineBinding.FoundIsSupported` | drm/DrmDisplayPipeline.cpp:107-160 | only supported or current encoders and CRTCs are put together |
| `PipelineBinding.FirstCrtcTaken` | drm/DrmDisplayPipeline.cpp:121-129 | the search takes the first CRTC of the device that can be had |
| `PipelineBinding.CurrentKept` | drm/DrmDisplayPipeline.cpp:110-145 | the current encoder is kept if any pair of it is usable, with its current CRTC if that pair is |
| `PipelineBinding.GivesUpOnlyIfUnusable` | drm/DrmDisplayPipeline.cpp:121-160 | the search gives up only if every supported, bindable pair is individually unusable |
| `PipelineBinding.ReservationsRespected` | drm/DrmDisplayPipeline.cpp:110-129 | a CRTC that served another connector is taken only as the encoder's current one |
| `PipelineBinding.DrmDevice.GetUsablePlanes` | drm/DrmDisplayPipeline.cpp:171-195 | the primary plane first; then overlay planes of the CRTC, free or its own, within the plane limit and all of those among the first eligible ones; none if switched off; only these become bound |
| `PipelineBinding.TakenAreFree` | drm/DrmDisplayPipeline.cpp:178-191 | no more overlays than asked for and none held by another pipeline |
| `PipelineBinding.TakenAreOverlays` | drm/DrmDisplayPipeline.cpp:180-190 | every plane taken is an overlay plane that serves the CRTC |
| `PipelineBinding.FreeAreTaken` | drm/DrmDisplayPipeline.cpp:178-191 | every eligible overlay within the limit that is free or already the pipeline's is taken |
| `PipelineBinding.OverlaysMeaning` | drm/DrmDisplayPipeline.cpp:171-195 | the list of usable planes holds all that and nothing else |
| `PipelineBinding.RunOwned` | drm/DrmDisplayPipeline.h:55-69 | over every run each reference is to a resource bound to the holder's pipeline |
| `PipelineBinding.RunExclusive` | drm/DrmDisplayPipeline.h:55-69 | over every run different pipelines share no resource, and a resource is bound exactly while held |
| `PipelineBinding.RunReserved` | drm/DrmDisplayPipeline.cpp:110-129 | over every run the CRTC of a live pipeline is reserved for its connector |
| `PipelineBinding.CreateThenDrop` | drm/DrmDisplayPipeline.h:59-61 | destroying a new pipeline restores every binding |
| `SwapChain.LayerBuffers.ImportFramebuffer` | hwc2_device/HwcLayer.cpp:274-338 | new layer data, failure flags and cache |
| `SwapChain.LayerBuffers.SwChainGetBufferFromCache` | hwc2_device/HwcLayer.cpp:360-380 | a hit copies the remembered data, a miss changes nothing |
| `SwapChain.LayerBuffers.SwChainReassemble` | hwc2_device/HwcLayer.cpp:382-399 | numbers a new buffer, completes the chain, or clears it |
| `SwapChain.LayerBuffers.SwChainAddCurrentBuffer` | hwc2_device/HwcLayer.cpp:401-421 | remembers the current data once the chain is complete |
| `SwapChain.LayerBuffers.SwChainClearCache` | hwc2_device/HwcLayer.cpp:423-427 | empties the cache and nothing else |
| `SwapChain.LayerBuffers.SetLayerBuffer` | hwc2_device/HwcLayer.cpp:58-65 | sets the buffer and its acquire fence and marks it updated |
| `SwapChain.ImportVerdict` | hwc2_device/HwcLayer.cpp:274-338 | an attempt yields the new data or the flag of the part that failed |
| `SwapChain.FailedForGood` | hwc2_device/HwcLayer.cpp:274-279 | a layer that failed once never imports again |
| `SwapChain.NumberedExtends` | hwc2_device/HwcLayer.cpp:398 | an insertion keeps the table values a bijection onto 0 .. size - 1 |
| `SwapChain.RunNumbered` | hwc2_device/HwcLayer.cpp:382-427 | over every run and for any importer the table values are a bijection onto 0 .. size - 1 |
| `SwapChain.ImportTransparent` | hwc2_device/HwcLayer.cpp:274-338 | with an importer that depends on the unique id, an import through the cache gives exactly the fresh data |
| `SwapChain.RunTransparent` | hwc2_device/HwcLayer.cpp:274-427 | over every run a layer with the cache is the layer without it |
| `SwapChain.ImportsOfCycle` | hwc2_device/HwcLayer.cpp:360-421 | the cache over a cycle of N >= 2 buffers: exactly 2N misses, then hits forever after |
| `SwapChain.CycleSettles` | hwc2_device/HwcLayer.cpp:360-421 | from any state of the cache, a cycle of N >= 2 importable buffers is served from the cache from frame 4N + 1 on |
| `SwapChain.ImportsEnd` | hwc2_device/HwcLayer.cpp:360-421 | so it misses at most 4N + 1 times and never after |
| `SwapChain.SingleBufferNeverCached` | hwc2_device/HwcLayer.cpp:383-388 | the cache over a single buffer: a miss with every frame |
| `SwapChain.LayerServesFrame` | hwc2_device/HwcLayer.cpp:274-338 | setting and importing a buffer is one frame of the cache, and reaches the importer exactly on a miss |
| `SwapChain.LayerImportsOfCycle` | hwc2_device/HwcLayer.cpp:274-421 | a layer whose buffers cycle through N >= 2 ids reaches the importer exactly 2N times |
| `SwapChain.LayerImportsEnd` | hwc2_device/HwcLayer.cpp:274-421 | whatever a layer has shown before, a cycle of N >= 2 importable ids reaches the importer at most 4N + 1 times and never after |
| `SwapChain.RunKept` | hwc2_device/HwcLayer.cpp:401-421 | over every run and for any importer, what is remembered is complete |
| `SwapChain.LayerSingleBufferNeverCached` | hwc2_device/HwcLayer.cpp:274-421 | a layer with a single buffer reaches the importer with every frame |

## Left out

- Kernel and libdrm: property sets, blobs, fences and commits are reduced to their results; a taken commit is taken to mean that an earlier one has been shown.
- Colour adjustment, HDR metadata, HDCP, EDID: floating point and properties of other components.
- Staged display modes, presentation times, vsync period events and statistics of the display: easy members beside the composition.
- Blend modes and plane alpha: every layer contributes a premultiplied pixel.
- The sort of layers by z-order is a library call; the model takes any result that meets its contract.
- The framebuffer importer, whose correctness rests on how the kernel reuses buffer handles.
- Mode lists as read from the connector, the link-status retraining branch, and uevent handling.
- Delivery of deferred hotplug events to the client: which of the events scheduled while the lock is released for a callback are still sent.
- Overflow of the frame counters, configuration ids and display handles after 2^31 or 2^32 increments; these are unbounded here. Overflow of a single width times height product, which the language leaves undefined, is taken to wrap.
- The address a destroyed pipeline leaves behind may be reused only once no plane list names it.
- Exact rounding of refresh rates, which are reals here.
- The HAL service, binder plumbing, buffer metadata getters, blitter and vsync worker.
- Composition.CreateComposition: does not model the staged display mode and its timing, because they only add fields to the commit.
- AtomicStateManager.DrmAtomicStateManager.CommitFrame: does not model HDR metadata, colour adjustment, the shadow blit and the mode blob's contents, because they do not touch the frame states.
- Hotplug.ResourceManager.UpdateFrontendDisplays: does not model the link-status retraining of an attached connector, which changes no binding.
- PipelineBinding.RunExclusive: assumes that the plane lists of a pipeline are dropped before the pipeline, as its owner does.
