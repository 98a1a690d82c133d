/**
 What commits do to frames, planes and framebuffers over whole runs
 (drm/DrmAtomicStateManager.cpp, lines 49-245 and 309-339).
 */
module FrameLifetime {
  import opened Options
  import opened Sequences
  import opened AtomicCommit
  import opened PresentTracker

  /** Every call of libdrm and the kernel succeeds. */
  const FINE := Env(true, true, true, true, true, {}, {}, 0, 0, true, true)

  /** A commit that shows nothing. */
  const BLANK := Args(false, false, None, Some([]))

  // ------------------------------------------------------------ commit atomicity

  /** A commit that fails or is test-only leaves the newest state and the programmed planes alone. */
  lemma FailedCommitKeepsNewest(w: World, args: Args, env: Env)
    requires args.testOnly || Commit(w, args, env).1 != 0
    ensures var w' := Commit(w, args, env).0;
            Newest(w'.m) == Newest(w.m) && Latest(w'.hw) == Latest(w.hw) && w'.hw.activeWrites == w.hw.activeWrites
  {
  }

  /** Nothing is asked for, or only the ACTIVE value that holds already. */
  predicate NothingToDo(m: Manager, args: Args) {
    !args.displayMode && args.composition.None? && (args.active.None? || args.active.value == m.active.crtcActive)
  }

  /**
   Every property the commit needs can be set: ACTIVE if it changes or is off, the mode, the
   planes of the plan, and those of the active state that the plan leaves out.
   */
  ghost predicate Buildable(m: Manager, args: Args, env: Env) {
    && env.psetMade && env.outFenceSet
    && (!m.active.crtcActive || (args.active.Some? && !args.active.value) ==> env.activeSet)
    && (args.displayMode ==> env.modeBlobMade && env.modeSet)
    && (args.composition.Some? ==>
          var planned := Elements(PlanPlanes(args.composition.value));
          && planned !! env.unsettable
          && (Elements(m.active.usedPlanes) - planned) !! env.undisablable)
  }

  lemma PrepareErrMeaning(m: Manager, args: Args, env: Env)
    ensures PrepareErr(m, args, env) == if Buildable(m, args, env) then 0 else if env.psetMade then -EINVAL else -ENOMEM
  {
    if args.composition.Some? {
      var plan := args.composition.value;
      UnusedElements(m.active.usedPlanes, plan);
      assert forall p :: p in Elements(PlanPlanes(plan)) <==> p in PlanPlanes(plan);
      assert forall p :: p in Elements(UnusedPlanes(m, args)) <==> p in UnusedPlanes(m, args);
    }
  }

  /**
   The verdict of a commit. Without anything to do or without a property set nothing
   happens. A test-only commit returns the kernel's verdict and changes nothing. A real one
   returns the kernel's own code, which is 0 exactly if the kernel took one more commit.
   */
  lemma CommitVerdict(w: World, args: Args, env: Env)
    ensures var (w', err) := Commit(w, args, env);
            if NothingToDo(w.m, args) then (w', err) == (w, 0)
            else if !Buildable(w.m, args, env) then (w', err) == (w, if env.psetMade then -EINVAL else -ENOMEM)
            else if args.testOnly then (w', err) == (w, env.testErr)
            else err == env.commitErr
    ensures var (w', err) := Commit(w, args, env);
            !args.testOnly && !NothingToDo(w.m, args) ==>
              && (err == 0 <==> w'.hw.commits == w.hw.commits + 1)
              && (err != 0 <==> w'.hw.commits == w.hw.commits)
  {
    PrepareErrMeaning(w.m, args, env);
  }

  // ------------------------------------------------------------- the ACTIVE property

  /** ACTIVE writes alternate, starting with on, and the newest state knows the last one. */
  predicate Alternates(w: World) {
    && (forall i :: 0 <= i < |w.hw.activeWrites| ==> w.hw.activeWrites[i] == (i % 2 == 0))
    && Newest(w.m).crtcActive == (|w.hw.activeWrites| % 2 == 1)
    && (w.m.lastPresentFence.Some? ==> w.m.active.crtcActive && w.m.staged.crtcActive)
  }

  lemma CommittedAlternates(waited: World, m: Manager, args: Args, env: Env)
    requires Alternates(waited) && waited.m.lastPresentFence.None?
    requires waited.m.active.crtcActive == m.active.crtcActive
    ensures Alternates(Committed(waited, m, args, env))
  {
  }

  lemma CommitAlternates(w: World, args: Args, env: Env, prepareErr: int)
    requires Alternates(w)
    ensures Alternates(CommitPrepared(w, args, env, prepareErr).0)
  {
    CommittedAlternates(WaitPrior(w, env.waitSignalled), w.m, args, env);
  }

  lemma StepAlternates(s: System, step: Step)
    requires Counted(s.w) && TrackerKnows(s) && Alternates(s.w) && Enabled(s, step)
    ensures Alternates(Next(s, step).w)
  {
    if step.CommitStep? {
      CommitAlternates(s.w, step.args, step.env, PrepareErr(s.w.m, step.args, step.env));
    }
  }

  /** Over every run the values written to ACTIVE alternate. */
  lemma {:induction false} RunAlternates(s: System, steps: seq<Step>)
    requires Counted(s.w) && TrackerKnows(s) && Alternates(s.w)
    requires IsRun(s, steps) && AllDuped(steps)
    ensures Alternates(Run(s, steps).w)
    decreases |steps|
  {
    if steps != [] {
      StepSafe(s, steps[0]);
      StepAlternates(s, steps[0]);
      RunAlternates(Next(s, steps[0]), steps[1..]);
    }
  }

  /** The commit a display issues when its pipeline is taken away: off, with no planes. */
  const DEINIT := Args(false, false, Some(false), Some([]))

  /**
   Taking the pipeline away switches the CRTC off exactly if it was on: on a CRTC that
   is already off, the repeated value is dropped and the forced activation turns it on.
   */
  lemma DeinitSwitchesOffIff(w: World, env: Env)
    requires Alternates(w) && Takes(w, DEINIT, env)
    ensures !Newest(Commit(w, DEINIT, env).0.m).crtcActive <==> Newest(w.m).crtcActive
  {
  }

  /** Taking the pipeline away right after power-on turns the CRTC on, if the kernel takes the commit. */
  lemma DeinitTurnsOnExample()
    ensures !Newest(Init().m).crtcActive && Newest(Commit(Init(), DEINIT, FINE).0.m).crtcActive
  {
  }

  // ----------------------------------------------------------------- frame lifetime

  /** The display shows the active frame or, once the pending one is up, the staged frame. */
  predicate ShowsHeldFrame(w: World) {
    var m, hw := w.m, w.hw;
    && m.active.serial <= hw.commits && hw.shown.serial <= hw.commits
    && (m.lastPresentFence.None? ==> hw.queued.None? && hw.shown.serial == m.active.serial)
    && (m.lastPresentFence.Some? ==>
          && m.active.serial < m.staged.serial <= hw.commits
          && (hw.queued.Some? ==> hw.queued.value.serial == m.staged.serial && hw.shown.serial == m.active.serial)
          && (hw.queued.None? ==> hw.shown.serial == m.staged.serial))
  }

  /** A tracker back from a successful wait on the pending frame found it on screen. */
  predicate WokenAfterPresent(s: System) {
    s.tracker.Woken? && s.w.m.lastPresentFence == Some(s.tracker.fence) ==> s.w.hw.queued.None?
  }

  /** Every wait of the step succeeds and every fence can be duplicated. */
  predicate Prompt(step: Step) {
    && (step.CommitStep? ==> step.env.fenceDuped && step.env.waitSignalled)
    && (step.WaitStep? ==> step.signalled)
  }

  lemma StepShowsHeld(s: System, step: Step)
    requires Counted(s.w) && TrackerKnows(s) && ShowsHeldFrame(s.w) && WokenAfterPresent(s)
    requires Enabled(s, step) && Prompt(step)
    ensures ShowsHeldFrame(Next(s, step).w) && WokenAfterPresent(Next(s, step))
  {
  }

  predicate AllPrompt(steps: seq<Step>) {
    forall i :: 0 <= i < |steps| ==> Prompt(steps[i])
  }

  /** In every run whose fence waits succeed, the display shows a frame the manager holds. */
  lemma {:induction false} RunShowsHeld(s: System, steps: seq<Step>)
    requires Counted(s.w) && TrackerKnows(s) && ShowsHeldFrame(s.w) && WokenAfterPresent(s)
    requires IsRun(s, steps) && AllPrompt(steps)
    ensures ShowsHeldFrame(Run(s, steps).w) && WokenAfterPresent(Run(s, steps))
    decreases |steps|
  {
    if steps != [] {
      StepSafe(s, steps[0]);
      StepShowsHeld(s, steps[0]);
      RunShowsHeld(Next(s, steps[0]), steps[1..]);
    }
  }

  /** The frame whose framebuffer references the manager holds. */
  predicate Held(m: Manager, serial: nat) {
    m.active.serial == serial || (m.lastPresentFence.Some? && m.staged.serial == serial)
  }

  /** References to a frame drop only once a later frame is on screen. */
  lemma DropsAfterSuccessor(s: System, step: Step, serial: nat)
    requires Counted(s.w) && TrackerKnows(s) && ShowsHeldFrame(s.w) && WokenAfterPresent(s)
    requires Enabled(s, step) && Prompt(step)
    requires Held(s.w.m, serial) && !Held(Next(s, step).w.m, serial)
    ensures Next(s, step).w.hw.shown.serial > serial
  {
  }

  /** An idle manager has let go of the state it staged last. */
  predicate StagedIsEmpty(w: World) {
    w.m.lastPresentFence.None? ==> w.m.staged.usedPlanes == [] && w.m.staged.usedFramebuffers == []
  }

  /** Over every run an idle manager holds references through the active state only. */
  lemma {:induction false} RunReleases(s: System, steps: seq<Step>)
    requires Counted(s.w) && TrackerKnows(s) && StagedIsEmpty(s.w)
    requires IsRun(s, steps) && AllDuped(steps)
    ensures StagedIsEmpty(Run(s, steps).w)
    decreases |steps|
  {
    if steps != [] {
      StepSafe(s, steps[0]);
      StepReleases(s, steps[0]);
      RunReleases(Next(s, steps[0]), steps[1..]);
    }
  }

  lemma StepReleases(s: System, step: Step)
    requires StagedIsEmpty(s.w) && Enabled(s, step) && (step.CommitStep? ==> step.env.fenceDuped)
    ensures StagedIsEmpty(Next(s, step).w)
  {
  }

  /** Up to any point of a run it is a run, and the next step is enabled there. */
  lemma {:induction false} RunPrefix(s: System, steps: seq<Step>, k: nat)
    requires IsRun(s, steps) && k <= |steps|
    ensures IsRun(s, steps[..k])
    ensures k < |steps| ==> Enabled(Run(s, steps[..k]), steps[k])
    ensures k < |steps| ==> IsRun(s, steps[..k + 1]) && Run(s, steps[..k + 1]) == Next(Run(s, steps[..k]), steps[k])
    decreases |steps|
  {
    if k > 0 {
      RunPrefix(Next(s, steps[0]), steps[1..], k - 1);
      assert steps[..k][1..] == steps[1..][..k - 1];
    }
    if k < |steps| {
      assert steps[..k + 1][1..] == steps[1..][..k];
    }
  }

  /** Without the prompt wait the claim is lost: retiring drops the shown frame exactly if the staged one is not up yet. */
  lemma RetireNeedsPresent(w: World)
    requires ShowsHeldFrame(w) && w.m.lastPresentFence.Some?
    ensures Held(Retire(w).m, w.hw.shown.serial) <==> w.hw.queued.None?
  {
  }

  /**
   A wait that times out before a commit the kernel rejects: the display still shows the
   first frame, and the manager no longer holds it.
   */
  lemma TimeoutExample()
    ensures var w2 := Commit(Commit(Init(), BLANK, FINE).0, BLANK, FINE).0;
            var w3 := Commit(w2, BLANK, FINE.(waitSignalled := false, commitErr := -EINVAL)).0;
            && ShowsHeldFrame(w2) && Held(w2.m, w2.hw.shown.serial)
            && w3.hw.shown == w2.hw.shown && !Held(w3.m, w3.hw.shown.serial)
  {
  }

  // --------------------------------------------------------------- plane bookkeeping

  /** The pending frame, if there is one, is up and retired. */
  function CaughtUp(w: World): World {
    WaitPrior(w, true)
  }

  /** The planes programmed in the kernel are those the newest state lists. */
  predicate PlanesTracked(w: World) {
    Latest(w.hw).planes.Keys == Elements(Newest(w.m).usedPlanes)
  }

  /**
   The condition under which a commit keeps the books. The new state is derived from the
   active one, so a plane of a pending frame must be in the new plan or in the active
   state as well; without a composition both states must list the same planes.
   */
  predicate Tidy(m: Manager, args: Args) {
    if args.composition.Some?
    then Elements(Newest(m).usedPlanes) <= Elements(m.active.usedPlanes) + Elements(PlanPlanes(args.composition.value))
    else Elements(Newest(m).usedPlanes) == Elements(m.active.usedPlanes)
  }

  /** With no frame pending every commit is tidy. */
  lemma TidyWhenIdle(m: Manager, args: Args)
    requires m.lastPresentFence.None?
    ensures Tidy(m, args)
  {
  }

  lemma CommittedPlanes(hw: Hardware, m: Manager, args: Args, activeWrite: Option<bool>)
    requires args.composition.Some?
    ensures var plan := args.composition.value;
            var planes := Latest(KernelCommit(hw, args, UnusedPlanes(m, args), activeWrite)).planes;
            && planes.Keys == (Latest(hw).planes.Keys - (Elements(m.active.usedPlanes) - Elements(PlanPlanes(plan))))
                              + Elements(PlanPlanes(plan))
            && (forall p :: p in PlanPlanes(plan) ==> p in planes && planes[p] in PlanFramebuffers(plan))
            && (forall p :: p in planes && p !in PlanPlanes(plan) ==> planes[p] == Latest(hw).planes[p])
  {
    var plan := args.composition.value;
    UnusedElements(m.active.usedPlanes, plan);
    PlanMapElements(plan);
    assert forall p :: p in PlanPlanes(plan) ==> p in Elements(PlanPlanes(plan));
  }

  /** What is newest after the kernel took a commit, staged or active. */
  lemma CommittedState(waited: World, m: Manager, args: Args, env: Env)
    requires waited.m.lastPresentFence.None? && env.fenceDuped
    ensures var w' := Committed(waited, m, args, env);
            && Newest(w'.m) == CaughtUp(w').m.active == NewState(m, args, waited.hw.commits + 1)
            && Latest(w'.hw) == CaughtUp(w').hw.shown
               == Latest(KernelCommit(waited.hw, args, UnusedPlanes(m, args), ActiveWrite(m, args)))
            && CaughtUp(w').m.lastPresentFence.None?
            && (w'.hw.queued.Some? ==> w'.hw.shown == Latest(waited.hw) && w'.m.active == waited.m.active)
  {
  }

  /** Plane bookkeeping survives a taken commit exactly if the commit was tidy. */
  lemma BookkeepingIff(w: World, args: Args, env: Env)
    requires PlanesTracked(w) && env.fenceDuped && Takes(w, args, env)
    ensures PlanesTracked(Commit(w, args, env).0) <==> Tidy(w.m, args)
  {
    var waited := WaitPrior(w, env.waitSignalled);
    assert Latest(waited.hw) == Latest(w.hw) && waited.m.active == Newest(w.m);
    assert Commit(w, args, env).0 == Committed(waited, w.m, args, env);
    CommittedState(waited, w.m, args, env);
    if args.composition.Some? {
      CommittedPlanes(waited.hw, w.m, args, ActiveWrite(w.m, args));
    }
  }

  lemma StepTracks(s: System, step: Step)
    requires Counted(s.w) && TrackerKnows(s) && PlanesTracked(s.w) && Enabled(s, step)
    requires step.CommitStep? ==> step.env.fenceDuped && Tidy(s.w.m, step.args)
    ensures PlanesTracked(Next(s, step).w)
  {
    if step.CommitStep? && Takes(s.w, step.args, step.env) {
      BookkeepingIff(s.w, step.args, step.env);
    }
  }

  predicate TidyRun(s: System, steps: seq<Step>)
    requires IsRun(s, steps)
    decreases |steps|
  {
    steps == [] || (&& (steps[0].CommitStep? ==> steps[0].env.fenceDuped && Tidy(s.w.m, steps[0].args))
                    && TidyRun(Next(s, steps[0]), steps[1..]))
  }

  /**
   Plane bookkeeping over runs: if every commit is tidy where it is made, for instance
   because no frame is pending there, the kernel's planes are always those of the newest
   frame state, after successes, failures and recoveries, whatever the waits return.
   */
  lemma {:induction false} RunTracksPlanes(s: System, steps: seq<Step>)
    requires Counted(s.w) && TrackerKnows(s) && PlanesTracked(s.w)
    requires IsRun(s, steps) && TidyRun(s, steps)
    ensures PlanesTracked(Run(s, steps).w)
    decreases |steps|
  {
    if steps != [] {
      StepTracks(s, steps[0]);
      StepSafe(s, steps[0]);
      RunTracksPlanes(Next(s, steps[0]), steps[1..]);
    }
  }

  /** A commit with its recovery, started with no frame pending, keeps the books. */
  lemma ExecuteTracks(w: World, args: Args, env: Env, recovery: Env)
    requires PlanesTracked(w) && w.m.lastPresentFence.None?
    requires env.fenceDuped && recovery.fenceDuped
    ensures PlanesTracked(Execute(w, args, env, recovery).0)
  {
    var clear := Args(false, false, None, Some([]));
    if Takes(w, args, env) {
      BookkeepingIff(w, args, env);
    } else if Takes(w, clear, recovery) {
      BookkeepingIff(w, clear, recovery);
    }
  }

  /** A failed real commit returns its own error and is followed by exactly one attempt to clear the planes. */
  lemma ExecuteRecovers(w: World, args: Args, env: Env, recovery: Env)
    ensures var (w1, err) := Commit(w, args, env);
            var (w', err') := Execute(w, args, env, recovery);
            && err' == err
            && (args.testOnly || err == 0 ==> w' == w1)
            && (!args.testOnly && err != 0 ==>
                  w'.hw.commits == w.hw.commits + if Buildable(w1.m, BLANK, recovery) && recovery.commitErr == 0 then 1 else 0)
  {
    CommitVerdict(w, args, env);
    CommitVerdict(Commit(w, args, env).0, BLANK, recovery);
  }

  /**
   The recovery turns all planes off exactly if the active state lists what the newest one
   does. That is so when no frame was pending, and when the kernel rejected the commit.
   */
  lemma RecoveryClearsIff(w: World, args: Args, env: Env, recovery: Env)
    requires PlanesTracked(w) && !args.testOnly && Commit(w, args, env).1 != 0
    requires Takes(Commit(w, args, env).0, BLANK, recovery)
    ensures var m, w' := Commit(w, args, env).0.m, Execute(w, args, env, recovery).0;
            && (Latest(w'.hw).planes == map[] <==> Elements(Newest(m).usedPlanes) <= Elements(m.active.usedPlanes))
            && (w.m.lastPresentFence.None? || Buildable(w.m, args, env) ==> Latest(w'.hw).planes == map[])
  {
    FailedCommitKeepsNewest(w, args, env);
    PrepareErrMeaning(w.m, args, env);
    var w1 := Commit(w, args, env).0;
    var waited := WaitPrior(w1, recovery.waitSignalled);
    var w' := Execute(w, args, env, recovery).0;
    assert w' == Committed(waited, w1.m, BLANK, recovery);
    CommittedPlanes(waited.hw, w1.m, BLANK, ActiveWrite(w1.m, BLANK));
    assert Latest(waited.hw) == Latest(w1.hw);
    assert Latest(w'.hw).planes == map[] <==> Latest(w'.hw).planes.Keys == {};
  }

  /** Framebuffer 70 is staged on plane 7 behind a blank first frame. */
  const PLANE_SEVEN_PENDING := World(
    Manager(KmsState(1, [], [], true), KmsState(2, [7], [70], true), Some(2), 1, 0),
    Hardware(Frame(1, map[]), Some(Frame(2, map[7 := 70])), 2, [true]), [2], [], false)

  /** Two commits from power-on lead there: switch on with nothing to show, then stage the buffer. */
  lemma PlaneSevenReached()
    ensures Commit(Commit(Init(), BLANK, FINE).0, Args(false, false, None, Some([PlanEntry(7, 70)])), FINE).0
         == PLANE_SEVEN_PENDING
  {
    var plan := [PlanEntry(7, 70)];
    assert PlanPlanes(plan) == [7] && PlanFramebuffers(plan) == [70] && PlanMap(plan) == map[7 := 70];
    var w1 := Commit(Init(), BLANK, FINE).0;
    assert w1.m == Manager(KmsState(1, [], [], true), KmsState(0, [], [], false), None, 0, 0);
    assert w1.hw.shown.planes == map[] && w1.hw.activeWrites == [true];
    var w2 := Commit(w1, Args(false, false, None, Some(plan)), FINE).0;
    assert w2.hw.queued.value.planes == map[7 := 70];
    assert w2.hw.shown == Frame(1, map[]);
    assert w2.m == PLANE_SEVEN_PENDING.m;
    assert w2.stagedLog == [2];
  }

  /**
   A third commit, made while that frame is pending, loses plane 7: it neither uses nor
   disables it.
   */
  lemma PlaneLeakExample()
    ensures var w3 := Commit(PLANE_SEVEN_PENDING, BLANK, FINE).0;
            && PlanesTracked(PLANE_SEVEN_PENDING)
            && 7 in Latest(w3.hw).planes && Newest(w3.m).usedPlanes == []
  {
  }

  // ----------------------------------------------------------- framebuffer lifetime

  /** Plane by plane: what is programmed and what is shown is referenced by a held state. */
  predicate FramebuffersHeld(w: World) {
    var m, hw := w.m, w.hw;
    && (forall p :: p in Latest(hw).planes ==> Latest(hw).planes[p] in Newest(m).usedFramebuffers)
    && (hw.queued.Some? ==> forall p :: p in hw.shown.planes ==> hw.shown.planes[p] in m.active.usedFramebuffers)
  }

  /** Every framebuffer on screen is referenced by the active state or the pending one. */
  predicate ShownAreReferenced(w: World) {
    forall p :: p in w.hw.shown.planes ==>
      || w.hw.shown.planes[p] in w.m.active.usedFramebuffers
      || (w.m.lastPresentFence.Some? && w.hw.shown.planes[p] in w.m.staged.usedFramebuffers)
  }

  lemma HeldMeansReferenced(w: World)
    requires FramebuffersHeld(w) && ShowsHeldFrame(w)
    ensures ShownAreReferenced(w) && ShownAreReferenced(CaughtUp(w))
  {
    assert CaughtUp(w).hw.shown == Latest(w.hw) && CaughtUp(w).m.active == Newest(w.m);
    assert w.hw.queued.None? ==> w.hw.shown == Latest(w.hw);
  }

  /**
   What a commit has to respect for the framebuffers. A plane that neither the active
   state nor the new plan lists stays on, so the plan must hold its framebuffer; without
   a composition the new state references nothing, so no plane may be on.
   */
  predicate KeepsFramebuffers(w: World, args: Args) {
    var planes := Latest(w.hw).planes;
    if args.composition.Some? then
      var plan := args.composition.value;
      forall p :: p in planes && p !in w.m.active.usedPlanes && p !in PlanPlanes(plan) ==> planes[p] in PlanFramebuffers(plan)
    else planes == map[]
  }

  /** With a composition, a tidy commit keeps the framebuffers too. */
  lemma TidyKeepsFramebuffers(w: World, args: Args)
    requires PlanesTracked(w) && Tidy(w.m, args) && args.composition.Some?
    ensures KeepsFramebuffers(w, args)
  {
    var plan := args.composition.value;
    forall p | p in Latest(w.hw).planes
      ensures p in w.m.active.usedPlanes || p in PlanPlanes(plan)
    {
      assert p in Elements(Newest(w.m).usedPlanes);
      assert p in Elements(w.m.active.usedPlanes) + Elements(PlanPlanes(plan));
    }
  }

  /** The framebuffers after the kernel took a commit, judged plane by plane. */
  lemma CommittedHoldsIff(waited: World, m: Manager, args: Args, env: Env)
    requires waited.m.lastPresentFence.None? && waited.hw.queued.None? && env.fenceDuped
    requires FramebuffersHeld(waited)
    ensures var w' := Committed(waited, m, args, env);
            && (FramebuffersHeld(w') <==> KeepsFramebuffers(waited.(m := m), args))
            && (ShownAreReferenced(CaughtUp(w')) <==> KeepsFramebuffers(waited.(m := m), args))
  {
    CommittedState(waited, m, args, env);
    if args.composition.Some? {
      CommittedPlanes(waited.hw, m, args, ActiveWrite(m, args));
      var before, after := Latest(waited.hw).planes, Latest(Committed(waited, m, args, env).hw).planes;
      assert forall p :: p in before.Keys && p !in Elements(m.active.usedPlanes) ==> p in after.Keys;
      assert forall p :: p in after.Keys && p !in PlanPlanes(args.composition.value) ==>
                           p in before.Keys && p !in Elements(m.active.usedPlanes);
    }
  }

  /**
   The exact condition for framebuffers, with or without a frame pending: a taken commit
   keeps them referenced iff `KeepsFramebuffers` holds where it is made. Where it does
   not, the loss is on screen once the new frame is up and the one before it retired.
   */
  lemma HoldsIff(w: World, args: Args, env: Env)
    requires FramebuffersHeld(w) && ShowsHeldFrame(w)
    requires env.fenceDuped && Takes(w, args, env)
    ensures var w' := Commit(w, args, env).0;
            && (FramebuffersHeld(w') <==> KeepsFramebuffers(w, args))
            && (ShownAreReferenced(CaughtUp(w')) <==> KeepsFramebuffers(w, args))
  {
    assert Commit(w, args, env).0 == Committed(CaughtUp(w), w.m, args, env);
    CommittedHoldsIff(CaughtUp(w), w.m, args, env);
  }

  /** Before the third commit of `PlaneLeakExample` every framebuffer is held. */
  lemma HeldBeforeLeak()
    ensures FramebuffersHeld(PLANE_SEVEN_PENDING) && ShowsHeldFrame(PLANE_SEVEN_PENDING)
  {
  }

  /**
   The lost plane costs a framebuffer: once the third frame is up and retired, the display
   shows framebuffer 70 on plane 7, which no state references.
   */
  lemma FramebufferLeakExample()
    ensures var w4 := CaughtUp(Commit(PLANE_SEVEN_PENDING, BLANK, FINE).0);
            ShowsHeldFrame(w4) && !ShownAreReferenced(w4)
  {
    PlaneLeakExample();
  }

  /**
   Planes and framebuffers are lost on different inputs: a third commit that moves buffer
   70 to plane 8 loses plane 7 but no framebuffer.
   */
  lemma MovedBufferExample()
    ensures var w2, args := PLANE_SEVEN_PENDING, Args(false, false, None, Some([PlanEntry(8, 70)]));
            && Takes(w2, args, FINE) && !Tidy(w2.m, args) && KeepsFramebuffers(w2, args)
            && !PlanesTracked(Commit(w2, args, FINE).0) && FramebuffersHeld(Commit(w2, args, FINE).0)
  {
    var w2, args := PLANE_SEVEN_PENDING, Args(false, false, None, Some([PlanEntry(8, 70)]));
    assert Newest(w2.m).usedPlanes == [7] && 7 in Elements(Newest(w2.m).usedPlanes);
    assert w2.m.active.usedPlanes == [] && PlanPlanes(args.composition.value) == [8];
    BookkeepingIff(w2, args, FINE);
    HeldBeforeLeak();
    HoldsIff(w2, args, FINE);
  }

  /** On an idle manager, a taken commit keeps the references exactly if it carries a composition or no plane is in use. */
  lemma CompositionNeededIff(w: World, args: Args, env: Env)
    requires PlanesTracked(w) && FramebuffersHeld(w) && ShowsHeldFrame(w) && w.m.lastPresentFence.None?
    requires env.fenceDuped && Takes(w, args, env)
    ensures FramebuffersHeld(Commit(w, args, env).0) <==> args.composition.Some? || Latest(w.hw).planes == map[]
  {
    HoldsIff(w, args, env);
    TidyWhenIdle(w.m, args);
    if args.composition.Some? {
      TidyKeepsFramebuffers(w, args);
    }
  }

  /** A commit that the kernel takes respects the framebuffers where it is made. */
  predicate Orderly(s: System, step: Step) {
    step.CommitStep? && Takes(s.w, step.args, step.env) ==> KeepsFramebuffers(s.w, step.args)
  }

  lemma StepHoldsIff(s: System, step: Step)
    requires Counted(s.w) && TrackerKnows(s) && ShowsHeldFrame(s.w) && WokenAfterPresent(s)
    requires FramebuffersHeld(s.w)
    requires Enabled(s, step) && Prompt(step)
    ensures FramebuffersHeld(Next(s, step).w) <==> Orderly(s, step)
  {
    match step {
      case CommitStep(args, env) =>
        if Takes(s.w, args, env) {
          HoldsIff(s.w, args, env);
        }
      case RetireStep =>
        if !s.stopped {
          TrackerRetiresItsFrame(s);
        }
      case _ =>
    }
  }

  predicate OrderlyRun(s: System, steps: seq<Step>)
    requires IsRun(s, steps)
    decreases |steps|
  {
    steps == [] || (Orderly(s, steps[0]) && OrderlyRun(Next(s, steps[0]), steps[1..]))
  }

  /** The framebuffers are held before the run and after each of its steps. */
  predicate HeldThroughout(s: System, steps: seq<Step>)
    requires IsRun(s, steps)
    decreases |steps|
  {
    FramebuffersHeld(s.w) && (steps == [] || HeldThroughout(Next(s, steps[0]), steps[1..]))
  }

  /** A run whose waits succeed holds the framebuffers throughout exactly if its commits are orderly. */
  lemma {:induction false} RunHoldsIff(s: System, steps: seq<Step>)
    requires Counted(s.w) && TrackerKnows(s) && ShowsHeldFrame(s.w) && WokenAfterPresent(s) && FramebuffersHeld(s.w)
    requires IsRun(s, steps) && AllPrompt(steps)
    ensures HeldThroughout(s, steps) <==> OrderlyRun(s, steps)
    decreases |steps|
  {
    if steps != [] {
      StepHoldsIff(s, steps[0]);
      if Orderly(s, steps[0]) {
        StepSafe(s, steps[0]);
        StepShowsHeld(s, steps[0]);
        RunHoldsIff(Next(s, steps[0]), steps[1..]);
      }
    }
  }

  /**
   Framebuffer lifetime: in every run whose fence waits succeed and whose commits are
   orderly, each framebuffer on screen is still referenced, and stays so when the pending
   frame is up and retired.
   */
  lemma {:induction false} RunHoldsFramebuffers(s: System, steps: seq<Step>)
    requires Counted(s.w) && TrackerKnows(s) && ShowsHeldFrame(s.w) && WokenAfterPresent(s) && FramebuffersHeld(s.w)
    requires IsRun(s, steps) && AllPrompt(steps) && OrderlyRun(s, steps)
    ensures var s' := Run(s, steps);
            && ShowsHeldFrame(s'.w) && WokenAfterPresent(s') && FramebuffersHeld(s'.w)
            && ShownAreReferenced(s'.w) && ShownAreReferenced(CaughtUp(s'.w))
    decreases |steps|
  {
    if steps == [] {
      HeldMeansReferenced(s.w);
    } else {
      StepSafe(s, steps[0]);
      StepShowsHeld(s, steps[0]);
      StepHoldsIff(s, steps[0]);
      RunHoldsFramebuffers(Next(s, steps[0]), steps[1..]);
    }
  }

  /** The start state meets every invariant, so the theorems hold for all runs from it. */
  lemma StartIsGood()
    ensures var s := Start();
            && Counted(s.w) && TrackerKnows(s) && Alternates(s.w)
            && ShowsHeldFrame(s.w) && WokenAfterPresent(s) && PlanesTracked(s.w) && FramebuffersHeld(s.w)
  {
  }

  /**
   Over every run from power-on whose fence waits succeed: at whichever step the
   references to a frame drop, a later frame is on screen after that step.
   */
  lemma RunDropsAfterSuccessor(steps: seq<Step>, k: nat, serial: nat)
    requires IsRun(Start(), steps) && AllPrompt(steps) && k < |steps|
    ensures IsRun(Start(), steps[..k]) && IsRun(Start(), steps[..k + 1])
    ensures var before, after := Run(Start(), steps[..k]).w, Run(Start(), steps[..k + 1]).w;
            Held(before.m, serial) && !Held(after.m, serial) ==> after.hw.shown.serial > serial
  {
    RunPrefix(Start(), steps, k);
    StartIsGood();
    var s := Run(Start(), steps[..k]);
    RunSafe(Start(), steps[..k]);
    RunShowsHeld(Start(), steps[..k]);
    if Held(s.w.m, serial) && !Held(Next(s, steps[k]).w.m, serial) {
      DropsAfterSuccessor(s, steps[k], serial);
    }
  }
}
