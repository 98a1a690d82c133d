/**
 Safety of the commit protocol over every interleaving of the main thread, the tracker
 thread and the display (drm/DrmAtomicStateManager.cpp, lines 198-317).
 */
module PresentTracker {
  import opened Options
  import opened AtomicCommit

  /** Where the tracker thread is: at the lock, waiting on a fence, or back from the wait. */
  datatype Tracker = Idle | Waiting(fence: nat) | Woken(fence: nat) | Exited

  datatype System = System(w: World, tracker: Tracker, tracking: int, stopped: bool)

  /** One atomic step of the main thread, the display or the tracker thread. */
  datatype Step =
    | CommitStep(args: Args, env: Env)
    | PresentStep
    | ReadStep(duped: bool)
    | WaitStep(signalled: bool)
    | RetireStep
    | StopStep

  function Start(): System {
    System(Init(), Idle, -1, false)
  }

  predicate Enabled(s: System, step: Step) {
    match step
    case CommitStep(_, _) => !s.stopped
    case PresentStep => s.w.hw.queued.Some?
    case ReadStep(_) => s.tracker.Idle? && (s.stopped || s.w.m.framesStaged > s.tracking)
    case WaitStep(_) => s.tracker.Waiting?
    case RetireStep => s.tracker.Woken?
    case StopStep => !s.stopped
  }

  /** A successful wait on `fence` means that frame, if still queued, has been shown. */
  function Signalled(hw: Hardware, fence: nat): Hardware {
    if hw.queued.Some? && hw.queued.value.serial == fence then Present(hw) else hw
  }

  function Next(s: System, step: Step): System
    requires Enabled(s, step)
  {
    match step
    case CommitStep(args, env) => s.(w := Commit(s.w, args, env).0)
    case PresentStep => s.(w := s.w.(hw := Present(s.w.hw)))
    case ReadStep(duped) =>
      if s.stopped then s.(tracker := Exited)
      else
        var fence := s.w.m.lastPresentFence;
        s.(tracking := s.w.m.framesStaged,
           tracker := if fence.Some? && duped then Waiting(fence.value) else Idle)
    case WaitStep(signalled) =>
      var f := s.tracker.fence;
      s.(w := if signalled then s.w.(hw := Signalled(s.w.hw, f)) else s.w, tracker := Woken(f))
    case RetireStep =>
      if s.stopped then s.(tracker := Exited)
      else s.(w := if s.tracking > s.w.m.framesTracked then Retire(s.w) else s.w, tracker := Idle)
    case StopStep => s.(stopped := true)
  }

  /** All steps of a run are enabled where they are taken. */
  predicate IsRun(s: System, steps: seq<Step>)
    decreases |steps|
  {
    steps == [] || (Enabled(s, steps[0]) && IsRun(Next(s, steps[0]), steps[1..]))
  }

  function Run(s: System, steps: seq<Step>): System
    requires IsRun(s, steps)
    decreases |steps|
  {
    if steps == [] then s else Run(Next(s, steps[0]), steps[1..])
  }

  // --------------------------------------------------------------- tracker safety

  predicate Increasing(log: seq<nat>) {
    forall i, j :: 0 <= i < j < |log| ==> log[i] < log[j]
  }

  /** The counters, the fence and the histories of staged and retired frames agree. */
  predicate Counted(w: World) {
    var m := w.m;
    && !w.assertFailed
    && m.framesStaged - m.framesTracked == (if m.lastPresentFence.Some? then 1 else 0)
    && 0 <= m.framesTracked && m.framesStaged == |w.stagedLog|
    && w.retiredLog == w.stagedLog[..m.framesTracked]
    && (m.lastPresentFence.Some? ==> m.lastPresentFence.value == m.staged.serial == w.stagedLog[m.framesStaged - 1])
    && Increasing(w.stagedLog)
    && (forall i :: 0 <= i < |w.stagedLog| ==> w.stagedLog[i] <= w.hw.commits)
  }

  /** The frame whose fence the tracker holds is the one it counted. */
  predicate TrackerKnows(s: System) {
    && -1 <= s.tracking <= s.w.m.framesStaged == |s.w.stagedLog|
    && (s.tracker.Waiting? || s.tracker.Woken? ==>
          1 <= s.tracking && s.w.stagedLog[s.tracking - 1] == s.tracker.fence)
  }

  lemma WaitPriorCounted(w: World, signalled: bool)
    requires Counted(w)
    ensures var waited := WaitPrior(w, signalled);
            && Counted(waited)
            && waited.m.lastPresentFence.None? && waited.m.active == Newest(w.m)
            && waited.stagedLog == w.stagedLog && waited.hw.commits == w.hw.commits
  {
  }

  lemma CommittedCounted(waited: World, m: Manager, args: Args, env: Env)
    requires Counted(waited) && waited.m.lastPresentFence.None? && env.fenceDuped
    ensures Counted(Committed(waited, m, args, env))
  {
  }

  lemma CommitCounted(w: World, args: Args, env: Env, prepareErr: int)
    requires Counted(w) && env.fenceDuped
    ensures Counted(CommitPrepared(w, args, env, prepareErr).0)
  {
    WaitPriorCounted(w, env.waitSignalled);
    CommittedCounted(WaitPrior(w, env.waitSignalled), w.m, args, env);
  }

  /** Commits only append to the history of staged frames. */
  lemma CommitAppends(w: World, args: Args, env: Env, prepareErr: int)
    ensures var log := CommitPrepared(w, args, env, prepareErr).0.stagedLog;
            log == w.stagedLog || (|log| == |w.stagedLog| + 1 && log[..|w.stagedLog|] == w.stagedLog)
  {
  }

  lemma RetireCounted(w: World)
    requires Counted(w) && w.m.framesTracked < w.m.framesStaged
    ensures Counted(Retire(w)) && Retire(w).stagedLog == w.stagedLog
  {
    var k := w.m.framesTracked;
    assert w.stagedLog[..k + 1] == w.stagedLog[..k] + [w.stagedLog[k]];
  }

  lemma StepSafe(s: System, step: Step)
    requires Counted(s.w) && TrackerKnows(s) && Enabled(s, step)
    requires step.CommitStep? ==> step.env.fenceDuped
    ensures Counted(Next(s, step).w) && TrackerKnows(Next(s, step))
  {
    match step {
      case CommitStep(args, env) =>
        CommitCounted(s.w, args, env, PrepareErr(s.w.m, args, env));
        CommitAppends(s.w, args, env, PrepareErr(s.w.m, args, env));
      case RetireStep =>
        if !s.stopped && s.tracking > s.w.m.framesTracked {
          RetireCounted(s.w);
        }
      case _ =>
    }
  }

  predicate AllDuped(steps: seq<Step>) {
    forall i :: 0 <= i < |steps| && steps[i].CommitStep? ==> steps[i].env.fenceDuped
  }

  /**
   Tracker safety: over every interleaving the two asserts hold, at most one frame is
   pending and exactly while the present fence is set, and frames are retired once each
   in the order in which they were staged.
   */
  lemma {:induction false} RunSafe(s: System, steps: seq<Step>)
    requires Counted(s.w) && TrackerKnows(s)
    requires IsRun(s, steps) && AllDuped(steps)
    ensures Counted(Run(s, steps).w) && TrackerKnows(Run(s, steps))
    decreases |steps|
  {
    if steps != [] {
      StepSafe(s, steps[0]);
      RunSafe(Next(s, steps[0]), steps[1..]);
    }
  }

  /** The tracker retires a frame exactly if it is still pending, and then the very one it waited on. */
  lemma TrackerRetiresItsFrame(s: System)
    requires Counted(s.w) && TrackerKnows(s)
    requires s.tracker.Woken? && !s.stopped
    ensures var s' := Next(s, RetireStep);
            if s.w.m.lastPresentFence == Some(s.tracker.fence)
            then s'.w.retiredLog == s.w.retiredLog + [s.tracker.fence] && s'.w.m.active == s.w.m.staged
            else s'.w == s.w
  {
  }

  /** A stopped tracker leaves the manager alone and exits at the next lock it takes. */
  lemma StoppedExits(s: System, step: Step)
    requires s.stopped && Enabled(s, step) && !step.PresentStep?
    ensures var s' := Next(s, step);
            && s'.w.m == s.w.m && s'.stopped
            && (if s.tracker.Waiting? then s'.tracker.Woken? else s'.tracker.Exited?)
  {
  }

  // -------------------------------------------------------------- tracker progress

  /** A tracker back at the lock has something to do while a frame is pending. */
  predicate Awake(s: System) {
    s.tracker.Idle? && !s.stopped && s.w.m.lastPresentFence.Some? ==> s.tracking < s.w.m.framesStaged
  }

  predicate StepDuped(step: Step) {
    (step.CommitStep? ==> step.env.fenceDuped) && (step.ReadStep? ==> step.duped)
  }

  lemma StepAwake(s: System, step: Step)
    requires Counted(s.w) && TrackerKnows(s) && Awake(s)
    requires Enabled(s, step) && StepDuped(step)
    ensures Awake(Next(s, step))
  {
    if step.CommitStep? {
      CommitAppends(s.w, step.args, step.env, PrepareErr(s.w.m, step.args, step.env));
      StepSafe(s, step);
    }
  }

  /** Over every run whose fences can be duplicated, the tracker never sleeps on a pending frame. */
  lemma {:induction false} RunAwake(s: System, steps: seq<Step>)
    requires Counted(s.w) && TrackerKnows(s) && Awake(s)
    requires IsRun(s, steps) && forall i :: 0 <= i < |steps| ==> StepDuped(steps[i])
    ensures Counted(Run(s, steps).w) && TrackerKnows(Run(s, steps)) && Awake(Run(s, steps))
    decreases |steps|
  {
    if steps != [] {
      StepSafe(s, steps[0]);
      StepAwake(s, steps[0]);
      RunAwake(Next(s, steps[0]), steps[1..]);
    }
  }

  /** One round of the tracker loop. */
  function Round(signalled: bool): seq<Step> {
    [ReadStep(true), WaitStep(signalled), RetireStep]
  }

  /** The round waits on the fence of the pending frame and retires that frame, whatever the wait returns. */
  lemma CatchesUp(s: System, signalled: bool)
    requires Counted(s.w) && TrackerKnows(s) && Awake(s)
    requires s.tracker.Idle? && !s.stopped && s.w.m.lastPresentFence.Some?
    ensures Enabled(s, ReadStep(true)) && Next(s, ReadStep(true)).tracker == Waiting(s.w.m.lastPresentFence.value)
    ensures IsRun(s, Round(signalled))
    ensures var s' := Run(s, Round(signalled));
            && s'.w.m.lastPresentFence.None? && s'.w.m.active == s.w.m.staged && s'.tracker.Idle?
            && s'.w.retiredLog == s.w.retiredLog + [s.w.m.staged.serial]
  {
    var s1 := Next(s, ReadStep(true));
    var s2 := Next(s1, WaitStep(signalled));
    var s3 := Next(s2, RetireStep);
    assert Round(signalled)[1..] == [WaitStep(signalled), RetireStep];
    assert Round(signalled)[1..][1..] == [RetireStep] && [RetireStep][1..] == [];
    assert IsRun(s3, []) && Run(s3, []) == s3;
    assert IsRun(s2, [RetireStep]) && Run(s2, [RetireStep]) == s3;
    assert IsRun(s1, [WaitStep(signalled), RetireStep]) && Run(s1, [WaitStep(signalled), RetireStep]) == s3;
  }

  /** After every such run from power-on, an idle tracker gets a pending frame retired in one round. */
  lemma RunCatchesUp(steps: seq<Step>, signalled: bool)
    requires IsRun(Start(), steps) && forall i :: 0 <= i < |steps| ==> StepDuped(steps[i])
    requires var s := Run(Start(), steps); s.tracker.Idle? && !s.stopped && s.w.m.lastPresentFence.Some?
    ensures var s := Run(Start(), steps);
            && IsRun(s, Round(signalled))
            && Run(s, Round(signalled)).w.m.lastPresentFence.None?
            && Run(s, Round(signalled)).w.retiredLog == s.w.retiredLog + [s.w.m.staged.serial]
  {
    RunAwake(Start(), steps);
    CatchesUp(Run(Start(), steps), signalled);
  }

  /** A nonblocking commit keeps the counters in step with the fence exactly if its fence could be duplicated. */
  lemma DupDecides(w: World, args: Args, env: Env)
    requires Counted(w) && Takes(w, args, env) && ActiveWrite(w.m, args).None?
    ensures Counted(Commit(w, args, env).0) <==> env.fenceDuped
  {
    WaitPriorCounted(w, env.waitSignalled);
    if env.fenceDuped {
      CommitCounted(w, args, env, 0);
    }
  }
}
