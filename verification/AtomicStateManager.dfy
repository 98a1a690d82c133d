/**
 The state manager and its tracker thread as objects that change in place
 (drm/DrmAtomicStateManager.cpp and .h). Each method is proved to take exactly the step
 that `AtomicCommit` or `PresentTracker` describes. The kernel is the field `kernel`.
 */
module AtomicStateManager {
  import opened Options
  import opened AtomicCommit
  import opened PresentTracker

  /** Sets the planes of the plan, collecting what is used and what the previous state leaves over. */
  method SetPlanes(plan: seq<PlanEntry>, prev: seq<PlaneId>, unsettable: set<PlaneId>)
    returns (ok: bool, usedPlanes: seq<PlaneId>, usedFramebuffers: seq<FbId>, unused: seq<PlaneId>)
    ensures ok <==> !exists p :: p in unsettable && p in PlanPlanes(plan)
    ensures ok ==> && usedPlanes == PlanPlanes(plan)
                   && usedFramebuffers == PlanFramebuffers(plan)
                   && unused == Unused(prev, plan)
  {
    usedPlanes, usedFramebuffers, unused := [], [], prev;
    for i := 0 to |plan|
      invariant usedPlanes == PlanPlanes(plan[..i])
      invariant usedFramebuffers == PlanFramebuffers(plan[..i])
      invariant unused == Unused(prev, plan[..i])
      invariant forall p :: p in usedPlanes ==> p !in unsettable
    {
      assert plan[..i + 1][..i] == plan[..i] && plan[..i + 1][i] == plan[i];
      usedFramebuffers := usedFramebuffers + [plan[i].fb];
      usedPlanes := usedPlanes + [plan[i].plane];
      unused := Remove(unused, plan[i].plane);
      if plan[i].plane in unsettable {
        PlanPlanesPrefix(plan, i + 1);
        assert plan[i].plane in usedPlanes;
        return false, [], [], [];
      }
    }
    assert plan[..|plan|] == plan;
    ok := true;
  }

  lemma {:induction false} PlanPlanesPrefix(plan: seq<PlanEntry>, n: nat)
    requires n <= |plan|
    ensures forall p :: p in PlanPlanes(plan[..n]) ==> p in PlanPlanes(plan)
    decreases |plan|
  {
    if n < |plan| {
      var init := plan[..|plan| - 1];
      PlanPlanesPrefix(init, n);
      assert init[..n] == plan[..n];
    } else {
      assert plan[..n] == plan;
    }
  }

  /** Erases every occurrence of `p`. */
  method Remove(s: seq<PlaneId>, p: PlaneId) returns (r: seq<PlaneId>)
    ensures r == Without(s, p)
  {
    r := [];
    for i := 0 to |s|
      invariant r == Without(s[..i], p)
    {
      assert s[..i + 1][..i] == s[..i] && s[..i + 1][i] == s[i];
      if s[i] != p {
        r := r + [s[i]];
      }
    }
    assert s[..|s|] == s;
  }

  method DisablePlanes(unused: seq<PlaneId>, undisablable: set<PlaneId>) returns (ok: bool)
    ensures ok <==> !exists p :: p in undisablable && p in unused
  {
    for i := 0 to |unused|
      invariant forall k :: 0 <= k < i ==> unused[k] !in undisablable
    {
      if unused[i] in undisablable {
        return false;
      }
    }
    ok := true;
  }

  class DrmAtomicStateManager {
    var active: KmsState
    var staged: KmsState
    var lastPresentFence: Option<nat>
    var framesStaged: int
    var framesTracked: int
    var kernel: Hardware
    ghost var stagedLog: seq<nat>
    ghost var retiredLog: seq<nat>

    ghost function View(): World
      reads this
    {
      World(Manager(active, staged, lastPresentFence, framesStaged, framesTracked), kernel, stagedLog, retiredLog, false)
    }

    /** What the asserts of CleanupPriorFrameResources rely on. */
    predicate Valid()
      reads this
    {
      framesStaged - framesTracked == if lastPresentFence.Some? then 1 else 0
    }

    constructor ()
      ensures Valid() && View() == Init()
    {
      var empty := KmsState(0, [], [], false);
      active, staged, lastPresentFence := empty, empty, None;
      framesStaged, framesTracked := 0, 0;
      kernel := Hardware(Frame(0, map[]), None, 0, []);
      stagedLog, retiredLog := [], [];
    }

    method CleanupPriorFrameResources()
      requires framesStaged - framesTracked == 1 && lastPresentFence.Some?
      modifies this
      ensures Valid() && View() == Retire(old(View()))
    {
      framesTracked := framesTracked + 1;
      retiredLog := retiredLog + [staged.serial];
      active := staged;
      staged := staged.(usedPlanes := [], usedFramebuffers := []);
      lastPresentFence := None;
    }

    /** Builds the property set and the state of the new frame; changes nothing. */
    method Prepare(args: Args, env: Env, activeWrite: Option<bool>)
      returns (err: int, state: KmsState, unused: seq<PlaneId>)
      requires HasInputs(View().m, args) && activeWrite == ActiveWrite(View().m, args)
      ensures err == PrepareErr(View().m, args, env)
      ensures err == 0 ==> && state == NewState(View().m, args, kernel.commits + 1)
                           && unused == UnusedPlanes(View().m, args)
    {
      state := KmsState(kernel.commits + 1, active.usedPlanes, [], active.crtcActive);
      unused := [];
      if !env.psetMade {
        return -ENOMEM, state, unused;
      }
      if !env.outFenceSet {
        return -EINVAL, state, unused;
      }
      if activeWrite.Some? {
        state := state.(crtcActive := activeWrite.value);
        if !env.activeSet {
          return -EINVAL, state, unused;
        }
      }
      if args.displayMode && !(env.modeBlobMade && env.modeSet) {
        return -EINVAL, state, unused;
      }
      if args.composition.Some? {
        var ok, usedPlanes, usedFramebuffers, left := SetPlanes(args.composition.value, active.usedPlanes, env.unsettable);
        if !ok {
          return -EINVAL, state, unused;
        }
        state := state.(usedPlanes := usedPlanes, usedFramebuffers := usedFramebuffers);
        unused := left;
        var disabled := DisablePlanes(unused, env.undisablable);
        if !disabled {
          return -EINVAL, state, unused;
        }
      }
      err := 0;
    }

    method CommitFrame(args: Args, env: Env) returns (err: int)
      requires Valid()
      modifies this
      ensures (View(), err) == Commit(old(View()), args, env)
      ensures env.fenceDuped || err != 0 ==> Valid()
    {
      if !HasInputs(Manager(active, staged, lastPresentFence, framesStaged, framesTracked), args) {
        return 0;
      }
      var activeWrite := if args.active == Some(active.crtcActive) then None else args.active;
      if !active.crtcActive {
        activeWrite := Some(true);
      }
      var state, unused;
      err, state, unused := Prepare(args, env, activeWrite);
      if err != 0 {
        return err;
      }
      if args.testOnly {
        return env.testErr;
      }
      err := CommitSet(args, env, activeWrite, state, unused);
    }

    /** The real commit: wait for the prior frame, hand the set to the kernel, keep the new state. */
    method CommitSet(args: Args, env: Env, activeWrite: Option<bool>, state: KmsState, unused: seq<PlaneId>)
      returns (err: int)
      requires Valid() && !args.testOnly && activeWrite == ActiveWrite(View().m, args)
      requires state == NewState(View().m, args, kernel.commits + 1) && unused == UnusedPlanes(View().m, args)
      modifies this
      ensures (View(), err) == CommitPrepared(old(View()), args, env, 0)
      ensures env.fenceDuped || err != 0 ==> Valid()
    {
      if lastPresentFence.Some? {
        if env.waitSignalled {
          kernel := Present(kernel);
        }
        CleanupPriorFrameResources();
      }
      if env.commitErr != 0 {
        return env.commitErr;
      }
      kernel := KernelCommit(kernel, args, unused, activeWrite);
      if activeWrite.None? {
        lastPresentFence := if env.fenceDuped then Some(state.serial) else None;
        staged := state;
        framesStaged := framesStaged + 1;
        stagedLog := stagedLog + [state.serial];
      } else {
        active := state;
      }
      return 0;
    }

    method ExecuteAtomicCommit(args: Args, env: Env, recovery: Env) returns (err: int)
      requires Valid()
      modifies this
      ensures (View(), err) == Execute(old(View()), args, env, recovery)
      ensures env.fenceDuped && recovery.fenceDuped ==> Valid()
    {
      err := CommitFrame(args, env);
      if !args.testOnly && err != 0 {
        var ignored := CommitFrame(Args(false, false, None, Some([])), recovery);
      }
    }
  }

  class PresentTrackerThread {
    const stMan: DrmAtomicStateManager
    var stopped: bool
    var tracking: int
    var tracker: Tracker

    ghost function View(): System
      reads this, stMan
    {
      System(stMan.View(), tracker, tracking, stopped)
    }

    constructor (m: DrmAtomicStateManager)
      ensures stMan == m && View() == System(m.View(), Idle, -1, false)
    {
      stMan, stopped, tracking, tracker := m, false, -1, Idle;
    }

    method Stop()
      modifies this
      ensures View() == old(View()).(stopped := true)
    {
      stopped := true;
    }

    /** The first locked section of the loop. */
    method ReadFence(duped: bool)
      requires Enabled(View(), ReadStep(duped))
      modifies this
      ensures View() == Next(old(View()), ReadStep(duped))
    {
      if stopped {
        tracker := Exited;
        return;
      }
      tracking := stMan.framesStaged;
      if stMan.lastPresentFence.Some? && duped {
        tracker := Waiting(stMan.lastPresentFence.value);
      }
    }

    /** The unlocked wait in the middle; the display may move on meanwhile. */
    method AwaitFence(signalled: bool)
      requires Enabled(View(), WaitStep(signalled))
      modifies this, stMan`kernel
      ensures View() == Next(old(View()), WaitStep(signalled))
    {
      var fence := tracker.fence;
      if signalled {
        stMan.kernel := Signalled(stMan.kernel, fence);
      }
      tracker := Woken(fence);
    }

    /** The second locked section: retire the frame unless the main thread already did. */
    method RetireFrame()
      requires Counted(stMan.View()) && TrackerKnows(View())
      requires Enabled(View(), RetireStep)
      modifies this, stMan
      ensures View() == Next(old(View()), RetireStep)
    {
      if stopped {
        tracker := Exited;
        return;
      }
      if tracking > stMan.framesTracked {
        stMan.CleanupPriorFrameResources();
      }
      tracker := Idle;
    }
  }
}
