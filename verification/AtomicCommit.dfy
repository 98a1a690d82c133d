/**
 The atomic commit and present-tracker protocol as steps over values
 (drm/DrmAtomicStateManager.cpp and .h).

 `Manager` holds the fields of the state manager. `Hardware` is what the kernel and the
 display hold: the frame being scanned out, a frame accepted but not yet shown, and the
 values written to the ACTIVE property. Every successful commit gets the next serial
 number, and a present fence is named by the serial of its frame.
 */
module AtomicCommit {
  import opened Options
  import opened Sequences

  type PlaneId = nat
  type FbId = nat

  const ENOMEM := 12
  const EINVAL := 22

  datatype PlanEntry = PlanEntry(plane: PlaneId, fb: FbId)

  datatype KmsState = KmsState(serial: nat, usedPlanes: seq<PlaneId>, usedFramebuffers: seq<FbId>, crtcActive: bool)

  datatype Args = Args(testOnly: bool, displayMode: bool, active: Option<bool>, composition: Option<seq<PlanEntry>>)

  /** Everything libdrm and the kernel decide during one CommitFrame. */
  datatype Env = Env(psetMade: bool, outFenceSet: bool, activeSet: bool, modeBlobMade: bool, modeSet: bool,
                     unsettable: set<PlaneId>, undisablable: set<PlaneId>,
                     testErr: int, commitErr: int, waitSignalled: bool, fenceDuped: bool)

  datatype Manager = Manager(active: KmsState, staged: KmsState, lastPresentFence: Option<nat>,
                             framesStaged: int, framesTracked: int)

  datatype Frame = Frame(serial: nat, planes: map<PlaneId, FbId>)

  datatype Hardware = Hardware(shown: Frame, queued: Option<Frame>, commits: nat, activeWrites: seq<bool>)

  /** Both sides, the history of staged and retired frames, and whether an assert fired. */
  datatype World = World(m: Manager, hw: Hardware, stagedLog: seq<nat>, retiredLog: seq<nat>, assertFailed: bool)

  function Init(): World {
    var empty := KmsState(0, [], [], false);
    World(Manager(empty, empty, None, 0, 0), Hardware(Frame(0, map[]), None, 0, []), [], [], false)
  }

  /** The newest frame state: the staged one while it is pending, else the active one. */
  function Newest(m: Manager): KmsState {
    if m.lastPresentFence.Some? then m.staged else m.active
  }

  // ------------------------------------------------------------------ plane lists

  function PlanPlanes(plan: seq<PlanEntry>): seq<PlaneId> {
    if plan == [] then [] else PlanPlanes(plan[..|plan| - 1]) + [plan[|plan| - 1].plane]
  }

  function PlanFramebuffers(plan: seq<PlanEntry>): seq<FbId> {
    if plan == [] then [] else PlanFramebuffers(plan[..|plan| - 1]) + [plan[|plan| - 1].fb]
  }

  /** What each plane of the plan is set to show. */
  function PlanMap(plan: seq<PlanEntry>): map<PlaneId, FbId> {
    if plan == [] then map[]
    else var last := plan[|plan| - 1]; PlanMap(plan[..|plan| - 1])[last.plane := last.fb]
  }

  function Without(s: seq<PlaneId>, p: PlaneId): seq<PlaneId> {
    if s == [] then []
    else Without(s[..|s| - 1], p) + if s[|s| - 1] == p then [] else [s[|s| - 1]]
  }

  /** Planes of the previous state that the plan does not use again. */
  function Unused(prev: seq<PlaneId>, plan: seq<PlanEntry>): seq<PlaneId> {
    if plan == [] then prev else Without(Unused(prev, plan[..|plan| - 1]), plan[|plan| - 1].plane)
  }

  lemma {:induction false} WithoutElements(s: seq<PlaneId>, p: PlaneId)
    ensures Elements(Without(s, p)) == Elements(s) - {p}
  {
    if s != [] {
      var init, last := s[..|s| - 1], s[|s| - 1];
      WithoutElements(init, p);
      assert s == init + [last];
      assert Elements(s) == Elements(init) + {last};
      assert Elements(Without(s, p)) == Elements(Without(init, p)) + (if last == p then {} else {last});
    }
  }

  lemma {:induction false} UnusedElements(prev: seq<PlaneId>, plan: seq<PlanEntry>)
    ensures Elements(Unused(prev, plan)) == Elements(prev) - Elements(PlanPlanes(plan))
  {
    if plan != [] {
      UnusedElements(prev, plan[..|plan| - 1]);
      WithoutElements(Unused(prev, plan[..|plan| - 1]), plan[|plan| - 1].plane);
    }
  }

  lemma {:induction false} PlanMapElements(plan: seq<PlanEntry>)
    ensures PlanMap(plan).Keys == Elements(PlanPlanes(plan))
    ensures forall p :: p in PlanMap(plan) ==> PlanMap(plan)[p] in PlanFramebuffers(plan)
  {
    if plan != [] {
      PlanMapElements(plan[..|plan| - 1]);
    }
  }

  // ------------------------------------------------------------------ one commit

  /** The ACTIVE value the commit writes, if it writes one. */
  function ActiveWrite(m: Manager, args: Args): Option<bool> {
    if !m.active.crtcActive then Some(true)
    else if args.active == Some(m.active.crtcActive) then None
    else args.active
  }

  /** Something is left to do once a repeated ACTIVE value is dropped. */
  predicate HasInputs(m: Manager, args: Args) {
    args.displayMode || args.composition.Some? || (args.active.Some? && args.active != Some(m.active.crtcActive))
  }

  function UnusedPlanes(m: Manager, args: Args): seq<PlaneId> {
    if args.composition.Some? then Unused(m.active.usedPlanes, args.composition.value) else []
  }

  /** Error of building the property set; nothing is changed before it is complete. */
  function PrepareErr(m: Manager, args: Args, env: Env): int {
    if !env.psetMade then -ENOMEM
    else if !env.outFenceSet then -EINVAL
    else if ActiveWrite(m, args).Some? && !env.activeSet then -EINVAL
    else if args.displayMode && !(env.modeBlobMade && env.modeSet) then -EINVAL
    else if args.composition.Some? && exists p :: p in env.unsettable && p in PlanPlanes(args.composition.value) then -EINVAL
    else if exists p :: p in env.undisablable && p in UnusedPlanes(m, args) then -EINVAL
    else 0
  }

  /** The state of the new frame. It is derived from the active state, even while a frame is pending. */
  function NewState(m: Manager, args: Args, serial: nat): KmsState {
    KmsState(serial,
             if args.composition.Some? then PlanPlanes(args.composition.value) else m.active.usedPlanes,
             if args.composition.Some? then PlanFramebuffers(args.composition.value) else [],
             if ActiveWrite(m, args).Some? then ActiveWrite(m, args).value else m.active.crtcActive)
  }

  /** The queued frame reaches the screen. */
  function Present(hw: Hardware): Hardware {
    if hw.queued.Some? then hw.(shown := hw.queued.value, queued := None) else hw
  }

  function Latest(hw: Hardware): Frame {
    if hw.queued.Some? then hw.queued.value else hw.shown
  }

  /** CleanupPriorFrameResources: the staged frame becomes active; moving it out empties its lists. */
  function Retire(w: World): World {
    World(Manager(w.m.staged, w.m.staged.(usedPlanes := [], usedFramebuffers := []), None,
                  w.m.framesStaged, w.m.framesTracked + 1),
          w.hw, w.stagedLog, w.retiredLog + [w.m.staged.serial],
          w.assertFailed || w.m.framesStaged - w.m.framesTracked != 1 || w.m.lastPresentFence.None?)
  }

  /** The main thread waits for the prior frame and retires it, whatever the wait returned. */
  function WaitPrior(w: World, signalled: bool): World {
    if w.m.lastPresentFence.None? then w
    else Retire(w.(hw := if signalled then Present(w.hw) else w.hw))
  }

  /**
   The kernel takes a commit. Taking one means that an earlier one has been shown; a
   blocking commit returns once it is on screen itself.
   */
  function KernelCommit(hw: Hardware, args: Args, unused: seq<PlaneId>, activeWrite: Option<bool>): Hardware {
    var before := Latest(hw).planes;
    var planes := if args.composition.Some? then (before - Elements(unused)) + PlanMap(args.composition.value) else before;
    var frame := Frame(hw.commits + 1, planes);
    if activeWrite.None? then Hardware(Latest(hw), Some(frame), hw.commits + 1, hw.activeWrites)
    else Hardware(frame, None, hw.commits + 1, hw.activeWrites + [activeWrite.value])
  }

  function Stage(w: World, state: KmsState, fenceDuped: bool): World {
    w.(m := w.m.(staged := state, lastPresentFence := if fenceDuped then Some(state.serial) else None,
                 framesStaged := w.m.framesStaged + 1),
       stagedLog := w.stagedLog + [state.serial])
  }

  /** CommitFrame. */
  function Commit(w: World, args: Args, env: Env): (r: (World, int)) {
    if !HasInputs(w.m, args) then (w, 0) else CommitPrepared(w, args, env, PrepareErr(w.m, args, env))
  }

  /** CommitFrame from the point where the property set is built, or could not be. */
  function CommitPrepared(w: World, args: Args, env: Env, prepareErr: int): (r: (World, int)) {
    if prepareErr != 0 then (w, prepareErr)
    else if args.testOnly then (w, env.testErr)
    else
      var waited := WaitPrior(w, env.waitSignalled);
      if env.commitErr != 0 then (waited, env.commitErr)
      else (Committed(waited, w.m, args, env), 0)
  }

  /** The world after the kernel took the commit; `m` is the manager as it was on entry. */
  function Committed(waited: World, m: Manager, args: Args, env: Env): World {
    var state := NewState(m, args, waited.hw.commits + 1);
    var taken := waited.(hw := KernelCommit(waited.hw, args, UnusedPlanes(m, args), ActiveWrite(m, args)));
    if ActiveWrite(m, args).None? then Stage(taken, state, env.fenceDuped)
    else taken.(m := taken.m.(active := state))
  }

  /** A real commit that the kernel took. */
  predicate Takes(w: World, args: Args, env: Env) {
    HasInputs(w.m, args) && PrepareErr(w.m, args, env) == 0 && !args.testOnly && env.commitErr == 0
  }

  /** ExecuteAtomicCommit: after a failed real commit the planes are cleared by an empty one. */
  function Execute(w: World, args: Args, env: Env, recovery: Env): (r: (World, int)) {
    var (w1, err) := Commit(w, args, env);
    if !args.testOnly && err != 0
    then (Commit(w1, Args(false, false, None, Some([])), recovery).0, err)
    else (w1, err)
  }
}
