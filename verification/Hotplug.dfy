/**
 Displays, pipelines and their handles under hotplug (hwc2_device/DrmHwcTwo.cpp,
 hwc2_device/HwcDisplay.cpp SetPipeline, drm/ResourceManager.cpp).

 A display is represented by the pipeline it drives; `None` is headless mode. Finalizing
 releases the main lock around the callbacks and while it sleeps, so it is three steps, and
 binds and unbinds may run between them.
 */
module Hotplug {
  import opened Options

  type Pipe = nat
  type Handle = nat

  const PRIMARY: Handle := 0

  datatype Hwc = Hwc(displays: map<Handle, Option<Pipe>>, handles: map<Pipe, Handle>,
                     removal: seq<Handle>, deferred: map<Handle, bool>, lastHandle: Handle)

  function Empty(): Hwc {
    Hwc(map[], map[], [], map[], PRIMARY)
  }

  /** SetPipeline: the display changes its pipeline and schedules a hotplug event. */
  function SetPipeline(s: Hwc, h: Handle, pipe: Option<Pipe>): Hwc {
    s.(displays := s.displays[h := pipe], deferred := s.deferred[h := pipe.Some? || h == PRIMARY])
  }

  /** The handle a new pipeline gets: the primary while that is free, else a fresh one. */
  function NextHandle(s: Hwc): Handle {
    if PRIMARY in s.displays && s.displays[PRIMARY].Some? then s.lastHandle + 1 else PRIMARY
  }

  function Bind(s: Hwc, pipe: Pipe): Hwc {
    if pipe in s.handles then s
    else
      var h := NextHandle(s);
      var s1 := SetPipeline(s, h, Some(pipe));
      s1.(handles := s1.handles[pipe := h], lastHandle := if h == PRIMARY then s.lastHandle else h)
  }

  function Unbind(s: Hwc, pipe: Pipe): Hwc {
    if pipe !in s.handles then s
    else
      var h := s.handles[pipe];
      var s1 := s.(handles := s.handles - {pipe});
      if h !in s.displays then s1
      else
        var s2 := SetPipeline(s1, h, None);
        if h == PRIMARY then s2 else s2.(removal := s2.removal + [h])
  }

  /** First part of FinalizeDisplayBinding: a primary always exists and takes over a pipeline if it has none. */
  function Settle(s: Hwc, first: Pipe): Hwc {
    var s1 := if PRIMARY in s.displays then s else SetPipeline(s, PRIMARY, None);
    if s1.displays[PRIMARY].None? && first in s1.handles then Bind(Unbind(s1, first), first) else s1
  }

  /** After the callbacks, each of which releases the lock, the deferred events are dropped. */
  function ClearEvents(s: Hwc): Hwc {
    s.(deferred := map[])
  }

  /** Last part: dispose of the displays on the removal list, which is never cleared. */
  function Dispose(s: Hwc): Hwc {
    s.(displays := s.displays - set h | h in s.removal)
  }

  /** Unregistering the hotplug callback removes the headless primary. */
  function DropPrimary(s: Hwc): Hwc {
    s.(displays := s.displays - {PRIMARY})
  }

  // -------------------------------------------------------------------- invariant

  /** The two maps agree: a pipeline's handle names a display that drives this pipeline. */
  ghost predicate MapsAgree(s: Hwc) {
    && (forall p :: p in s.handles ==> s.handles[p] in s.displays && s.displays[s.handles[p]] == Some(p))
    && (forall h :: h in s.displays && s.displays[h].Some? ==>
          s.displays[h].value in s.handles && s.handles[s.displays[h].value] == h)
  }

  /** Handles are never reused, and the removal list names only displays that are done. */
  ghost predicate HandlesFresh(s: Hwc) {
    && (forall h :: h in s.displays ==> h <= s.lastHandle)
    && (forall h :: h in s.removal ==> PRIMARY < h <= s.lastHandle && (h in s.displays ==> s.displays[h].None?))
  }

  /** A display without pipeline is the primary or waits for removal. */
  ghost predicate NoStrays(s: Hwc) {
    forall h :: h in s.displays && s.displays[h].None? ==> h == PRIMARY || h in s.removal
  }

  /** What the client should believe of a handle; the primary always counts as connected. */
  predicate Connected(s: Hwc, h: Handle) {
    h in s.displays && (s.displays[h].Some? || h == PRIMARY)
  }

  /** A deferred hotplug event tells whether its display is connected now. */
  ghost predicate EventsTrue(s: Hwc) {
    forall h :: h in s.deferred ==> (s.deferred[h] <==> Connected(s, h))
  }

  ghost predicate Consistent(s: Hwc) {
    MapsAgree(s) && HandlesFresh(s) && NoStrays(s) && EventsTrue(s)
  }

  /** No two pipelines share a handle. */
  lemma HandlesInjective(s: Hwc, p: Pipe, q: Pipe)
    requires MapsAgree(s) && p in s.handles && q in s.handles && s.handles[p] == s.handles[q]
    ensures p == q
  {
  }

  lemma BindConsistent(s: Hwc, pipe: Pipe)
    requires Consistent(s)
    ensures Consistent(Bind(s, pipe)) && pipe in Bind(s, pipe).handles
    ensures Bind(s, pipe).handles.Keys == s.handles.Keys + {pipe}
  {
    if pipe !in s.handles {
      var h := NextHandle(s);
      assert h in s.displays ==> s.displays[h].None?;
      assert forall p :: p in s.handles ==> s.handles[p] != h;
    }
  }

  lemma UnbindConsistent(s: Hwc, pipe: Pipe)
    requires Consistent(s)
    ensures Consistent(Unbind(s, pipe)) && Unbind(s, pipe).handles.Keys == s.handles.Keys - {pipe}
  {
  }

  lemma SettleConsistent(s: Hwc, first: Pipe)
    requires Consistent(s) && (s.handles != map[] ==> first in s.handles)
    ensures var s' := Settle(s, first);
            && Consistent(s') && s'.handles.Keys == s.handles.Keys
            && PRIMARY in s'.displays && (s'.displays[PRIMARY].None? ==> s'.handles == map[])
  {
    var s1 := if PRIMARY in s.displays then s else SetPipeline(s, PRIMARY, None);
    assert Consistent(s1);
    if s1.displays[PRIMARY].None? && first in s1.handles {
      UnbindConsistent(s1, first);
      BindConsistent(Unbind(s1, first), first);
    }
  }

  lemma DisposeConsistent(s: Hwc)
    requires Consistent(s)
    ensures Consistent(Dispose(s)) && Dispose(s).handles == s.handles
    ensures forall h :: h in Dispose(s).displays <==> h in s.displays && h !in s.removal
  {
  }

  /**
   When finalizing runs without interference, the primary display exists, it is headless
   only if nothing is bound, and only the primary and bound displays remain.
   */
  lemma FinalizeAlone(s: Hwc, first: Pipe)
    requires Consistent(s) && (s.handles != map[] ==> first in s.handles)
    ensures var s' := Dispose(ClearEvents(Settle(s, first)));
            && Consistent(s')
            && s'.handles.Keys == s.handles.Keys && s'.deferred == map[]
            && PRIMARY in s'.displays
            && (s'.displays[PRIMARY].None? <==> s'.handles == map[])
            && (forall h :: h in s'.displays <==> h == PRIMARY || exists p :: p in s'.handles && s'.handles[p] == h)
  {
    SettleConsistent(s, first);
    var s1 := ClearEvents(Settle(s, first));
    assert Consistent(s1);
    DisposeConsistent(s1);
    var s' := Dispose(s1);
    forall h | h in s'.displays && h != PRIMARY
      ensures exists p :: p in s'.handles && s'.handles[p] == h
    {
      assert s'.displays[h].Some?;
      var p := s'.displays[h].value;
      assert p in s'.handles && s'.handles[p] == h;
    }
  }

  // ------------------------------------------------------------------ hotplug events

  /** Binding a new pipeline announces its display, unbinding takes the display back; other events stay. */
  lemma BindAnnounces(s: Hwc, pipe: Pipe)
    requires Consistent(s)
    ensures var s' := Bind(s, pipe);
            if pipe in s.handles then s' == s
            else s'.deferred == s.deferred[s'.handles[pipe] := true]
  {
  }

  lemma UnbindAnnounces(s: Hwc, pipe: Pipe)
    requires Consistent(s)
    ensures var s' := Unbind(s, pipe);
            if pipe !in s.handles then s' == s
            else s'.deferred == s.deferred[s.handles[pipe] := s.handles[pipe] == PRIMARY]
  {
  }

  /** Settling announces the primary if it was missing or takes over a pipeline, whose old display it takes back. */
  lemma SettleAnnounces(s: Hwc, first: Pipe)
    requires Consistent(s) && (s.handles != map[] ==> first in s.handles)
    ensures var s' := Settle(s, first);
            && (PRIMARY !in s.displays || (s.displays[PRIMARY].None? && s.handles != map[]) ==>
                  PRIMARY in s'.deferred && s'.deferred[PRIMARY])
            && (PRIMARY in s.displays && (s.displays[PRIMARY].Some? || s.handles == map[]) ==> s' == s)
            && (s' != s && s.handles != map[] ==>
                  s.handles[first] in s'.deferred && !s'.deferred[s.handles[first]] && s'.handles[first] == PRIMARY)
  {
    var s1 := if PRIMARY in s.displays then s else SetPipeline(s, PRIMARY, None);
    assert Consistent(s1);
    if s1.displays[PRIMARY].None? && first in s1.handles {
      UnbindConsistent(s1, first);
      UnbindAnnounces(s1, first);
      BindAnnounces(Unbind(s1, first), first);
    }
  }

  // -------------------------------------------------------------------------- runs

  datatype Step = BindStep(pipe: Pipe) | UnbindStep(pipe: Pipe) | SettleStep(first: Pipe)
                | ClearEventsStep | DisposeStep | DropPrimaryStep

  function Next(s: Hwc, step: Step): Hwc {
    match step
    case BindStep(pipe) => Bind(s, pipe)
    case UnbindStep(pipe) => Unbind(s, pipe)
    case SettleStep(first) => Settle(s, first)
    case ClearEventsStep => ClearEvents(s)
    case DisposeStep => Dispose(s)
    case DropPrimaryStep => DropPrimary(s)
  }

  /**
   Settling takes the first bound pipeline, whichever that is, when there is one. The
   primary is dropped only after all pipelines were detached and the events sent.
   */
  predicate Enabled(s: Hwc, step: Step) {
    && (step.SettleStep? && s.handles != map[] ==> step.first in s.handles)
    && (step.DropPrimaryStep? ==> s.handles == map[] && s.deferred == map[])
  }

  predicate IsRun(s: Hwc, steps: seq<Step>)
    decreases |steps|
  {
    steps == [] || (Enabled(s, steps[0]) && IsRun(Next(s, steps[0]), steps[1..]))
  }

  function Run(s: Hwc, steps: seq<Step>): Hwc
    requires IsRun(s, steps)
    decreases |steps|
  {
    if steps == [] then s else Run(Next(s, steps[0]), steps[1..])
  }

  lemma StepConsistent(s: Hwc, step: Step)
    requires Consistent(s) && Enabled(s, step)
    ensures Consistent(Next(s, step))
  {
    match step {
      case BindStep(pipe) => BindConsistent(s, pipe);
      case UnbindStep(pipe) => UnbindConsistent(s, pipe);
      case SettleStep(first) => SettleConsistent(s, first);
      case DisposeStep => DisposeConsistent(s);
      case _ =>
    }
  }

  /** Over every interleaving of binds, unbinds and the parts of finalizing, the maps stay consistent. */
  lemma {:induction false} RunConsistent(s: Hwc, steps: seq<Step>)
    requires Consistent(s) && IsRun(s, steps)
    ensures Consistent(Run(s, steps))
    decreases |steps|
  {
    if steps != [] {
      StepConsistent(s, steps[0]);
      RunConsistent(Next(s, steps[0]), steps[1..]);
    }
  }

  /** Every handle whose connectedness differs between the two states has a deferred event. */
  ghost predicate Announced(base: Hwc, s: Hwc) {
    forall h :: Connected(base, h) != Connected(s, h) ==> h in s.deferred
  }

  /** Where the client last was up to date: when the events were sent, or when it left. */
  function Baseline(base: Hwc, s: Hwc, steps: seq<Step>): Hwc
    requires IsRun(s, steps)
    decreases |steps|
  {
    if steps == [] then base
    else
      var s' := Next(s, steps[0]);
      Baseline(if steps[0].ClearEventsStep? || steps[0].DropPrimaryStep? then s' else base, s', steps[1..])
  }

  /** A pipeline change is announced whatever it does. */
  lemma SetPipelineAnnounced(base: Hwc, s: Hwc, h: Handle, pipe: Option<Pipe>)
    requires Announced(base, s)
    ensures Announced(base, SetPipeline(s, h, pipe))
  {
  }

  lemma BindAnnounced(base: Hwc, s: Hwc, pipe: Pipe)
    requires Announced(base, s)
    ensures Announced(base, Bind(s, pipe)) && Announced(base, Unbind(s, pipe))
  {
    SetPipelineAnnounced(base, s, NextHandle(s), Some(pipe));
    if pipe in s.handles {
      SetPipelineAnnounced(base, s, s.handles[pipe], None);
    }
  }

  lemma StepAnnounced(base: Hwc, s: Hwc, step: Step)
    requires Consistent(s) && Enabled(s, step) && Announced(base, s)
    requires !step.ClearEventsStep? && !step.DropPrimaryStep?
    ensures Announced(base, Next(s, step))
  {
    match step {
      case BindStep(pipe) => BindAnnounced(base, s, pipe);
      case UnbindStep(pipe) => BindAnnounced(base, s, pipe);
      case SettleStep(first) =>
        SetPipelineAnnounced(base, s, PRIMARY, None);
        var s1 := if PRIMARY in s.displays then s else SetPipeline(s, PRIMARY, None);
        BindAnnounced(base, s1, first);
        BindAnnounced(base, Unbind(s1, first), first);
      case DisposeStep =>
        assert forall h :: Connected(Dispose(s), h) == Connected(s, h);
      case _ =>
    }
  }

  /**
   No change goes unannounced: over every interleaving, a handle whose connectedness
   differs from what it was when the client was last up to date has a deferred event,
   and the event tells its connectedness now.
   */
  lemma {:induction false} RunAnnounced(base: Hwc, s: Hwc, steps: seq<Step>)
    requires Consistent(s) && IsRun(s, steps) && Announced(base, s)
    ensures Announced(Baseline(base, s, steps), Run(s, steps)) && EventsTrue(Run(s, steps))
    decreases |steps|
  {
    if steps != [] {
      StepConsistent(s, steps[0]);
      var s' := Next(s, steps[0]);
      if steps[0].ClearEventsStep? || steps[0].DropPrimaryStep? {
        RunAnnounced(s', s', steps[1..]);
      } else {
        StepAnnounced(base, s, steps[0]);
        RunAnnounced(base, s', steps[1..]);
      }
    }
  }

  /** A bound display is never disposed of, however old the removal list is. */
  lemma DisposeSparesBound(s: Hwc, steps: seq<Step>, pipe: Pipe)
    requires Consistent(s) && IsRun(s, steps) && pipe in Run(s, steps).handles
    ensures var s' := Dispose(Run(s, steps));
            pipe in s'.handles && s'.handles[pipe] in s'.displays && s'.displays[s'.handles[pipe]] == Some(pipe)
  {
    RunConsistent(s, steps);
    DisposeConsistent(Run(s, steps));
  }

  // ----------------------------------------------------------------------- objects

  class DrmHwcTwo {
    var displays: map<Handle, Option<Pipe>>
    var displayHandles: map<Pipe, Handle>
    var displaysForRemoval: seq<Handle>
    var deferredHotplugEvents: map<Handle, bool>
    var lastDisplayHandle: Handle

    function View(): Hwc
      reads this
    {
      Hwc(displays, displayHandles, displaysForRemoval, deferredHotplugEvents, lastDisplayHandle)
    }

    constructor ()
      ensures View() == Empty()
    {
      displays, displayHandles, displaysForRemoval := map[], map[], [];
      deferredHotplugEvents, lastDisplayHandle := map[], PRIMARY;
    }

    method SetDisplayPipeline(h: Handle, pipe: Option<Pipe>)
      modifies this
      ensures View() == SetPipeline(old(View()), h, pipe)
    {
      displays := displays[h := pipe];
      deferredHotplugEvents := deferredHotplugEvents[h := pipe.Some? || h == PRIMARY];
    }

    method BindDisplay(pipe: Pipe) returns (ok: bool)
      modifies this
      ensures View() == Bind(old(View()), pipe)
      ensures ok <==> pipe !in old(displayHandles)
    {
      if pipe in displayHandles {
        return false;
      }
      var handle := PRIMARY;
      if PRIMARY in displays && displays[PRIMARY].Some? {
        lastDisplayHandle := lastDisplayHandle + 1;
        handle := lastDisplayHandle;
      }
      SetDisplayPipeline(handle, Some(pipe));
      displayHandles := displayHandles[pipe := handle];
      return true;
    }

    method UnbindDisplay(pipe: Pipe) returns (ok: bool)
      modifies this
      ensures View() == Unbind(old(View()), pipe)
      ensures old(Consistent(View())) ==> (ok <==> pipe in old(displayHandles))
    {
      if pipe !in displayHandles {
        return false;
      }
      var handle := displayHandles[pipe];
      displayHandles := displayHandles - {pipe};
      if handle !in displays {
        return false;
      }
      SetDisplayPipeline(handle, None);
      if handle != PRIMARY {
        displaysForRemoval := displaysForRemoval + [handle];
      }
      return true;
    }

    /** The locked part of FinalizeDisplayBinding before the callbacks. */
    method SettleDisplays() returns (first: Pipe)
      modifies this
      ensures old(displayHandles) != map[] ==> first in old(displayHandles)
      ensures View() == Settle(old(View()), first)
    {
      first := 0;
      if PRIMARY !in displays {
        SetDisplayPipeline(PRIMARY, None);
      }
      if displayHandles != map[] {
        first :| first in displayHandles;
        if displays[PRIMARY].None? {
          var unbound := UnbindDisplay(first);
          var bound := BindDisplay(first);
        }
      }
    }

    /** The events have been handed to the client; whatever is deferred by now is dropped. */
    method ClearDeferredEvents()
      modifies this`deferredHotplugEvents
      ensures View() == ClearEvents(old(View()))
    {
      deferredHotplugEvents := map[];
    }

    /** The part after the sleep. A handle already gone is entered as null and erased again. */
    method DisposeDisplays()
      modifies this`displays
      ensures View() == Dispose(old(View()))
    {
      ghost var before := displays;
      for i := 0 to |displaysForRemoval|
        invariant displays == before - set h | h in displaysForRemoval[..i]
      {
        displays := displays - {displaysForRemoval[i]};
      }
      assert displaysForRemoval[..|displaysForRemoval|] == displaysForRemoval;
    }
  }

  type Connector = nat

  /** Attached pipelines are live objects, so no two connectors have the same one. */
  ghost predicate OnePerConnector(attached: map<Connector, Pipe>) {
    forall c, d :: c in attached && d in attached && c != d ==> attached[c] != attached[d]
  }

  /** Some address that no live pipeline has. */
  method AllocatePipe(live: set<Pipe>) returns (p: Pipe)
    ensures p !in live
  {
    p := 0;
    var rest := live;
    while rest != {}
      invariant rest <= live && forall x :: x in live && x !in rest ==> x < p
      decreases |rest|
    {
      var x :| x in rest;
      p := if x < p then p else x + 1;
      rest := rest - {x};
    }
  }

  class ResourceManager {
    const frontend: DrmHwcTwo
    var attached: map<Connector, Pipe>

    /** The frontend has bound exactly the attached pipelines. */
    ghost predicate Synced()
      reads this, frontend
    {
      Consistent(frontend.View()) && OnePerConnector(attached) && frontend.displayHandles.Keys == attached.Values
    }

    constructor (frontend: DrmHwcTwo)
      requires frontend.View() == Empty()
      ensures this.frontend == frontend && attached == map[] && Synced()
    {
      this.frontend, attached := frontend, map[];
    }

    method Attach(conn: Connector)
      requires Synced() && conn !in attached
      modifies this, frontend
      ensures Synced() && attached.Keys == old(attached).Keys + {conn}
      ensures forall c :: c in old(attached) ==> attached[c] == old(attached)[c]
    {
      var pipe := AllocatePipe(attached.Values);
      BindConsistent(frontend.View(), pipe);
      ghost var before := attached;
      var ok := frontend.BindDisplay(pipe);
      attached := attached[conn := pipe];
      ValuesAdded(before, conn, pipe);
    }

    method Detach(conn: Connector)
      requires Synced() && conn in attached
      modifies this, frontend
      ensures Synced() && attached == old(attached) - {conn}
    {
      var pipe := attached[conn];
      UnbindConsistent(frontend.View(), pipe);
      ghost var before := attached;
      var ok := frontend.UnbindDisplay(pipe);
      attached := attached - {conn};
      ValuesRemoved(before, conn);
    }

    /** What one visit to a connector makes of it. */
    method VisitConnector(conn: Connector, connected: bool, creatable: bool)
      requires Synced()
      modifies this, frontend
      ensures Synced()
      ensures conn in attached <==> connected && (conn in old(attached) || creatable)
      ensures forall c :: c != conn ==> (c in attached <==> c in old(attached))
    {
      if connected != (conn in attached) {
        if connected {
          if creatable {
            Attach(conn);
          }
        } else {
          Detach(conn);
        }
      }
    }

    /**
     One hotplug round: afterwards the attached connectors among the listed ones are the
     connected ones for which a pipeline exists. Each attached connector has a display of
     its own, and the primary display is headless exactly if nothing is attached.
     */
    method UpdateFrontendDisplays(connectors: seq<Connector>, connected: Connector -> bool, creatable: Connector -> bool)
      requires Synced()
      modifies this, frontend
      ensures Synced()
      ensures forall c :: c in attached <==> StaysAttached(c, connectors, old(attached), connected, creatable)
      ensures DisplaysServe(frontend.View(), attached)
    {
      ghost var before := attached;
      for i := 0 to |connectors|
        invariant Synced()
        invariant forall c :: c in attached <==> StaysAttached(c, connectors[..i], before, connected, creatable)
      {
        assert connectors[..i + 1] == connectors[..i] + [connectors[i]];
        VisitConnector(connectors[i], connected(connectors[i]), creatable(connectors[i]));
      }
      assert connectors[..|connectors|] == connectors;
      FinalizeDisplays();
    }

    method FinalizeDisplays()
      requires Synced()
      modifies frontend
      ensures Synced() && DisplaysServe(frontend.View(), attached)
    {
      ghost var s := frontend.View();
      ghost var first := frontend.SettleDisplays();
      frontend.ClearDeferredEvents();
      frontend.DisposeDisplays();
      FinalizeAlone(s, first);
      ServeAfterFinalize(frontend.View(), attached);
    }
  }

  ghost predicate StaysAttached(c: Connector, visited: seq<Connector>, before: map<Connector, Pipe>,
                                connected: Connector -> bool, creatable: Connector -> bool)
  {
    if c in visited then connected(c) && (c in before || creatable(c)) else c in before
  }

  /** The displays left are the primary and one for each attached connector. */
  ghost predicate DisplaysServe(s: Hwc, attached: map<Connector, Pipe>) {
    && PRIMARY in s.displays
    && (s.displays[PRIMARY].None? <==> attached == map[])
    && (forall c :: c in attached ==> exists h :: h in s.displays && s.displays[h] == Some(attached[c]))
    && (forall h :: h in s.displays && h != PRIMARY ==> exists c :: c in attached && s.displays[h] == Some(attached[c]))
  }

  lemma ServeAfterFinalize(s: Hwc, attached: map<Connector, Pipe>)
    requires Consistent(s) && s.handles.Keys == attached.Values && PRIMARY in s.displays
    requires s.displays[PRIMARY].None? <==> s.handles == map[]
    requires forall h :: h in s.displays <==> h == PRIMARY || exists p :: p in s.handles && s.handles[p] == h
    ensures DisplaysServe(s, attached)
  {
  }

  lemma ValuesAdded(m: map<Connector, Pipe>, c: Connector, p: Pipe)
    requires c !in m
    ensures m[c := p].Values == m.Values + {p}
  {
    var m' := m[c := p];
    forall x | x in m.Values + {p}
      ensures x in m'.Values
    {
      if x == p {
        assert m'[c] == p;
      } else {
        var k :| k in m && m[k] == x;
        assert m'[k] == x;
      }
    }
  }

  lemma ValuesRemoved(m: map<Connector, Pipe>, c: Connector)
    requires c in m && OnePerConnector(m)
    ensures (m - {c}).Values == m.Values - {m[c]}
  {
    forall x | x in m.Values - {m[c]}
      ensures x in (m - {c}).Values
    {
      var k :| k in m && m[k] == x;
      assert (m - {c})[k] == x;
    }
  }
}
