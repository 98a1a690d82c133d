/**
 Idle-screen flattening (hwc2_device/HwcDisplay.cpp, ProcessClientFlatteningState and
 ProcessFlatenningVsyncInternal): when nothing changes for a second, the whole screen is
 handed to the GPU once.
 */
module Flattening {
  const DISABLED := -3
  const NOT_REQUIRED := -2
  const FLATTENED := -1
  const CLIENT_REFRESH_REQUESTED := 0
  const VSYNC_COUNTDOWN_MAX := 60

  datatype Flat = Flat(state: int, vsyncEnabled: bool)

  const INIT := Flat(NOT_REQUIRED, false)

  /** One validation; the flag tells whether the composition goes to the client. */
  function Validate(f: Flat, skip: bool): (r: (Flat, bool)) {
    if f.state == DISABLED then (f, false)
    else if skip then (f.(state := NOT_REQUIRED), false)
    else if f.state == CLIENT_REFRESH_REQUESTED then (f.(state := FLATTENED), true)
    else (Flat(VSYNC_COUNTDOWN_MAX, true), false)
  }

  /** One vsync; the flag tells whether the refresh callback was called. */
  function Tick(f: Flat, callback: bool): (r: (Flat, bool)) {
    if !f.vsyncEnabled || f.state <= CLIENT_REFRESH_REQUESTED then (f, false)
    else if f.state - 1 == CLIENT_REFRESH_REQUESTED && callback then (Flat(f.state - 1, false), true)
    else (f.(state := f.state - 1), false)
  }

  class ClientFlattening {
    var state: int
    var vsyncEnabled: bool

    function View(): Flat
      reads this
    {
      Flat(state, vsyncEnabled)
    }

    constructor ()
      ensures View() == INIT
    {
      state, vsyncEnabled := NOT_REQUIRED, false;
    }

    method ProcessClientFlatteningState(skip: bool) returns (toClient: bool)
      modifies this
      ensures (View(), toClient) == Validate(old(View()), skip)
    {
      if state == DISABLED {
        return false;
      }
      if skip {
        state := NOT_REQUIRED;
        return false;
      }
      if state == CLIENT_REFRESH_REQUESTED {
        state := FLATTENED;
        return true;
      }
      vsyncEnabled := true;
      state := VSYNC_COUNTDOWN_MAX;
      return false;
    }

    /** The vsync handler's part that concerns flattening. */
    method OnVsync(callback: bool) returns (refreshed: bool)
      modifies this
      ensures (View(), refreshed) == Tick(old(View()), callback)
    {
      refreshed := false;
      if vsyncEnabled && state > CLIENT_REFRESH_REQUESTED {
        state := state - 1;
        if state == CLIENT_REFRESH_REQUESTED && callback {
          refreshed := true;
          vsyncEnabled := false;
        }
      }
    }
  }

  // -------------------------------------------------------------------- runs

  datatype Event = Call(skip: bool) | Vsync(callback: bool)

  function After(events: seq<Event>, n: nat): Flat
    requires n <= |events|
  {
    if n == 0 then INIT
    else
      match events[n - 1]
      case Call(skip) => Validate(After(events, n - 1), skip).0
      case Vsync(callback) => Tick(After(events, n - 1), callback).0
  }

  /** Event `i` is a validation that sends the screen to the client. */
  predicate Flattens(events: seq<Event>, i: nat)
    requires i < |events|
  {
    events[i].Call? && Validate(After(events, i), events[i].skip).1
  }

  /** Event `k` is a vsync that asks the client for a refresh. */
  predicate Refreshes(events: seq<Event>, k: nat)
    requires k < |events|
  {
    events[k].Vsync? && Tick(After(events, k), events[k].callback).1
  }

  /** Call `j` started the countdown, and only vsyncs followed it up to `n`. */
  predicate ArmedBy(events: seq<Event>, j: nat, n: nat)
    requires n <= |events|
  {
    && j < n
    && events[j] == Call(false)
    && !Flattens(events, j)
    && forall k :: j < k < n ==> events[k].Vsync?
  }

  /** The stored state in terms of the run: the countdown of the arming call, or none. */
  lemma {:induction false} StateTellsHistory(events: seq<Event>, n: nat) returns (j: nat)
    requires n <= |events|
    ensures var f := After(events, n);
            && DISABLED < f.state <= VSYNC_COUNTDOWN_MAX
            && (f.state > 0 ==> f.vsyncEnabled)
            && (f.state >= 0 ==> ArmedBy(events, j, n))
    ensures forall i :: 0 <= i < n && ArmedBy(events, i, n) ==>
              After(events, n).state == if n - 1 - i < VSYNC_COUNTDOWN_MAX then VSYNC_COUNTDOWN_MAX - (n - 1 - i) else 0
  {
    j := 0;
    if n > 0 {
      j := StateTellsHistory(events, n - 1);
      if events[n - 1].Call? {
        j := n - 1;
      } else {
        forall i | 0 <= i < n && ArmedBy(events, i, n)
          ensures ArmedBy(events, i, n - 1)
        {
          assert i != n - 1;
        }
      }
    }
  }

  /**
   A validation flattens exactly when it is not skipped and, some sixty or more vsyncs
   ago, the previous validation started the countdown.
   */
  lemma FlattensIff(events: seq<Event>, i: nat)
    requires i < |events|
    ensures Flattens(events, i) <==>
              && events[i] == Call(false)
              && exists j :: 0 <= j && ArmedBy(events, j, i) && i - 1 - j >= 60
  {
    var j := StateTellsHistory(events, i);
  }

  /** Two validations with only vsyncs between them never both flatten. */
  lemma NeverTwiceInARow(events: seq<Event>, a: nat, b: nat)
    requires a < b < |events| && events[a].Call?
    requires forall k :: a < k < b ==> events[k].Vsync?
    ensures !(Flattens(events, a) && Flattens(events, b))
  {
    FlattensIff(events, b);
  }

  /** The refresh callback is called at the sixtieth vsync after an arming call, and only there. */
  lemma RefreshesIff(events: seq<Event>, k: nat)
    requires k < |events|
    ensures Refreshes(events, k) <==>
              events[k] == Vsync(true) && k >= 60 && ArmedBy(events, k - 60, k)
  {
    var j := StateTellsHistory(events, k);
  }

  /** Once disabled, flattening stays so, and neither sends the screen to the client nor asks for a refresh. */
  lemma DisabledStays(f: Flat, skip: bool, callback: bool)
    requires f.state == DISABLED
    ensures Validate(f, skip) == (f, false) && Tick(f, callback) == (f, false)
  {
  }

  /** Call `j` armed the countdown, and no vsync up to `n` asked for a refresh since. */
  predicate AwaitsRefresh(events: seq<Event>, j: nat, n: nat)
    requires n <= |events|
  {
    j < n && events[j] == Call(false) && !Flattens(events, j) && forall k :: j < k < n ==> !Refreshes(events, k)
  }

  /** Vsyncs are counted exactly from an arming call to the refresh it leads to. */
  lemma {:induction false} VsyncCountedIff(events: seq<Event>, n: nat)
    requires n <= |events|
    ensures After(events, n).vsyncEnabled <==> exists j: nat :: AwaitsRefresh(events, j, n)
  {
    if n > 0 {
      VsyncCountedIff(events, n - 1);
      var armed := StateTellsHistory(events, n - 1);
      var before, after := After(events, n - 1), After(events, n);
      if j: nat :| AwaitsRefresh(events, j, n) {
        assert j == n - 1 || AwaitsRefresh(events, j, n - 1);
        assert j < n - 1 ==> before.vsyncEnabled && !Refreshes(events, n - 1);
        assert after.vsyncEnabled;
      } else if after.vsyncEnabled {
        assert !AwaitsRefresh(events, n - 1, n);
        assert before.vsyncEnabled && !Refreshes(events, n - 1);
        var j: nat :| AwaitsRefresh(events, j, n - 1);
        assert AwaitsRefresh(events, j, n);
      }
    }
  }
}
