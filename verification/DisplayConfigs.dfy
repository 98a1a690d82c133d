/**
 The table of display configurations (hwc2_device/HwcDisplayConfigs.cpp).

 Modes get consecutive ids and are grouped by resolution. Three passes disable modes in
 place: 3D modes, the minority scan type of mixed groups, and modes too close in refresh
 rate to an earlier one. Refresh rates are reals.
 */
module DisplayConfigs {
  datatype Mode = Mode(hDisplay: nat, vDisplay: nat, refresh: real, interlaced: bool, is3D: bool, preferred: bool)

  datatype Config = Config(id: nat, groupId: nat, mode: Mode, disabled: bool)

  type Table = map<nat, Config>

  predicate SameResolution(a: Mode, b: Mode) {
    a.hDisplay == b.hDisplay && a.vDisplay == b.vDisplay
  }

  /** `t` has an entry for exactly the ids from `first` up to `last`. */
  ghost predicate Spans(t: Table, first: nat, last: nat) {
    first <= last && forall k: nat :: k in t <==> first <= k < last
  }

  /** `t` differs from `t0` only in which entries are disabled. */
  ghost predicate OnlyDisables(t0: Table, t: Table) {
    && (forall k :: k in t <==> k in t0)
    && (forall k :: k in t0 ==> t[k] == t0[k].(disabled := t[k].disabled))
  }

  // ------------------------------------------------------------------------ grouping

  /** Entries carry the modes in order, and groups are the classes of equal resolution. */
  ghost predicate Grouped(t: Table, first: nat, modes: seq<Mode>, lastGroup: nat) {
    && Spans(t, first, first + |modes|)
    && (forall k :: k in t ==> && t[k].id == k && t[k].mode == modes[k - first]
                               && t[k].disabled == t[k].mode.is3D && 1 <= t[k].groupId < lastGroup)
    && (forall a, b :: a in t && b in t ==>
          (t[a].groupId == t[b].groupId <==> SameResolution(t[a].mode, t[b].mode)))
  }

  /** `i` is the first mode flagged as preferred, or the first mode if none is. */
  ghost predicate IsPreferred(modes: seq<Mode>, i: nat) {
    && i < |modes|
    && (forall j :: 0 <= j < i ==> !modes[j].preferred)
    && (modes[i].preferred || (i == 0 && forall j :: 0 <= j < |modes| ==> !modes[j].preferred))
  }

  /** The group of an entry with the same resolution, the last one found, or 0. */
  method FindGroup(t: Table, first: nat, last: nat, mode: Mode) returns (group: nat)
    requires Spans(t, first, last)
    requires forall k :: k in t ==> t[k].groupId >= 1
    ensures group == 0 ==> forall k :: k in t ==> !SameResolution(mode, t[k].mode)
    ensures group != 0 ==> exists k :: k in t && t[k].groupId == group && SameResolution(mode, t[k].mode)
  {
    group := 0;
    for k := first to last
      invariant group == 0 ==> forall j :: first <= j < k ==> !SameResolution(mode, t[j].mode)
      invariant group != 0 ==> exists j :: j in t && t[j].groupId == group && SameResolution(mode, t[j].mode)
    {
      if SameResolution(mode, t[k].mode) {
        group := t[k].groupId;
      }
    }
  }

  /** Adding a mode under the group found for it, or under a new group, keeps the grouping. */
  lemma GroupedExtends(t: Table, first: nat, modes: seq<Mode>, lastGroup: nat, mode: Mode, group: nat, lastGroup': nat)
    requires Grouped(t, first, modes, lastGroup)
    requires 1 <= lastGroup <= lastGroup' && 1 <= group < lastGroup'
    requires || (group == lastGroup && forall k :: k in t ==> !SameResolution(mode, t[k].mode))
             || (exists k :: k in t && t[k].groupId == group && SameResolution(mode, t[k].mode))
    ensures var id := first + |modes|;
            Grouped(t[id := Config(id, group, mode, mode.is3D)], first, modes + [mode], lastGroup')
  {
  }

  /** The body of the grouping loop for one mode. */
  method AddMode(t: Table, first: nat, ghost modes: seq<Mode>, id: nat, lastGroup: nat, mode: Mode)
    returns (t': Table, lastGroup': nat, group: nat)
    requires Grouped(t, first, modes, lastGroup) && 1 <= lastGroup && id == first + |modes|
    ensures Grouped(t', first, modes + [mode], lastGroup') && 1 <= lastGroup'
    ensures t' == t[id := Config(id, group, mode, mode.is3D)]
    ensures t == map[] ==> group == lastGroup
  {
    group := FindGroup(t, first, id, mode);
    lastGroup' := lastGroup;
    if group == 0 {
      group := lastGroup;
      lastGroup' := lastGroup + 1;
    }
    GroupedExtends(t, first, modes, lastGroup, mode, group, lastGroup');
    t' := t[id := Config(id, group, mode, mode.is3D)];
  }

  /** The preferred id and group after the first `i` modes; id 0 while none was flagged. */
  ghost predicate PreferredSoFar(t: Table, first: nat, modes: seq<Mode>, i: nat, preferred: nat, preferredGroup: nat)
    requires i <= |modes|
  {
    if preferred == 0 then forall j :: 0 <= j < i ==> !modes[j].preferred
    else && first <= preferred < first + i && IsPreferred(modes, preferred - first)
         && preferred in t && t[preferred].groupId == preferredGroup
  }

  lemma PreferredStep(t: Table, first: nat, modes: seq<Mode>, i: nat, preferred: nat, preferredGroup: nat, c: Config)
    requires first > 0 && i < |modes| && PreferredSoFar(t, first, modes, i, preferred, preferredGroup)
    ensures var t' := t[first + i := c];
            if modes[i].preferred && preferred == 0
            then PreferredSoFar(t', first, modes, i + 1, first + i, c.groupId)
            else PreferredSoFar(t', first, modes, i + 1, preferred, preferredGroup)
  {
  }

  method GroupModes(modes: seq<Mode>, first: nat) returns (t: Table, lastGroup: nat, preferred: nat, preferredGroup: nat)
    requires modes != [] && first > 0
    ensures Grouped(t, first, modes, lastGroup)
    ensures first <= preferred < first + |modes| && IsPreferred(modes, preferred - first)
    ensures preferred in t && t[preferred].groupId == preferredGroup
  {
    t, lastGroup, preferred, preferredGroup := map[], 1, 0, 0;
    for i := 0 to |modes|
      invariant Grouped(t, first, modes[..i], lastGroup) && 1 <= lastGroup
      invariant if i == 0 then t == map[] && lastGroup == 1 else first in t && t[first].groupId == 1
      invariant PreferredSoFar(t, first, modes, i, preferred, preferredGroup)
    {
      ghost var before := t;
      var group;
      assert modes[..i] + [modes[i]] == modes[..i + 1];
      t, lastGroup, group := AddMode(t, first, modes[..i], first + i, lastGroup, modes[i]);
      PreferredStep(before, first, modes, i, preferred, preferredGroup, t[first + i]);
      if modes[i].preferred && preferred == 0 {
        preferred, preferredGroup := first + i, group;
      }
    }
    assert modes[..|modes|] == modes;
    if preferred == 0 {
      preferred, preferredGroup := first, 1;
    }
  }

  // --------------------------------------------------------------- scan-type pass

  /** Group `g` has enabled entries of both scan types. */
  ghost predicate Mixed(t: Table, g: nat) {
    && (exists k :: k in t && t[k].groupId == g && !t[k].disabled && t[k].mode.interlaced)
    && (exists k :: k in t && t[k].groupId == g && !t[k].disabled && !t[k].mode.interlaced)
  }

  /** A mixed group keeps interlaced modes only if it holds the preferred mode and that is interlaced. */
  predicate WantsInterlaced(t: Table, preferred: nat, g: nat)
    requires preferred in t
  {
    g == t[preferred].groupId && t[preferred].mode.interlaced
  }

  /** An entry stays enabled through the scan-type pass over the groups below `g`. */
  ghost predicate KeepsScanType(t0: Table, preferred: nat, k: nat, g: nat)
    requires preferred in t0 && k in t0
  {
    && !t0[k].disabled
    && (t0[k].groupId < g && Mixed(t0, t0[k].groupId) ==>
          t0[k].mode.interlaced == WantsInterlaced(t0, preferred, t0[k].groupId))
  }

  ghost predicate ScanFiltered(t0: Table, t: Table, preferred: nat, g: nat)
    requires preferred in t0
  {
    && OnlyDisables(t0, t)
    && forall k :: k in t0 ==> (!t[k].disabled <==> KeepsScanType(t0, preferred, k, g))
  }

  /** First inner loop: which scan types are enabled in the group. */
  method ScanTypes(t: Table, first: nat, last: nat, g: nat) returns (mixed: bool)
    requires Spans(t, first, last)
    ensures mixed <==> Mixed(t, g)
  {
    var interlaced, progressive := false, false;
    for k := first to last
      invariant interlaced <==> exists j :: first <= j < k && t[j].groupId == g && !t[j].disabled && t[j].mode.interlaced
      invariant progressive <==> exists j :: first <= j < k && t[j].groupId == g && !t[j].disabled && !t[j].mode.interlaced
    {
      if t[k].groupId == g && !t[k].disabled {
        if t[k].mode.interlaced {
          interlaced := true;
        } else {
          progressive := true;
        }
      }
    }
    mixed := interlaced && progressive;
  }

  /** Second inner loop: disable the entries of the group with the unwanted scan type. */
  method KeepScanType(t0: Table, first: nat, last: nat, g: nat, wantInterlaced: bool) returns (t: Table)
    requires Spans(t0, first, last)
    ensures OnlyDisables(t0, t)
    ensures forall k :: k in t0 ==>
              (!t[k].disabled <==> !t0[k].disabled && (t0[k].groupId == g ==> t0[k].mode.interlaced == wantInterlaced))
  {
    t := t0;
    for k := first to last
      invariant OnlyDisables(t0, t)
      invariant forall j :: j in t0 ==>
                  (!t[j].disabled <==> !t0[j].disabled
                                       && (t0[j].groupId == g && j < k ==> t0[j].mode.interlaced == wantInterlaced))
    {
      if t[k].groupId == g && !t[k].disabled && t[k].mode.interlaced != wantInterlaced {
        t := t[k := t[k].(disabled := true)];
      }
    }
  }

  /** The entries of a group are untouched until the pass reaches it. */
  lemma MixedUntouched(t0: Table, t: Table, preferred: nat, g: nat)
    requires preferred in t0 && ScanFiltered(t0, t, preferred, g)
    ensures Mixed(t, g) <==> Mixed(t0, g)
  {
  }

  method ScanTypePass(t0: Table, first: nat, last: nat, lastGroup: nat, preferred: nat, preferredGroup: nat) returns (t: Table)
    requires Spans(t0, first, last) && preferred in t0 && preferredGroup == t0[preferred].groupId
    requires forall k :: k in t0 ==> 1 <= t0[k].groupId < lastGroup
    ensures ScanFiltered(t0, t, preferred, lastGroup)
  {
    t := t0;
    for group := 1 to lastGroup
      invariant ScanFiltered(t0, t, preferred, group)
    {
      MixedUntouched(t0, t, preferred, group);
      var mixed := ScanTypes(t, first, last, group);
      if mixed {
        var wantInterlaced := group == preferredGroup && t[preferred].mode.interlaced;
        t := KeepScanType(t, first, last, group, wantInterlaced);
      }
    }
  }

  // ---------------------------------------------------------------- refresh-rate pass

  const MIN_FPS_DELTA := 1.0

  function Distance(a: real, b: real): real {
    if a < b then b - a else a - b
  }

  /** Two entries of a group that are too close in refresh rate. */
  predicate Conflict(t: Table, a: nat, b: nat)
    requires a in t && b in t
  {
    t[a].groupId == t[b].groupId && Distance(t[a].mode.refresh, t[b].mode.refresh) < MIN_FPS_DELTA
  }

  /** The greedy filter: an entry survives unless a surviving entry with a lower id is too close. */
  predicate Survives(t: Table, first: nat, k: nat)
    requires forall i :: first <= i <= k ==> i in t
    requires first <= k
    decreases k
  {
    !t[k].disabled && forall j :: first <= j < k ==> !(Conflict(t, j, k) && Survives(t, first, j))
  }

  /** The filter restricted to the disabling entries below `m`. */
  predicate SurvivesBelow(t: Table, first: nat, k: nat, m: nat)
    requires forall i :: first <= i <= k ==> i in t
    requires first <= k
  {
    !t[k].disabled && forall j :: first <= j < k && j < m ==> !(Conflict(t, j, k) && Survives(t, first, j))
  }

  /** The state of the in-place pass after the outer loop has finished the ids below `m`. */
  ghost predicate FilteredBelow(t0: Table, t: Table, first: nat, last: nat, m: nat)
    requires Spans(t0, first, last)
  {
    && OnlyDisables(t0, t)
    && forall k :: first <= k < last ==> (!t[k].disabled <==> SurvivesBelow(t0, first, k, m))
  }

  /** The finished pass: exactly the survivors of the greedy filter are enabled. */
  ghost predicate RateFiltered(t0: Table, t: Table, first: nat, last: nat)
    requires Spans(t0, first, last)
  {
    && OnlyDisables(t0, t)
    && forall k :: first <= k < last ==> (!t[k].disabled <==> Survives(t0, first, k))
  }

  /** The inner loop for `m1`: disable every enabled entry too close to it, if it is enabled itself. */
  method DisableCloseTo(t0: Table, first: nat, last: nat, m1: nat) returns (t: Table)
    requires Spans(t0, first, last) && first <= m1 < last
    ensures OnlyDisables(t0, t)
    ensures forall k :: first <= k < last ==>
              (!t[k].disabled <==> !t0[k].disabled && !(k != m1 && !t0[m1].disabled && Conflict(t0, m1, k)))
  {
    t := t0;
    for m2 := first to last
      invariant OnlyDisables(t0, t)
      invariant forall k :: first <= k < last ==>
                  (!t[k].disabled <==> !t0[k].disabled && !(k < m2 && k != m1 && !t0[m1].disabled && Conflict(t0, m1, k)))
    {
      if && m1 != m2 && t[m1].groupId == t[m2].groupId
         && !t[m1].disabled && !t[m2].disabled
         && Distance(t[m1].mode.refresh, t[m2].mode.refresh) < MIN_FPS_DELTA {
        t := t[m2 := t[m2].(disabled := true)];
      }
    }
  }

  /** One outer iteration in terms of the filter: no entry ever disables one with a lower id. */
  lemma FilterStep(t0: Table, t: Table, t': Table, first: nat, last: nat, m1: nat)
    requires Spans(t0, first, last) && first <= m1 < last
    requires FilteredBelow(t0, t, first, last, m1) && OnlyDisables(t, t')
    requires forall k :: first <= k < last ==>
               (!t'[k].disabled <==> !t[k].disabled && !(k != m1 && !t[m1].disabled && Conflict(t, m1, k)))
    ensures FilteredBelow(t0, t', first, last, m1 + 1)
  {
    assert !t[m1].disabled <==> Survives(t0, first, m1);
    forall k | first <= k < last
      ensures !t'[k].disabled <==> SurvivesBelow(t0, first, k, m1 + 1)
    {
      assert Conflict(t, m1, k) <==> Conflict(t0, m1, k);
      if k < m1 {
        assert !t[k].disabled <==> Survives(t0, first, k);
        assert Conflict(t0, k, m1) <==> Conflict(t0, m1, k);
      }
    }
  }

  /** The double loop computes the greedy filter. */
  method RefreshRatePass(t0: Table, first: nat, last: nat) returns (t: Table)
    requires Spans(t0, first, last)
    ensures RateFiltered(t0, t, first, last)
  {
    t := t0;
    for m1 := first to last
      invariant FilteredBelow(t0, t, first, last, m1)
    {
      var next := DisableCloseTo(t, first, last, m1);
      FilterStep(t0, t, next, first, last, m1);
      t := next;
    }
  }

  // ------------------------------------------------------------ the table as a whole

  ghost predicate EnabledIn(t: Table, g: nat, k: nat) {
    k in t && t[k].groupId == g && !t[k].disabled
  }

  /** Shape: consecutive ids, the reported modes in order, groups by resolution, 3D modes off. */
  ghost predicate ShapedBy(t: Table, first: nat, modes: seq<Mode>) {
    && Spans(t, first, first + |modes|)
    && (forall k :: k in t ==> && t[k].id == k && t[k].mode == modes[k - first]
                               && t[k].groupId >= 1 && (t[k].mode.is3D ==> t[k].disabled))
    && (forall a, b :: a in t && b in t ==>
          (t[a].groupId == t[b].groupId <==> SameResolution(t[a].mode, t[b].mode)))
  }

  /** What is enabled in a group is of one scan type and pairwise at least 1 fps apart. */
  ghost predicate GroupsUniform(t: Table) {
    forall a, b, g :: a != b && EnabledIn(t, g, a) && EnabledIn(t, g, b) ==>
      && t[a].mode.interlaced == t[b].mode.interlaced
      && Distance(t[a].mode.refresh, t[b].mode.refresh) >= MIN_FPS_DELTA
  }

  ghost predicate Served(t: Table, g: nat) {
    exists e :: EnabledIn(t, g, e)
  }

  /** A group with a mode that is not 3D has an enabled entry. */
  ghost predicate GroupsServed(t: Table) {
    forall k {:trigger Served(t, t[k].groupId)} :: k in t && !t[k].mode.is3D ==> Served(t, t[k].groupId)
  }

  /** The preferred mode, unless 3D, is enabled or an enabled one of its group is within 1 fps. */
  ghost predicate PreferredServed(t: Table, preferred: nat) {
    && preferred in t
    && (!t[preferred].mode.is3D ==>
          exists e :: EnabledIn(t, t[preferred].groupId, e)
                      && Distance(t[e].mode.refresh, t[preferred].mode.refresh) < MIN_FPS_DELTA)
  }

  /** Interlaced modes stay only beside an interlaced preferred mode or where nothing progressive is usable. */
  ghost predicate ProgressiveFavoured(t: Table, preferred: nat) {
    && preferred in t
    && forall g, k, p :: EnabledIn(t, g, k) && t[k].mode.interlaced && p in t && t[p].groupId == g
                         && !t[p].mode.interlaced && !t[p].mode.is3D ==>
         g == t[preferred].groupId && t[preferred].mode.interlaced
  }

  /** The group of `k` has modes of the other scan type, and that one is wanted. */
  ghost predicate LosesScanType(t: Table, preferred: nat, k: nat)
    requires k in t && preferred in t
  {
    && (exists o :: o in t && t[o].groupId == t[k].groupId && !t[o].mode.is3D && t[o].mode.interlaced != t[k].mode.interlaced)
    && t[k].mode.interlaced != WantsInterlaced(t, preferred, t[k].groupId)
  }

  /** An enabled entry with a lower id in the group is too close. */
  ghost predicate Shadowed(t: Table, k: nat)
    requires k in t
  {
    exists e: nat :: EnabledIn(t, t[k].groupId, e) && e < k && Distance(t[e].mode.refresh, t[k].mode.refresh) < MIN_FPS_DELTA
  }

  /** An entry is disabled exactly for one of three reasons. */
  ghost predicate DisabledForReason(t: Table, preferred: nat) {
    && preferred in t
    && forall k :: k in t ==> (t[k].disabled <==> t[k].mode.is3D || LosesScanType(t, preferred, k) || Shadowed(t, k))
  }

  /** The scan-type pass leaves an enabled entry in every group that had one. */
  lemma ScanKeepsGroup(t0: Table, t1: Table, preferred: nat, lastGroup: nat, k: nat) returns (e: nat)
    requires preferred in t0 && ScanFiltered(t0, t1, preferred, lastGroup)
    requires forall i :: i in t0 ==> t0[i].groupId < lastGroup
    requires k in t0 && !t0[k].disabled
    ensures EnabledIn(t1, t0[k].groupId, e)
  {
    var g := t0[k].groupId;
    e := k;
    if Mixed(t0, g) {
      e :| e in t0 && t0[e].groupId == g && !t0[e].disabled && t0[e].mode.interlaced == WantsInterlaced(t0, preferred, g);
    }
    assert KeepsScanType(t0, preferred, e, lastGroup);
  }

  /** What the rate pass disables is shadowed by a surviving entry within 1 fps. */
  lemma SurvivorNear(t1: Table, t: Table, first: nat, last: nat, k: nat) returns (e: nat)
    requires Spans(t1, first, last)
    requires RateFiltered(t1, t, first, last)
    requires k in t1 && !t1[k].disabled
    ensures EnabledIn(t, t1[k].groupId, e) && e <= k
    ensures Distance(t[e].mode.refresh, t[k].mode.refresh) < MIN_FPS_DELTA
  {
    e := k;
    if !Survives(t1, first, k) {
      e :| first <= e < k && Conflict(t1, e, k) && Survives(t1, first, e);
    }
  }

  lemma PassesUniform(t0: Table, t1: Table, t: Table, first: nat, last: nat, lastGroup: nat, preferred: nat)
    requires Spans(t0, first, last) && preferred in t0 && ScanFiltered(t0, t1, preferred, lastGroup)
    requires forall i :: i in t0 ==> t0[i].groupId < lastGroup
    requires RateFiltered(t1, t, first, last)
    ensures GroupsUniform(t)
  {
  }

  lemma PassesFavour(t0: Table, t1: Table, t: Table, first: nat, last: nat, lastGroup: nat, preferred: nat)
    requires Spans(t0, first, last) && preferred in t0 && ScanFiltered(t0, t1, preferred, lastGroup)
    requires forall i :: i in t0 ==> t0[i].groupId < lastGroup && t0[i].disabled == t0[i].mode.is3D
    requires RateFiltered(t1, t, first, last)
    ensures ProgressiveFavoured(t, preferred)
  {
    forall g, k, p | EnabledIn(t, g, k) && t[k].mode.interlaced && p in t && t[p].groupId == g
                     && !t[p].mode.interlaced && !t[p].mode.is3D
      ensures g == t[preferred].groupId && t[preferred].mode.interlaced
    {
      assert KeepsScanType(t0, preferred, k, lastGroup);
      assert Mixed(t0, g);
    }
  }

  lemma PassesServe(t0: Table, t1: Table, t: Table, first: nat, last: nat, lastGroup: nat, preferred: nat)
    requires Spans(t0, first, last) && preferred in t0 && ScanFiltered(t0, t1, preferred, lastGroup)
    requires forall i :: i in t0 ==> t0[i].groupId < lastGroup && t0[i].disabled == t0[i].mode.is3D
    requires RateFiltered(t1, t, first, last)
    ensures GroupsServed(t) && PreferredServed(t, preferred)
  {
    forall k | k in t && !t[k].mode.is3D
      ensures Served(t, t[k].groupId)
    {
      var kept := ScanKeepsGroup(t0, t1, preferred, lastGroup, k);
      var e := SurvivorNear(t1, t, first, last, kept);
    }
    if !t[preferred].mode.is3D {
      assert KeepsScanType(t0, preferred, preferred, lastGroup);
      var e := SurvivorNear(t1, t, first, last, preferred);
    }
  }

  lemma LosesIff(t0: Table, t: Table, preferred: nat, lastGroup: nat, k: nat)
    requires OnlyDisables(t0, t) && preferred in t0 && k in t0
    requires forall i :: i in t0 ==> t0[i].groupId < lastGroup && t0[i].disabled == t0[i].mode.is3D
    ensures !KeepsScanType(t0, preferred, k, lastGroup) <==> t[k].mode.is3D || LosesScanType(t, preferred, k)
  {
    if !t0[k].disabled {
      var g := t0[k].groupId;
      if o :| o in t && t[o].groupId == g && !t[o].mode.is3D && t[o].mode.interlaced != t[k].mode.interlaced {
        assert Mixed(t0, g);
      }
    }
  }

  lemma PassesReason(t0: Table, t1: Table, t: Table, first: nat, last: nat, lastGroup: nat, preferred: nat)
    requires Spans(t0, first, last) && preferred in t0 && ScanFiltered(t0, t1, preferred, lastGroup)
    requires forall i :: i in t0 ==> t0[i].groupId < lastGroup && t0[i].disabled == t0[i].mode.is3D
    requires RateFiltered(t1, t, first, last)
    ensures DisabledForReason(t, preferred)
  {
    assert OnlyDisables(t0, t);
    forall k | k in t
      ensures t[k].disabled <==> t[k].mode.is3D || LosesScanType(t, preferred, k) || Shadowed(t, k)
    {
      LosesIff(t0, t, preferred, lastGroup, k);
      ShadowedIff(t1, t, first, last, k);
    }
  }

  /** Among the entries the rate pass starts from, exactly the shadowed ones are disabled. */
  lemma ShadowedIff(t1: Table, t: Table, first: nat, last: nat, k: nat)
    requires Spans(t1, first, last) && RateFiltered(t1, t, first, last) && k in t1
    ensures t[k].disabled <==> t1[k].disabled || Shadowed(t, k)
  {
    if !t1[k].disabled {
      if !Survives(t1, first, k) {
        var e :| first <= e < k && Conflict(t1, e, k) && Survives(t1, first, e);
        assert EnabledIn(t, t[k].groupId, e);
      }
      if e: nat :| EnabledIn(t, t[k].groupId, e) && e < k && Distance(t[e].mode.refresh, t[k].mode.refresh) < MIN_FPS_DELTA {
        assert Conflict(t1, e, k) && Survives(t1, first, e);
      }
    }
  }

  lemma PassesShape(t0: Table, t1: Table, t: Table, first: nat, modes: seq<Mode>, lastGroup: nat)
    requires Grouped(t0, first, modes, lastGroup)
    requires OnlyDisables(t0, t1) && OnlyDisables(t1, t)
    requires forall i :: i in t0 && t0[i].disabled ==> t[i].disabled
    ensures ShapedBy(t, first, modes)
  {
  }

  ghost predicate GoodTable(t: Table, first: nat, modes: seq<Mode>, preferred: nat) {
    && ShapedBy(t, first, modes) && GroupsUniform(t) && GroupsServed(t)
    && PreferredServed(t, preferred) && ProgressiveFavoured(t, preferred)
    && DisabledForReason(t, preferred)
  }

  /** The table after grouping and both passes, for every list of modes. */
  lemma PassesGood(t0: Table, t1: Table, t: Table, first: nat, modes: seq<Mode>, lastGroup: nat, preferred: nat)
    requires Grouped(t0, first, modes, lastGroup) && preferred in t0
    requires ScanFiltered(t0, t1, preferred, lastGroup)
    requires Spans(t1, first, first + |modes|) && RateFiltered(t1, t, first, first + |modes|)
    ensures GoodTable(t, first, modes, preferred)
  {
    var last := first + |modes|;
    PassesUniform(t0, t1, t, first, last, lastGroup, preferred);
    PassesServe(t0, t1, t, first, last, lastGroup, preferred);
    PassesFavour(t0, t1, t, first, last, lastGroup, preferred);
    PassesReason(t0, t1, t, first, last, lastGroup, preferred);
    assert forall i :: i in t0 && t0[i].disabled ==> t[i].disabled;
    PassesShape(t0, t1, t, first, modes, lastGroup);
  }

  // ------------------------------------------------------------------------- objects

  /** The id counter all displays share. */
  class ConfigIds {
    var lastConfigId: nat

    constructor ()
      ensures lastConfigId == 1
    {
      lastConfigId := 1;
    }
  }

  const HEADLESS_MM_WIDTH := 163
  const HEADLESS_MM_HEIGHT := 122
  const HEADLESS_MODE := Mode(1024, 768, 60.0, false, false, false)

  datatype UpdateError = NoError | BadDisplay

  class HwcDisplayConfigs {
    const ids: ConfigIds
    var hwcConfigs: Table
    var activeConfigId: nat
    var preferredConfigId: nat
    var mmWidth: nat
    var mmHeight: nat

    constructor (ids: ConfigIds)
      ensures this.ids == ids && hwcConfigs == map[]
    {
      this.ids, hwcConfigs, activeConfigId, preferredConfigId := ids, map[], 0, 0;
      mmWidth, mmHeight := 0, 0;
    }

    method FillHeadless()
      modifies this, ids
      ensures ids.lastConfigId == old(ids.lastConfigId) + 1
      ensures activeConfigId == preferredConfigId == ids.lastConfigId
      ensures hwcConfigs == map[activeConfigId := Config(activeConfigId, 1, HEADLESS_MODE, false)]
      ensures mmWidth == HEADLESS_MM_WIDTH && mmHeight == HEADLESS_MM_HEIGHT
    {
      ids.lastConfigId := ids.lastConfigId + 1;
      activeConfigId, preferredConfigId := ids.lastConfigId, ids.lastConfigId;
      hwcConfigs := map[activeConfigId := Config(activeConfigId, 1, HEADLESS_MODE, false)];
      mmWidth, mmHeight := HEADLESS_MM_WIDTH, HEADLESS_MM_HEIGHT;
    }

    /**
     Every id handed out is above the counter on entry and at most the counter on exit,
     so no two updates of any display share an id. The active id stays that of the headless
     configuration, which is also the first id of the new table.
     */
    method Update(updateErr: int, modes: seq<Mode>, width: nat, height: nat) returns (err: UpdateError)
      modifies this, ids
      ensures err == NoError <==> updateErr == 0 && modes != []
      ensures forall k :: k in hwcConfigs ==> old(ids.lastConfigId) < k <= ids.lastConfigId
      ensures activeConfigId == old(ids.lastConfigId) + 1
      ensures err != NoError ==>
                && mmWidth == HEADLESS_MM_WIDTH && mmHeight == HEADLESS_MM_HEIGHT
                && hwcConfigs == map[activeConfigId := Config(activeConfigId, 1, HEADLESS_MODE, false)]
                && preferredConfigId == activeConfigId
      ensures err == NoError ==>
                var first := old(ids.lastConfigId) + 1;
                && ids.lastConfigId == first + |modes| && mmWidth == width && mmHeight == height
                && first <= preferredConfigId && IsPreferred(modes, preferredConfigId - first)
                && GoodTable(hwcConfigs, first, modes, preferredConfigId)
    {
      FillHeadless();
      if updateErr != 0 || modes == [] {
        return BadDisplay;
      }
      FillModes(modes, width, height);
      return NoError;
    }

    /** The table for a list of modes; the first new id is the last one given out. */
    method FillModes(modes: seq<Mode>, width: nat, height: nat)
      requires modes != [] && ids.lastConfigId > 0
      modifies this, ids
      ensures ids.lastConfigId == old(ids.lastConfigId) + |modes| && activeConfigId == old(activeConfigId)
      ensures mmWidth == width && mmHeight == height
      ensures forall k :: k in hwcConfigs ==> old(ids.lastConfigId) <= k < ids.lastConfigId
      ensures old(ids.lastConfigId) <= preferredConfigId && IsPreferred(modes, preferredConfigId - old(ids.lastConfigId))
      ensures GoodTable(hwcConfigs, old(ids.lastConfigId), modes, preferredConfigId)
    {
      var first := ids.lastConfigId;
      var t, preferred := BuildTable(modes, first);
      assert Spans(t, first, first + |modes|);
      hwcConfigs, preferredConfigId := t, preferred;
      mmWidth, mmHeight := width, height;
      ids.lastConfigId := first + |modes|;
    }
  }

  /** Grouping and the two passes, one after the other. */
  method BuildTable(modes: seq<Mode>, first: nat) returns (t: Table, preferred: nat)
    requires modes != [] && first > 0
    ensures first <= preferred && IsPreferred(modes, preferred - first)
    ensures GoodTable(t, first, modes, preferred)
  {
    var last := first + |modes|;
    var t0, lastGroup, preferredId, preferredGroup := GroupModes(modes, first);
    var t1 := ScanTypePass(t0, first, last, lastGroup, preferredId, preferredGroup);
    t := RefreshRatePass(t1, first, last);
    preferred := preferredId;
    PassesGood(t0, t1, t, first, modes, lastGroup, preferred);
  }
}
