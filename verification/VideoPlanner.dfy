/**
 The planner with video layers, and the entry point that chooses between the two
 (backend/Backend.cpp, GetClientLayers and GetExtraClientRange2).

 Video layers must stay on planes, and each is charged one plane more than it is given.
 */
module VideoPlanner {
  import opened Options
  import opened Sequences
  import opened Layers
  import opened Planner

  // ------------------------------------------------------------------- hulls

  /** Smallest range around the positions where `p` holds, built left to right. */
  function Hull(p: seq<bool>): (r: Range)
    ensures ClientHull(|p|, r)
  {
    if p == [] then Range(-1, 0)
    else
      var last := |p| - 1;
      var r := Hull(p[..last]);
      if !p[last] then r
      else if r.start < 0 then Range(last, 1)
      else Range(r.start, last - r.start + 1)
  }

  predicate Inside(r: Range, z: int) {
    r.start <= z < r.start + r.size
  }

  lemma HullStep(p: seq<bool>, z: nat)
    requires z < |p|
    ensures var r := Hull(p[..z]);
            Hull(p[..z + 1]) == if !p[z] then r
                                else if r.start < 0 then Range(z, 1)
                                else Range(r.start, z - r.start + 1)
  {
    assert p[..z + 1][..z] == p[..z];
  }

  /** The hull contains every position where `p` holds and starts and ends on one. */
  lemma {:induction false} HullIsTight(p: seq<bool>)
    ensures forall z :: 0 <= z < |p| && p[z] ==> Inside(Hull(p), z)
    ensures var r := Hull(p); r.size > 0 ==> p[r.start] && p[r.start + r.size - 1]
  {
    if p != [] {
      HullIsTight(p[..|p| - 1]);
    }
  }

  function MustBeClient(display: DisplayInfo, layers: seq<LayerInfo>): (p: seq<bool>)
    ensures |p| == |layers|
  {
    seq(|layers|, z requires 0 <= z < |layers| => IsClientLayer(display, layers[z]))
  }

  function Video(layers: seq<LayerInfo>): (p: seq<bool>)
    ensures |p| == |layers|
  {
    seq(|layers|, z requires 0 <= z < |layers| => layers[z].video)
  }

  predicate Disjoint(a: Range, b: Range) {
    a.size == 0 || b.size == 0 || a.start + a.size <= b.start || b.start + b.size <= a.start
  }

  // ------------------------------------------------------------ video planning

  /** Unsigned 64-bit subtraction. */
  function SizeSub(a: nat, b: nat): (r: nat) {
    (a - b) % SIZE_COUNT
  }

  /** Planes left after charging the video layers and saving one for the client target. */
  function VideoAvailPlanes(n: nat, planes: nat, device: Range): nat {
    var avail := SizeSub(planes, device.size);
    if avail < n then SizeSub(avail, 1) else avail
  }

  /**
   The case analysis of GetExtraClientRange2 with its fallbacks to the plain search
   left as `None`.
   */
  function VideoWindow(n: nat, planes: nat, client: Range, device: Range): (r: Option<Range>)
    requires planes <= INT_MAX && n <= INT_MAX
    requires ClientHull(n, client) && ClientHull(n, device) && device.size > 0 && Disjoint(client, device)
    ensures r.Some? ==> var w := r.value;
      && 0 <= w.start && w.start + w.size <= n
      && Covers(n, client, w.start, w.size)
      && Disjoint(w, device)
      && n - w.size == Min(n - client.size, VideoAvailPlanes(n, planes, device))
  {
    var avail := VideoAvailPlanes(n, planes, device);
    var deviceEnd := device.start + device.size;
    if avail < device.size then None
    else if avail == device.size then
      if device.start != 0 && deviceEnd != n then None
      else if device.start == 0 then Some(Range(deviceEnd, n - device.size))
      else Some(Range(0, n - device.size))
    else
      var extraDevice := Min(n - device.size - client.size, avail - device.size);
      if client.start == -1 then
        var prepend, append := device.start, n - deviceEnd;
        if Min(prepend, append) > extraDevice then None
        else if prepend == Min(prepend, append) then
          Some(Range(deviceEnd + (extraDevice - prepend), n - extraDevice - device.size))
        else
          Some(Range(0, n - extraDevice - device.size))
      else if client.start > device.start then
        var prepend, midpend, append := device.start, client.start - deviceEnd, n - (client.start + client.size);
        if prepend > extraDevice then None
        else
          var remain := extraDevice - prepend;
          if remain == 0 then Some(Range(deviceEnd, n - extraDevice - device.size))
          else
            var mid := Min(midpend, remain);
            if mid == remain then Some(Range(deviceEnd + mid, n - prepend - mid - device.size))
            else Some(Range(deviceEnd + mid, n - prepend - mid - Min(remain - mid, append) - device.size))
      else
        var prepend, midpend, append := client.start, device.start - (client.start + client.size), n - deviceEnd;
        if append > extraDevice then None
        else
          var remain := extraDevice - append;
          if remain == 0 then Some(Range(0, n - extraDevice - device.size))
          else
            var mid := Min(midpend, remain);
            if mid == remain then Some(Range(0, n - append - mid - device.size))
            else Some(Range(Min(remain - mid, prepend),
                            n - append - mid - Min(remain - mid, prepend) - device.size))
  }

  /** While the video span is smaller than the number of planes, the doubled charge for video is respected. */
  lemma VideoBudgetFits(n: nat, planes: nat, client: Range, device: Range)
    requires 0 < planes <= INT_MAX && n <= INT_MAX
    requires ClientHull(n, client) && ClientHull(n, device) && device.size > 0 && Disjoint(client, device)
    requires device.size < planes
    ensures var r := VideoWindow(n, planes, client, device);
            r.Some? ==> PlanesNeeded(n, r.value) + device.size <= planes
  {
  }

  /**
   Otherwise the unsigned subtraction wraps: the budget reads as unlimited, no fallback is
   taken, every layer that may stay on a plane does, and the planes do not suffice.
   */
  lemma VideoBudgetWraps(n: nat, planes: nat, client: Range, device: Range)
    requires 0 < planes <= INT_MAX && n <= INT_MAX
    requires ClientHull(n, client) && ClientHull(n, device) && device.size > 0 && Disjoint(client, device)
    requires device.size >= planes
    ensures var r := VideoWindow(n, planes, client, device);
            r.Some? && r.value.size == client.size && PlanesNeeded(n, r.value) + device.size > planes
  {
    assert VideoAvailPlanes(n, planes, device) > n;
  }

  /** A window around the mandatory range and clear of the video that leaves `onPlanes` layers on planes. */
  predicate FitsBeside(n: nat, client: Range, device: Range, onPlanes: int, w: Range) {
    Covers(n, client, w.start, w.size) && Disjoint(w, device) && n - w.size == onPlanes
  }

  /**
   A video window is found exactly if one exists at all that leaves as many layers on planes
   as the charged budget and the mandatory range allow.
   */
  lemma VideoWindowExistsIff(n: nat, planes: nat, client: Range, device: Range)
    requires planes <= INT_MAX && n <= INT_MAX
    requires ClientHull(n, client) && ClientHull(n, device) && device.size > 0 && Disjoint(client, device)
    ensures var onPlanes := Min(n - client.size, VideoAvailPlanes(n, planes, device));
            VideoWindow(n, planes, client, device).Some? <==> exists w :: FitsBeside(n, client, device, onPlanes, w)
  {
    var r := VideoWindow(n, planes, client, device);
    if r.Some? {
      assert FitsBeside(n, client, device, Min(n - client.size, VideoAvailPlanes(n, planes, device)), r.value);
    }
  }

  /**
   The charge is no larger than it must be: while the video span is below the planes, a
   window with any fewer layers for the GPU would exceed them.
   */
  lemma VideoWindowMinimal(n: nat, planes: nat, client: Range, device: Range, size: nat)
    requires 0 < planes <= INT_MAX && n <= INT_MAX
    requires ClientHull(n, client) && ClientHull(n, device) && device.size > 0 && Disjoint(client, device)
    requires device.size < planes && VideoWindow(n, planes, client, device).Some?
    requires client.size <= size < VideoWindow(n, planes, client, device).value.size
    ensures PlanesNeeded(n, Range(0, size)) + device.size > planes
  {
  }

  /**
   Where the window lies: the layers between video and mandatory range go to planes before
   those beyond the mandatory range, and without a mandatory range the layers on the
   shorter side of the video do, the lower side if both are equal.
   */
  lemma VideoWindowPlace(n: nat, planes: nat, client: Range, device: Range)
    requires planes <= INT_MAX && n <= INT_MAX
    requires ClientHull(n, client) && ClientHull(n, device) && device.size > 0 && Disjoint(client, device)
    requires VideoWindow(n, planes, client, device).Some?
    ensures var w := VideoWindow(n, planes, client, device).value;
            var end, deviceEnd := w.start + w.size, device.start + device.size;
            && (client.size > 0 && client.start > device.start && end < n ==> w.start == client.start)
            && (client.size > 0 && client.start < device.start && w.start > 0 ==> end == client.start + client.size)
            && (client.size == 0 ==> if device.start <= n - deviceEnd then deviceEnd <= w.start && end == n
                                     else w.start == 0 && end <= device.start)
  {
  }

  /** GetExtraClientRange2: the video window, or the plain search when there is none. */
  function ExtraClientRange2(layers: seq<LayerInfo>, planes: nat, client: Range, device: Range): (r: Range)
    requires 0 < planes <= INT_MAX && |layers| <= INT_MAX
    requires ClientHull(|layers|, client) && ClientHull(|layers|, device) && device.size > 0 && Disjoint(client, device)
  {
    match VideoWindow(|layers|, planes, client, device)
    case Some(w) => w
    case None => ExtraClientRange(layers, planes, client)
  }

  // -------------------------------------------------------------- entry point

  /** The client range the planner settles on. */
  function ClientRange(display: DisplayInfo, layers: seq<LayerInfo>, planes: nat): (r: Range)
    requires 0 < planes <= INT_MAX && |layers| <= INT_MAX
  {
    var client, device := Hull(MustBeClient(display, layers)), Hull(Video(layers));
    if device.size == 0 || !Disjoint(client, device) then ExtraClientRange(layers, planes, client)
    else ExtraClientRange2(layers, planes, client, device)
  }

  /** Two video layers and one plane: the budget wraps, and the planner leaves both layers on planes. */
  lemma VideoWrapExample()
    ensures var v := LayerInfo(0, Device, true, false, true, Rect(0, 0, 1920, 1080));
            var r := ClientRange(DisplayInfo(true, false, false), [v, v.(zOrder := 1)], 1);
            r == Range(2, 0) && PlanesNeeded(2, r) > 1
  {
    var v := LayerInfo(0, Device, true, false, true, Rect(0, 0, 1920, 1080));
    var display, layers := DisplayInfo(true, false, false), [v, v.(zOrder := 1)];
    HullIsTight(MustBeClient(display, layers));
    HullIsTight(Video(layers));
    assert Video(layers)[0] && Video(layers)[1];
    var client, device := Hull(MustBeClient(display, layers)), Hull(Video(layers));
    assert client == Range(-1, 0) && device == Range(0, 2);
    VideoBudgetWraps(2, 1, client, device);
  }

  /** Whenever a video window is found, no video layer goes to the GPU. */
  lemma VideoStaysOnPlanes(display: DisplayInfo, layers: seq<LayerInfo>, planes: nat, z: nat)
    requires 0 < planes <= INT_MAX && |layers| <= INT_MAX && z < |layers| && layers[z].video
    requires var client, device := Hull(MustBeClient(display, layers)), Hull(Video(layers));
             device.size > 0 && Disjoint(client, device) && VideoWindow(|layers|, planes, client, device).Some?
    ensures MarkOf(ClientRange(display, layers, planes), z) == Device
  {
    HullIsTight(Video(layers));
    assert Video(layers)[z];
  }

  /** True when `ClientRange` is the result of a plain search on a saturated input. */
  ghost predicate PlannerSaturated(display: DisplayInfo, layers: seq<LayerInfo>, planes: nat)
    requires 0 < planes <= INT_MAX && |layers| <= INT_MAX
  {
    var client, device := Hull(MustBeClient(display, layers)), Hull(Video(layers));
    && (device.size == 0 || !Disjoint(client, device) || VideoWindow(|layers|, planes, client, device).None?)
    && Saturated(layers, planes, client)
  }

  /** The planner gives the GPU no more than it must whenever it does without a video window. */
  lemma ClientRangeMinimal(display: DisplayInfo, layers: seq<LayerInfo>, planes: nat)
    requires 0 < planes <= INT_MAX && |layers| <= INT_MAX
    requires var client, device := Hull(MustBeClient(display, layers)), Hull(Video(layers));
             device.size == 0 || !Disjoint(client, device) || VideoWindow(|layers|, planes, client, device).None?
    ensures var n, client, r := |layers|, Hull(MustBeClient(display, layers)), ClientRange(display, layers, planes);
            && (WellPlanned(n, planes, client, client) ==> r == client)
            && (forall w :: WellPlanned(n, planes, client, w) ==> r.size <= w.size)
  {
    ExtraClientRangeMinimal(layers, planes, Hull(MustBeClient(display, layers)));
  }

  /** Without video or must-be-client layers the planner is the plain search from an empty range. */
  lemma PlainPlanner(display: DisplayInfo, layers: seq<LayerInfo>, planes: nat)
    requires 0 < planes <= INT_MAX && |layers| <= INT_MAX
    requires forall z :: 0 <= z < |layers| ==> !IsClientLayer(display, layers[z]) && !layers[z].video
    ensures ClientRange(display, layers, planes) == ExtraClientRange(layers, planes, Range(-1, 0))
    ensures PlannerSaturated(display, layers, planes) <==> Saturated(layers, planes, Range(-1, 0))
  {
    HullIsTight(MustBeClient(display, layers));
    HullIsTight(Video(layers));
  }

  /** The input of `SaturatedExample` saturates the planner as a whole. */
  lemma SaturatedPlannerExample(display: DisplayInfo, layer: LayerInfo)
    requires layer.frame == Rect(0, 0, 21845, 65537) && !layer.video && !IsClientLayer(display, layer)
    ensures PlannerSaturated(display, [layer, layer, layer], 1) && ClientRange(display, [layer, layer, layer], 1) == Range(-1, 3)
  {
    PlainPlanner(display, [layer, layer, layer], 1);
    SaturatedExample(layer);
  }

  /** The validated type a client range gives to position `z`. */
  function MarkOf(client: Range, z: nat): CompositionType {
    if client.start >= 0 && Inside(client, z) then Client else Device
  }

  predicate MarkedAs(layers: seq<HwcLayer>, client: Range)
    reads layers
  {
    forall z :: 0 <= z < |layers| ==> layers[z].validatedType == MarkOf(client, z)
  }

  /** The range arrives as unsigned numbers, so a start of -1 marks nothing. */
  method MarkValidated(layers: seq<HwcLayer>, client: Range)
    requires Distinct(layers) && |layers| <= INT_MAX
    requires -1 <= client.start <= INT_MAX && client.size <= INT_MAX
    modifies layers`validatedType
    ensures MarkedAs(layers, client)
  {
    var firstZ := client.start % SIZE_COUNT;
    var endZ := (firstZ + client.size) % SIZE_COUNT;
    for z := 0 to |layers|
      invariant forall k :: 0 <= k < z ==> layers[k].validatedType == MarkOf(client, k)
    {
      layers[z].validatedType := if firstZ <= z < endZ then Client else Device;
    }
  }

  /** Position `z` lies in both ranges. */
  predicate Overlap(a: Range, b: Range, z: int) {
    a.size > 0 && b.size > 0 && Inside(a, z) && Inside(b, z)
  }

  lemma DisjointMeansNoOverlap(n: nat, a: Range, b: Range)
    requires ClientHull(n, a) && ClientHull(n, b)
    ensures Disjoint(a, b) <==> forall z :: 0 <= z < n ==> !Overlap(a, b, z)
  {
    if !Disjoint(a, b) {
      assert Overlap(a, b, if a.start < b.start then b.start else a.start);
    }
  }

  /** The comparison of `z` with both ends of a possibly empty range, in unsigned arithmetic. */
  predicate UnsignedInside(r: Range, z: nat) {
    var first := r.start % SIZE_COUNT;
    first <= z <= (first + r.size - 1) % SIZE_COUNT
  }

  lemma UnsignedInsideMeansInside(client: Range, n: nat)
    requires ClientHull(n, client) && n <= INT_MAX
    ensures forall z: nat :: z < n ==> (UnsignedInside(client, z) <==> client.size > 0 && Inside(client, z))
  {
  }

  /** The consistency test of the two hulls: no layer of one kind lies in the other's hull. */
  method CheckHulls(layers: seq<HwcLayer>, client: Range, device: Range) returns (status: bool)
    requires Distinct(layers) && |layers| <= INT_MAX
    requires ClientHull(|layers|, client) && ClientHull(|layers|, device) && device.size > 0
    requires forall z :: 0 <= z < |layers| && layers[z].info.video ==> Inside(device, z)
    modifies layers`validatedType
    ensures status <==> Disjoint(client, device)
  {
    DisjointMeansNoOverlap(|layers|, client, device);
    UnsignedInsideMeansInside(client, |layers|);
    status := true;
    MarkValidated(layers, client);
    for z := 0 to |layers|
      invariant status <==> forall k :: 0 <= k < z ==> !Overlap(client, device, k)
    {
      ghost var before := status;
      if UnsignedInside(client, z) && layers[z].info.video {
        status := false;
      }
      if device.start <= z <= device.start + device.size - 1 && layers[z].validatedType == Client {
        status := false;
      }
      assert layers[z].validatedType == MarkOf(client, z);
      assert status <==> before && !Overlap(client, device, z);
    }
  }

  /** One pass over the layers for the must-be-client hull and the video hull. */
  method FindHulls(display: DisplayInfo, layers: seq<HwcLayer>) returns (client: Range, device: Range)
    ensures client == Hull(MustBeClient(display, Infos(layers))) && device == Hull(Video(Infos(layers)))
    ensures forall z :: 0 <= z < |layers| && layers[z].info.video ==> Inside(device, z)
  {
    ghost var must, video := MustBeClient(display, Infos(layers)), Video(Infos(layers));
    client, device := Range(-1, 0), Range(-1, 0);
    for z := 0 to |layers|
      invariant client == Hull(must[..z]) && device == Hull(video[..z])
    {
      HullStep(must, z);
      HullStep(video, z);
      if IsClientLayer(display, layers[z].info) {
        client := if client.start < 0 then Range(z, 1) else Range(client.start, z - client.start + 1);
      }
      if layers[z].info.video {
        device := if device.start < 0 then Range(z, 1) else Range(device.start, z - device.start + 1);
      }
    }
    assert must[..|layers|] == must && video[..|layers|] == video;
    HullIsTight(video);
    assert forall z :: 0 <= z < |layers| ==> video[z] == layers[z].info.video;
  }

  method GetClientLayers(display: DisplayInfo, layers: seq<HwcLayer>, planes: nat) returns (r: Range)
    requires 0 < planes <= INT_MAX && |layers| <= INT_MAX && Distinct(layers)
    modifies layers`validatedType
    ensures r == ClientRange(display, Infos(layers), planes)
  {
    var client, device := FindHulls(display, layers);
    var n := |layers|;
    if device.size == 0 {
      r := GetExtraClientRange(Infos(layers), planes, client);
    } else {
      var status := CheckHulls(layers, client, device);
      if !status {
        r := GetExtraClientRange(Infos(layers), planes, client);
      } else {
        var w := VideoWindow(n, planes, client, device);
        if w.Some? {
          r := w.value;
        } else {
          r := GetExtraClientRange(Infos(layers), planes, client);
        }
      }
    }
  }

  /**
   Whether the planner's result fits the planes: always after a plain search, and for a
   video window if the video span is below the planes or every plane has its own layer.
   */
  ghost predicate PlannerFits(display: DisplayInfo, layers: seq<LayerInfo>, planes: nat)
    requires 0 < planes <= INT_MAX && |layers| <= INT_MAX
  {
    var client, device := Hull(MustBeClient(display, layers)), Hull(Video(layers));
    || device.size == 0 || !Disjoint(client, device) || VideoWindow(|layers|, planes, client, device).None?
    || device.size < planes
    || (client.size == 0 && |layers| == planes)
  }

  /** The plain plane budget of a video window, exactly. */
  lemma VideoWindowFitsIff(n: nat, planes: nat, client: Range, device: Range)
    requires 0 < planes <= INT_MAX && n <= INT_MAX
    requires ClientHull(n, client) && ClientHull(n, device) && device.size > 0 && Disjoint(client, device)
    requires VideoWindow(n, planes, client, device).Some?
    ensures PlanesNeeded(n, VideoWindow(n, planes, client, device).value) <= planes
       <==> device.size < planes || (client.size == 0 && n == planes)
  {
    if device.size < planes {
      VideoBudgetFits(n, planes, client, device);
    } else {
      VideoBudgetWraps(n, planes, client, device);
    }
  }

  /**
   Plane budget and coverage for the planner as a whole: unless the cost counter is
   saturated, the chosen range contains every must-be-client layer, and what is left fits
   the usable planes if and only if `PlannerFits`.
   */
  lemma ClientRangeWellPlanned(display: DisplayInfo, layers: seq<LayerInfo>, planes: nat)
    requires 0 < planes <= INT_MAX && |layers| <= INT_MAX
    requires !PlannerSaturated(display, layers, planes)
    ensures var r := ClientRange(display, layers, planes);
            && (r.size > 0 ==> 0 <= r.start && r.start + r.size <= |layers|)
            && (forall z :: 0 <= z < |layers| && IsClientLayer(display, layers[z]) ==> Inside(r, z))
            && (PlanesNeeded(|layers|, r) <= planes <==> PlannerFits(display, layers, planes))
  {
    var client, device := Hull(MustBeClient(display, layers)), Hull(Video(layers));
    HullIsTight(MustBeClient(display, layers));
    var r := ClientRange(display, layers, planes);
    if device.size == 0 || !Disjoint(client, device) || VideoWindow(|layers|, planes, client, device).None? {
      ExtraClientRangeWellPlanned(layers, planes, client);
    } else {
      VideoWindowFitsIff(|layers|, planes, client, device);
    }
    forall z | 0 <= z < |layers| && IsClientLayer(display, layers[z])
      ensures Inside(r, z)
    {
      assert MustBeClient(display, layers)[z];
      assert Inside(client, z);
    }
  }
}
