/**
 Which layers the GPU composites (backend/Backend.cpp).

 Layers are given bottom to top. The planner answers with one window of them, the
 client range; everything outside it goes to display planes.
 */
module Planner {
  import opened Layers

  const UINT32_MAX := 0xFFFF_FFFF
  const UINT32_COUNT := 0x1_0000_0000
  const INT_MAX := 0x7FFF_FFFF
  const SIZE_COUNT := 0x1_0000_0000_0000_0000

  /** A client range; `start` is -1 when no layer was found. */
  datatype Range = Range(start: int, size: nat)

  function Min(a: int, b: int): int {
    if a < b then a else b
  }

  // ---------------------------------------------------------------- pixel cost

  function Area(layer: LayerInfo): int {
    (layer.frame.right - layer.frame.left) * (layer.frame.bottom - layer.frame.top)
  }

  /** Total area of a window of layers, as a mathematical integer. */
  function AreaSum(layers: seq<LayerInfo>, first: nat, size: nat): int
    requires first + size <= |layers|
  {
    if size == 0 then 0 else AreaSum(layers, first, size - 1) + Area(layers[first + size - 1])
  }

  /** Cost of a window as the 32-bit counter of the source holds it. */
  function PixOps(layers: seq<LayerInfo>, first: nat, size: nat): nat
    requires first + size <= |layers|
  {
    AreaSum(layers, first, size) % UINT32_COUNT
  }

  method CalcPixOps(layers: seq<LayerInfo>, first: nat, size: nat) returns (pixops: nat)
    requires first + size <= |layers|
    ensures pixops == PixOps(layers, first, size)
  {
    pixops := 0;
    for z := 0 to |layers|
      invariant pixops == PixOps(layers, first, if z < first then 0 else if z < first + size then z - first else size)
    {
      if z >= first && z < first + size {
        pixops := (pixops + Area(layers[z])) % UINT32_COUNT;
      }
    }
  }

  /** Non-negative areas: a sub-window never costs more than a window around it. */
  lemma {:induction false} AreaSumMonotone(layers: seq<LayerInfo>, first: nat, size: nat)
    requires first + size <= |layers|
    requires forall l :: l in layers ==> Area(l) >= 0
    ensures 0 <= AreaSum(layers, first, size) <= AreaSum(layers, 0, |layers|)
  {
    AreaSumSplit(layers, 0, first, size);
    AreaSumSplit(layers, 0, first + size, |layers| - first - size);
    AreaSumNonNegative(layers, 0, first);
    AreaSumNonNegative(layers, first, size);
    AreaSumNonNegative(layers, first + size, |layers| - first - size);
  }

  lemma {:induction false} AreaSumSplit(layers: seq<LayerInfo>, first: nat, a: nat, b: nat)
    requires first + a + b <= |layers|
    ensures AreaSum(layers, first, a + b) == AreaSum(layers, first, a) + AreaSum(layers, first + a, b)
    decreases b
  {
    if b > 0 {
      AreaSumSplit(layers, first, a, b - 1);
    }
  }

  lemma {:induction false} AreaSumNonNegative(layers: seq<LayerInfo>, first: nat, size: nat)
    requires first + size <= |layers|
    requires forall l :: l in layers ==> Area(l) >= 0
    ensures AreaSum(layers, first, size) >= 0
  {
    if size > 0 {
      AreaSumNonNegative(layers, first, size - 1);
    }
  }

  /** Areas are non-negative and add up to less than the counter's maximum. */
  ghost predicate CostsFit(layers: seq<LayerInfo>) {
    && (forall l :: l in layers ==> Area(l) >= 0)
    && AreaSum(layers, 0, |layers|) < UINT32_MAX
  }

  lemma PixOpsExact(layers: seq<LayerInfo>, first: nat, size: nat)
    requires CostsFit(layers) && first + size <= |layers|
    ensures PixOps(layers, first, size) == AreaSum(layers, first, size) < UINT32_MAX
  {
    AreaSumMonotone(layers, first, size);
  }

  // ------------------------------------------------------- cheapest client window

  /** Leftmost start in `lo..hi` whose window of `size` layers is cheapest. */
  function Cheapest(layers: seq<LayerInfo>, size: nat, lo: nat, hi: nat): (s: nat)
    requires lo <= hi && hi + size <= |layers|
    ensures lo <= s <= hi
    decreases hi
  {
    if lo == hi then lo
    else
      var s := Cheapest(layers, size, lo, hi - 1);
      if PixOps(layers, hi, size) < PixOps(layers, s, size) then hi else s
  }

  lemma {:induction false} CheapestIsLeftmostMinimum(layers: seq<LayerInfo>, size: nat, lo: nat, hi: nat)
    requires lo <= hi && hi + size <= |layers|
    ensures var s := Cheapest(layers, size, lo, hi);
            && (forall w :: lo <= w <= hi ==> PixOps(layers, s, size) <= PixOps(layers, w, size))
            && (forall w :: lo <= w < s ==> PixOps(layers, s, size) < PixOps(layers, w, size))
    decreases hi
  {
    if lo < hi {
      CheapestIsLeftmostMinimum(layers, size, lo, hi - 1);
    }
  }

  /** Planes left for device layers once one is saved for the client target. */
  function AvailPlanes(n: nat, planes: nat): nat
    requires planes > 0
  {
    if planes < n then planes - 1 else planes
  }

  /** The window `start .. start + size` is in bounds and covers the mandatory client range. */
  predicate Covers(n: nat, client: Range, start: int, size: nat) {
    && 0 <= start && start + size <= n
    && (client.size != 0 ==> start <= client.start && client.start + client.size <= start + size)
  }

  /** A mandatory client range as the hull search produces it. */
  predicate ClientHull(n: nat, client: Range) {
    if client.size == 0 then client.start == -1
    else 0 <= client.start && client.start + client.size <= n
  }

  function Extra(n: nat, planes: nat, client: Range): int
    requires planes > 0
  {
    n - client.size - AvailPlanes(n, planes)
  }

  /** First and last start of the covering windows of a given size. */
  function LowStart(client: Range, size: nat): nat
    requires client.size != 0 ==> client.start >= 0
  {
    if client.size != 0 && client.start + client.size > size then client.start + client.size - size else 0
  }

  function HighStart(n: nat, client: Range, size: nat): int {
    if client.size != 0 && client.start < n - size then client.start else n - size
  }

  /** The covering windows are exactly the starts between the two ends. */
  lemma CoveringStarts(n: nat, client: Range, size: nat, s: int)
    requires ClientHull(n, client) && client.size <= size <= n
    ensures Covers(n, client, s, size) <==> LowStart(client, size) <= s <= HighStart(n, client, size)
  {
  }

  /**
   The client range after enlarging the mandatory one: the leftmost cheapest covering
   window, if the 32-bit cost of that window is below the counter's maximum.
   */
  function ExtraClientRange(layers: seq<LayerInfo>, planes: nat, client: Range): (r: Range)
    requires planes > 0 && ClientHull(|layers|, client)
  {
    var n := |layers|;
    var extra := Extra(n, planes, client);
    if extra <= 0 then client
    else
      var size := client.size + extra;
      var best := Cheapest(layers, size, LowStart(client, size), HighStart(n, client, size));
      Range(if PixOps(layers, best, size) < UINT32_MAX then best else client.start, size)
  }

  /** The search loop: the first of the cheapest windows, or the old start if none is below the maximum. */
  method CheapestOf(layers: seq<LayerInfo>, start: nat, steps: nat, size: nat, oldStart: int) returns (clientStart: int)
    requires steps > 0 && start + steps - 1 + size <= |layers|
    ensures var best := Cheapest(layers, size, start, start + steps - 1);
            clientStart == if PixOps(layers, best, size) < UINT32_MAX then best else oldStart
  {
    clientStart := oldStart;
    var gpuPixops := UINT32_MAX;
    for i := 0 to steps
      invariant i == 0 ==> gpuPixops == UINT32_MAX && clientStart == oldStart
      invariant i > 0 ==>
                  var best := Cheapest(layers, size, start, start + i - 1);
                  && gpuPixops == PixOps(layers, best, size)
                  && clientStart == if gpuPixops < UINT32_MAX then best else oldStart
    {
      var po := CalcPixOps(layers, start + i, size);
      if po < gpuPixops {
        gpuPixops := po;
        clientStart := start + i;
      }
    }
  }

  /**
   GetExtraClientRange as the source runs it. The loop is written with the source's
   `prepend`, `append` and `steps`; the contract speaks of covering windows only.
   */
  method GetExtraClientRange(layers: seq<LayerInfo>, planes: nat, client: Range) returns (r: Range)
    requires 0 < planes <= INT_MAX && |layers| <= INT_MAX
    requires ClientHull(|layers|, client)
    ensures r == ExtraClientRange(layers, planes, client)
  {
    var n := |layers|;
    var availPlanes := planes;
    if availPlanes < n {
      availPlanes := availPlanes - 1;
    }
    var clientStart, clientSize := client.start, client.size;
    var extraClient := n - clientSize - availPlanes;

    if extraClient > 0 {
      var start, steps := 0, 0;
      if clientSize != 0 {
        var prepend := Min(clientStart, extraClient);
        var append := Min(n - (clientStart + clientSize), extraClient);
        start := clientStart - prepend;
        clientSize := clientSize + extraClient;
        steps := 1 + Min(Min(append, prepend), n - (start + clientSize));
      } else {
        clientSize := extraClient;
        steps := 1 + n - extraClient;
      }
      assert start == LowStart(client, clientSize) && start + steps - 1 == HighStart(n, client, clientSize);

      clientStart := CheapestOf(layers, start, steps, clientSize, clientStart);
    }
    r := Range(clientStart, clientSize);
  }

  /**
   What the search does on every input: nothing grows unless it must, and a grown range
   starts at the leftmost covering window of least 32-bit cost, or at the old start if
   every such window costs the counter's maximum.
   */
  lemma ExtraClientRangeExact(layers: seq<LayerInfo>, planes: nat, client: Range)
    requires planes > 0 && ClientHull(|layers|, client) && Extra(|layers|, planes, client) > 0
    ensures var n, r := |layers|, ExtraClientRange(layers, planes, client);
            && r.size == n - AvailPlanes(n, planes)
            && if forall s {:trigger Covers(n, client, s, r.size)} :: Covers(n, client, s, r.size) ==> PixOps(layers, s, r.size) == UINT32_MAX
               then r.start == client.start
               else && Covers(n, client, r.start, r.size)
                    && (forall s :: Covers(n, client, s, r.size) ==>
                          && PixOps(layers, r.start, r.size) <= PixOps(layers, s, r.size)
                          && (s < r.start ==> PixOps(layers, r.start, r.size) < PixOps(layers, s, r.size)))
  {
    var n := |layers|;
    var size := client.size + Extra(n, planes, client);
    var lo, hi := LowStart(client, size), HighStart(n, client, size);
    var best := Cheapest(layers, size, lo, hi);
    CheapestIsLeftmostMinimum(layers, size, lo, hi);
    CoveringStarts(n, client, size, best);
    assert Covers(n, client, best, size);
    forall s | Covers(n, client, s, size)
      ensures PixOps(layers, best, size) <= PixOps(layers, s, size) <= UINT32_MAX
      ensures s < best ==> PixOps(layers, best, size) < PixOps(layers, s, size)
    {
      CoveringStarts(n, client, size, s);
    }
  }

  /**
   Window optimality: when the client range has to grow, the result is the leftmost
   cheapest of all windows of the new size that cover the mandatory range.
   */
  lemma ExtraClientRangeOptimal(layers: seq<LayerInfo>, planes: nat, client: Range)
    requires planes > 0 && ClientHull(|layers|, client)
    requires Extra(|layers|, planes, client) > 0
    requires CostsFit(layers)
    ensures var r := ExtraClientRange(layers, planes, client);
            && r.size == |layers| - AvailPlanes(|layers|, planes)
            && Covers(|layers|, client, r.start, r.size)
            && (forall s :: Covers(|layers|, client, s, r.size) ==>
                  && AreaSum(layers, r.start, r.size) <= AreaSum(layers, s, r.size)
                  && (s < r.start ==> AreaSum(layers, r.start, r.size) < AreaSum(layers, s, r.size)))
  {
    var n, r := |layers|, ExtraClientRange(layers, planes, client);
    var low := LowStart(client, r.size);
    ExtraClientRangeExact(layers, planes, client);
    CoveringStarts(n, client, r.size, low);
    PixOpsExact(layers, low, r.size);
    assert Covers(n, client, low, r.size);
    PixOpsExact(layers, r.start, r.size);
    forall s | Covers(n, client, s, r.size)
      ensures PixOps(layers, s, r.size) == AreaSum(layers, s, r.size)
    {
      PixOpsExact(layers, s, r.size);
    }
  }

  // ------------------------------------------------------------- plane budget

  /** Layers left on planes plus one plane for the client target, if there is one. */
  function PlanesNeeded(n: nat, r: Range): int {
    n - r.size + if r.size > 0 then 1 else 0
  }

  /** A result that can be marked and shown. */
  predicate WellPlanned(n: nat, planes: nat, client: Range, r: Range) {
    && (r.size > 0 ==> Covers(n, client, r.start, r.size))
    && (r.size == 0 ==> client.size == 0)
    && PlanesNeeded(n, r) <= planes
  }

  /**
   The one family of inputs on which the search result is unusable: every covering
   window costs exactly the counter's maximum, so the loop never records a start, and
   the old start does not carry a window of the new size.
   */
  ghost predicate Saturated(layers: seq<LayerInfo>, planes: nat, client: Range)
    requires planes > 0 && ClientHull(|layers|, client)
  {
    var n := |layers|;
    && Extra(n, planes, client) > 0
    && var size := client.size + Extra(n, planes, client);
       && (forall s {:trigger Covers(n, client, s, size)} :: Covers(n, client, s, size) ==> PixOps(layers, s, size) == UINT32_MAX)
       && (client.size == 0 || client.start + size > n)
  }

  /** Plane budget and coverage hold for every input but the saturated ones. */
  lemma ExtraClientRangeWellPlanned(layers: seq<LayerInfo>, planes: nat, client: Range)
    requires planes > 0 && ClientHull(|layers|, client)
    ensures WellPlanned(|layers|, planes, client, ExtraClientRange(layers, planes, client))
       <==> !Saturated(layers, planes, client)
  {
    var n := |layers|;
    var extra := Extra(n, planes, client);
    if extra > 0 {
      var size := client.size + extra;
      var lo, hi := LowStart(client, size), HighStart(n, client, size);
      var best := Cheapest(layers, size, lo, hi);
      CheapestIsLeftmostMinimum(layers, size, lo, hi);
      CoveringStarts(n, client, size, best);
      forall s: nat | Covers(n, client, s, size)
        ensures PixOps(layers, best, size) <= PixOps(layers, s, size) <= UINT32_MAX
      {
        CoveringStarts(n, client, size, s);
      }
    }
  }

  /**
   The planner gives the GPU no more than it must: a mandatory range that fits the planes
   is returned as it is, and no range that covers it and fits has fewer layers.
   */
  lemma ExtraClientRangeMinimal(layers: seq<LayerInfo>, planes: nat, client: Range)
    requires planes > 0 && ClientHull(|layers|, client)
    ensures var n, r := |layers|, ExtraClientRange(layers, planes, client);
            && (WellPlanned(n, planes, client, client) ==> r == client)
            && (forall w :: WellPlanned(n, planes, client, w) ==> r.size <= w.size)
  {
  }

  /** The saturated family is not empty: three layers of 21845 x 65537 pixels and one plane. */
  lemma SaturatedExample(layer: LayerInfo)
    requires layer.frame == Rect(0, 0, 21845, 65537)
    ensures Saturated([layer, layer, layer], 1, Range(-1, 0))
    ensures ExtraClientRange([layer, layer, layer], 1, Range(-1, 0)) == Range(-1, 3)
  {
    var layers := [layer, layer, layer];
    assert Area(layer) == 1431655765;
    assert AreaSum(layers, 0, 2) == AreaSum(layers, 0, 1) + Area(layer) == 2863311530;
    assert PixOps(layers, 0, 3) == UINT32_MAX;
  }
}
