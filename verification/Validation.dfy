/**
 Validation of a frame, end to end (backend/Backend.cpp, ValidateDisplay).

 The layers of the display are listed in handle order; `ordered` is the result of
 sorting them by z-order, as positions in that list.
 */
module Validation {
  import opened Sequences
  import opened Layers
  import opened Planner
  import opened VideoPlanner
  import opened KmsPlan
  import opened Blending
  import opened Composition
  import opened Flattening

  /** Distinct positions in a list of `n` layers, one for each layer. */
  ghost predicate Positions(ordered: seq<nat>, n: nat) {
    && |ordered| == n
    && Distinct(ordered)
    && (forall p :: 0 <= p < |ordered| ==> ordered[p] < n)
  }

  /** Every layer has its position. */
  ghost predicate Complete(ordered: seq<nat>, n: nat) {
    forall i :: 0 <= i < n ==> i in ordered
  }

  function Arrange(layers: seq<HwcLayer>, ordered: seq<nat>): (r: seq<HwcLayer>)
    requires forall p :: 0 <= p < |ordered| ==> ordered[p] < |layers|
    ensures |r| == |ordered| && forall p :: 0 <= p < |r| ==> r[p] == layers[ordered[p]]
  {
    seq(|ordered|, p requires 0 <= p < |ordered| => layers[ordered[p]])
  }

  /** The planner's answer always has the shape the marking loop expects. */
  lemma ClientRangeShape(display: DisplayInfo, layers: seq<LayerInfo>, planes: nat)
    requires 0 < planes <= INT_MAX && |layers| <= INT_MAX
    ensures var r := ClientRange(display, layers, planes);
            -1 <= r.start <= |layers| && r.size <= |layers|
  {
  }

  /** The types along the z-order are those of a client range. */
  ghost predicate KindsFollow(ordered: seq<nat>, marks: seq<Marked>, client: Range) {
    && |ordered| == |marks|
    && forall p :: 0 <= p < |ordered| ==> ordered[p] < |marks| && marks[ordered[p]].kind == MarkOf(client, p)
  }

  /** The type a client range gives to layer `i`: that of its place in the z-order. */
  ghost function KindOf(ordered: seq<nat>, client: Range, i: nat): CompositionType {
    if p :| 0 <= p < |ordered| && ordered[p] == i then MarkOf(client, p) else Device
  }

  /** The marks that a client range gives to the layers, in handle order. */
  ghost function RangeMarks(infos: seq<LayerInfo>, ordered: seq<nat>, client: Range): (r: seq<Marked>) {
    seq(|infos|, i requires 0 <= i < |infos| => Marked(infos[i].zOrder, KindOf(ordered, client, i)))
  }

  /** Layers whose types follow a range carry exactly its marks. */
  lemma MarksOfRange(infos: seq<LayerInfo>, marks: seq<Marked>, ordered: seq<nat>, client: Range)
    requires |marks| == |infos| && forall i :: 0 <= i < |marks| ==> marks[i].zOrder == infos[i].zOrder
    requires Complete(ordered, |infos|) && KindsFollow(ordered, marks, client)
    ensures marks == RangeMarks(infos, ordered, client)
  {
    var r := RangeMarks(infos, ordered, client);
    forall i | 0 <= i < |marks|
      ensures marks[i] == r[i]
    {
      assert i in ordered;
      assert marks[i] == Marked(infos[i].zOrder, KindOf(ordered, client, i));
    }
  }

  /** The contract of sorting the layers by z-order, before any marking. */
  ghost predicate SortsByZ(ordered: seq<nat>, infos: seq<LayerInfo>) {
    && Positions(ordered, |infos|) && Complete(ordered, |infos|)
    && (forall p, q :: 0 <= p < q < |ordered| ==> infos[ordered[p]].zOrder <= infos[ordered[q]].zOrder)
  }

  /** Marking never touches z-orders, so the sorted order is one for any marks. */
  lemma SortedForMarks(ordered: seq<nat>, infos: seq<LayerInfo>, marks: seq<Marked>)
    requires SortsByZ(ordered, infos)
    requires |marks| == |infos| && forall i :: 0 <= i < |marks| ==> marks[i].zOrder == infos[i].zOrder
    ensures IsZOrder(ordered, marks)
  {
  }

  lemma KindsFollowRange(ordered: seq<nat>, marks: seq<Marked>, client: Range)
    requires IsZOrder(ordered, marks) && KindsFollow(ordered, marks, client)
    requires client.size > 0 ==> 0 <= client.start && client.start + client.size <= |marks|
    ensures FollowsRange(ordered, marks, client)
  {
  }

  /** MarkValidated on the arranged layers, seen from the handle order. */
  method MarkRange(layers: seq<HwcLayer>, ordered: seq<nat>, client: Range)
    requires Distinct(layers) && |layers| <= INT_MAX
    requires Positions(ordered, |layers|)
    requires -1 <= client.start <= INT_MAX && client.size <= INT_MAX
    modifies layers`validatedType
    ensures KindsFollow(ordered, Marks(layers), client)
  {
    var arranged := Arrange(layers, ordered);
    ArrangeDistinct(layers, ordered);
    MarkValidated(arranged, client);
    forall p | 0 <= p < |ordered|
      ensures Marks(layers)[ordered[p]].kind == MarkOf(client, p)
    {
      assert arranged[p].validatedType == MarkOf(client, p);
    }
  }

  lemma ArrangeDistinct(layers: seq<HwcLayer>, ordered: seq<nat>)
    requires Distinct(layers) && Positions(ordered, |layers|)
    ensures Distinct(Arrange(layers, ordered))
  {
  }

  /** A marking that validation may leave behind. */
  ghost predicate Validated<P>(display: DisplayInfo, infos: seq<LayerInfo>, ordered: seq<nat>, marks: seq<Marked>, client: Range,
                               usable: Slot -> bool, planes: seq<P>, valid: (P, Slot) -> bool,
                               kernel: seq<Joining<Slot, P>> -> int)
  {
    && |infos| == |marks|
    && FollowsRange(ordered, marks, client)
    && (forall p :: 0 <= p < |infos| && IsClientLayer(display, infos[p]) ==> Inside(client, p))
    && (client.size == |marks| || Passes(marks, usable, planes, valid, kernel))
  }

  ghost predicate Decorated(infos: seq<LayerInfo>) {
    exists i :: 0 <= i < |infos| && infos[i].sfType == DisplayDecoration
  }

  /** The planned range, marked on the layers. */
  method PlanAndMark(display: DisplayInfo, layers: seq<HwcLayer>, ordered: seq<nat>, planes: nat) returns (chosen: Range)
    requires Distinct(layers) && |layers| <= INT_MAX && 0 < planes <= INT_MAX
    requires Positions(ordered, |layers|)
    modifies layers`validatedType
    ensures KindsFollow(ordered, Marks(layers), chosen)
    ensures chosen == ClientRange(display, old(Infos(Arrange(layers, ordered))), planes)
  {
    ArrangeDistinct(layers, ordered);
    var arranged := Arrange(layers, ordered);
    chosen := GetClientLayers(display, arranged, planes);
    ClientRangeShape(display, Infos(arranged), planes);
    MarkRange(layers, ordered, chosen);
  }

  /** The test-only composition of the marks, and the fallback to the client when it fails. */
  method TestMarks<P>(layers: seq<HwcLayer>, ordered: seq<nat>, planned: Range,
                      usable: Slot -> bool, planes: seq<P>, valid: (P, Slot) -> bool,
                      kernel: seq<Joining<Slot, P>> -> int)
    returns (chosen: Range)
    requires Distinct(layers) && |layers| <= INT_MAX && Positions(ordered, |layers|)
    requires KindsFollow(ordered, Marks(layers), planned)
    modifies layers`validatedType
    ensures KindsFollow(ordered, Marks(layers), chosen)
    ensures chosen == if planned == Range(0, |layers|) || !Passes(old(Marks(layers)), usable, planes, valid, kernel)
                      then Range(0, |layers|) else planned
    ensures chosen == Range(0, |layers|) || Marks(layers) == old(Marks(layers))
  {
    chosen := planned;
    if !(planned.start == 0 && planned.size == |layers|) {
      var verdict, plan := CreateComposition(false, layers, usable, planes, valid, kernel);
      if verdict != NoError {
        chosen := Range(0, |layers|);
        MarkRange(layers, ordered, chosen);
      }
    }
  }

  /** The marks a finished validation leaves: all layers Client, or the planned range as tested. */
  ghost predicate Settled<P>(display: DisplayInfo, infos: seq<LayerInfo>, ordered: seq<nat>, marks: seq<Marked>, client: Range,
                             usable: Slot -> bool, planes: seq<P>, valid: (P, Slot) -> bool,
                             kernel: seq<Joining<Slot, P>> -> int)
    requires |infos| <= INT_MAX && 0 < |planes| <= INT_MAX
  {
    && KindsFollow(ordered, marks, client)
    && (|| client == Range(0, |marks|)
        || (client == ClientRange(display, infos, |planes|) && Passes(marks, usable, planes, valid, kernel)))
  }

  /**
   The range a validation chooses: all layers if it flattens the screen, if the planner
   asks for all, or if the planned marks do not pass; otherwise the planned range.
   */
  ghost predicate Decides<P>(display: DisplayInfo, layers: seq<LayerInfo>, infos: seq<LayerInfo>, ordered: seq<nat>,
                             flatten: bool, chosen: Range, usable: Slot -> bool, planes: seq<P>, valid: (P, Slot) -> bool,
                             kernel: seq<Joining<Slot, P>> -> int)
    requires |infos| <= INT_MAX && 0 < |planes| <= INT_MAX
  {
    var all, planned := Range(0, |layers|), ClientRange(display, infos, |planes|);
    && (flatten ==> chosen == all)
    && (!flatten ==>
          && (chosen == all <==> planned == all || !Passes(RangeMarks(layers, ordered, planned), usable, planes, valid, kernel))
          && (chosen != all ==> chosen == planned))
  }

  /** A range chosen by testing the planned marks. */
  lemma TestDecides<P>(display: DisplayInfo, layers: seq<LayerInfo>, infos: seq<LayerInfo>, ordered: seq<nat>,
                       marks: seq<Marked>, chosen: Range, usable: Slot -> bool, planes: seq<P>, valid: (P, Slot) -> bool,
                       kernel: seq<Joining<Slot, P>> -> int)
    requires |infos| <= INT_MAX && 0 < |planes| <= INT_MAX && Complete(ordered, |layers|)
    requires |marks| == |layers| && forall i :: 0 <= i < |marks| ==> marks[i].zOrder == layers[i].zOrder
    requires var all, planned := Range(0, |layers|), ClientRange(display, infos, |planes|);
             && KindsFollow(ordered, marks, planned)
             && chosen == if planned == all || !Passes(marks, usable, planes, valid, kernel) then all else planned
    ensures Decides(display, layers, infos, ordered, false, chosen, usable, planes, valid, kernel)
  {
    MarksOfRange(layers, marks, ordered, ClientRange(display, infos, |planes|));
  }

  /** The range chosen for the layers and the marks they are left with. */
  ghost predicate Concluded<P>(display: DisplayInfo, layers: seq<HwcLayer>, ordered: seq<nat>, flatten: bool, chosen: Range,
                               usable: Slot -> bool, planes: seq<P>, valid: (P, Slot) -> bool,
                               kernel: seq<Joining<Slot, P>> -> int)
    reads layers
    requires |layers| <= INT_MAX && 0 < |planes| <= INT_MAX && Positions(ordered, |layers|)
  {
    var infos := Infos(Arrange(layers, ordered));
    && Decides(display, Infos(layers), infos, ordered, flatten, chosen, usable, planes, valid, kernel)
    && Settled(display, infos, ordered, Marks(layers), chosen, usable, planes, valid, kernel)
  }

  /** Planning and testing when the screen is not flattened. */
  method PlanAndTest<P>(display: DisplayInfo, layers: seq<HwcLayer>, ordered: seq<nat>,
                        usable: Slot -> bool, planes: seq<P>, valid: (P, Slot) -> bool,
                        kernel: seq<Joining<Slot, P>> -> int)
    returns (chosen: Range)
    requires Distinct(layers) && |layers| <= INT_MAX && 0 < |planes| <= INT_MAX
    requires Positions(ordered, |layers|) && Complete(ordered, |layers|)
    modifies layers`validatedType
    ensures Concluded(display, layers, ordered, false, chosen, usable, planes, valid, kernel)
  {
    ghost var infos := Infos(Arrange(layers, ordered));
    var planned := PlanAndMark(display, layers, ordered, |planes|);
    ghost var marks := Marks(layers);
    chosen := TestMarks(layers, ordered, planned, usable, planes, valid, kernel);
    assert Infos(Arrange(layers, ordered)) == infos;
    TestDecides(display, Infos(layers), infos, ordered, marks, chosen, usable, planes, valid, kernel);
  }

  /** The layers a saturated search really sends to the GPU: none, or all from the old start on. */
  function SaturatedMarking(n: nat, planned: Range): (r: Range) {
    if 0 <= planned.start <= n then Range(planned.start, n - planned.start) else Range(-1, 0)
  }

  /** Saturated marks are those of a range in bounds that leaves too many layers for the planes. */
  lemma SaturatedFollows(display: DisplayInfo, infos: seq<LayerInfo>, ordered: seq<nat>, marks: seq<Marked>, planes: nat)
    requires |infos| == |marks| <= INT_MAX && 0 < planes <= INT_MAX
    requires PlannerSaturated(display, infos, planes) && IsZOrder(ordered, marks)
    requires KindsFollow(ordered, marks, ClientRange(display, infos, planes))
    ensures var planned := ClientRange(display, infos, planes);
            && !(planned.start >= 0 && planned.start + planned.size <= |marks|)
            && planned.size > 0
            && FollowsRange(ordered, marks, SaturatedMarking(|marks|, planned))
            && PlanesNeeded(|marks|, SaturatedMarking(|marks|, planned)) > planes
  {
    var client := Hull(MustBeClient(display, infos));
    ExtraClientRangeWellPlanned(infos, planes, client);
    var planned := ClientRange(display, infos, planes);
    assert planned == ExtraClientRange(infos, planes, client);
    var size := client.size + Extra(|infos|, planes, client);
    var best := Cheapest(infos, size, LowStart(client, size), HighStart(|infos|, client, size));
    CoveringStarts(|infos|, client, size, best);
    assert PixOps(infos, best, size) == UINT32_MAX;
  }

  /** For distinct z-orders a marking that needs more planes than there are never passes. */
  lemma OverBudgetFails<P>(ordered: seq<nat>, marks: seq<Marked>, client: Range, usable: Slot -> bool, planes: seq<P>,
                           valid: (P, Slot) -> bool, kernel: seq<Joining<Slot, P>> -> int)
    requires FollowsRange(ordered, marks, client) && DistinctZ(marks)
    requires PlanesNeeded(|marks|, client) > |planes|
    ensures !Passes(marks, usable, planes, valid, kernel)
  {
    forall entries | ListsMap(entries, ZMap(marks))
      ensures GreedyPlan(Slots(entries), 0, planes, 0, valid).None?
    {
      WalkCollapsesRun(ordered, marks, client, entries);
      CollapsedLength(ordered, marks, client);
      PlanNeedsPlanes(Slots(entries), planes, valid);
    }
  }

  /**
   Validation end to end: Client marks are one contiguous z-range holding every
   must-be-client layer, and either every layer is Client or exactly this marking passed
   the test-only composition. For distinct z-orders that is always so. In general it
   fails exactly when the planner's cost counter is saturated and its marking is kept.
   */
  lemma SettledIsValidated<P>(display: DisplayInfo, infos: seq<LayerInfo>, ordered: seq<nat>, marks: seq<Marked>, client: Range,
                             usable: Slot -> bool, planes: seq<P>, valid: (P, Slot) -> bool,
                             kernel: seq<Joining<Slot, P>> -> int)
    requires |infos| == |marks| <= INT_MAX && 0 < |planes| <= INT_MAX
    requires IsZOrder(ordered, marks)
    requires Settled(display, infos, ordered, marks, client, usable, planes, valid, kernel)
    ensures DistinctZ(marks) ==> Validated(display, infos, ordered, marks, client, usable, planes, valid, kernel)
    ensures Validated(display, infos, ordered, marks, client, usable, planes, valid, kernel)
       <==> !PlannerSaturated(display, infos, |planes|) || client == Range(0, |marks|)
  {
    if client == Range(0, |marks|) {
      KindsFollowRange(ordered, marks, client);
    } else if PlannerSaturated(display, infos, |planes|) {
      SaturatedFollows(display, infos, ordered, marks, |planes|);
      if DistinctZ(marks) {
        OverBudgetFails(ordered, marks, SaturatedMarking(|marks|, client), usable, planes, valid, kernel);
      }
    } else {
      ClientRangeWellPlanned(display, infos, |planes|);
      KindsFollowRange(ordered, marks, client);
    }
  }

  lemma ThreeAlikeFollow(m: Marked)
    requires m.kind == Device
    ensures IsZOrder([0, 1, 2], [m, m, m]) && KindsFollow([0, 1, 2], [m, m, m], Range(-1, 3))
  {
    assert forall i: nat :: i < 3 ==> [0, 1, 2][i] == i;
  }

  /** Three device layers with one z-order: the z-map keeps the first. */
  lemma ThreeAlikeMap(m: Marked)
    requires m.kind == Device
    ensures ZMap([m, m, m]) == map[m.zOrder := LayerSlot(0)]
  {
    assert [m, m, m][..2] == [m, m] && [m, m][..1] == [m] && [m][..0] == [];
    assert DeviceMap([m]) == map[m.zOrder := LayerSlot(0)] && ClientZ([m]).None?;
    assert DeviceMap([m, m]) == DeviceMap([m]) && ClientZ([m, m]).None?;
    assert DeviceMap([m, m, m]) == DeviceMap([m, m]) && ClientZ([m, m, m]).None?;
  }

  /** So one plane that takes the first of them is enough. */
  lemma ThreeAlikePass<P>(m: Marked, usable: Slot -> bool, plane: P, valid: (P, Slot) -> bool,
                          kernel: seq<Joining<Slot, P>> -> int)
    requires m.kind == Device
    requires usable(LayerSlot(0)) && valid(plane, LayerSlot(0)) && kernel([Joining(LayerSlot(0), plane, 0)]) == 0
    ensures Passes([m, m, m], usable, [plane], valid, kernel)
  {
    var slot, entries := LayerSlot(0), [Entry(m.zOrder, LayerSlot(0))];
    ThreeAlikeMap(m);
    assert entries[0] in entries && ListsMap(entries, ZMap([m, m, m]));
    assert Slots(entries) == [slot];
    assert FirstValid(slot, [plane], 0, valid) == 0;
    assert GreedyPlan([slot], 1, [plane], 1, valid).value == [];
    assert GreedyPlan([slot], 0, [plane], 0, valid).value == [Joining(slot, plane, 0)];
    assert Outcome(entries, usable, [plane], valid, kernel).0 == NoError;
  }

  /**
   Three layers of 21845 x 65537 pixels with one z-order and a single plane: the counter
   is saturated, no layer is marked Client, and the marking passes, although only the
   first layer is shown.
   */
  lemma SaturatedEqualZExample<P>(display: DisplayInfo, layer: LayerInfo, usable: Slot -> bool, plane: P,
                                  valid: (P, Slot) -> bool, kernel: seq<Joining<Slot, P>> -> int)
    requires layer.frame == Rect(0, 0, 21845, 65537) && !layer.video && !IsClientLayer(display, layer)
    requires usable(LayerSlot(0)) && valid(plane, LayerSlot(0)) && kernel([Joining(LayerSlot(0), plane, 0)]) == 0
    ensures var infos, m := [layer, layer, layer], Marked(layer.zOrder, Device);
            && IsZOrder([0, 1, 2], [m, m, m])
            && Settled(display, infos, [0, 1, 2], [m, m, m], Range(-1, 3), usable, [plane], valid, kernel)
            && !Validated(display, infos, [0, 1, 2], [m, m, m], Range(-1, 3), usable, [plane], valid, kernel)
  {
    var m, ordered := Marked(layer.zOrder, Device), [0, 1, 2];
    SaturatedPlannerExample(display, layer);
    ThreeAlikePass(m, usable, plane, valid, kernel);
    ThreeAlikeFollow(m);
    SettledIsValidated(display, [layer, layer, layer], ordered, [m, m, m], Range(-1, 3), usable, [plane], valid, kernel);
  }

  /** What a validation promises of the marks it leaves. */
  ghost predicate Accepted<P>(display: DisplayInfo, infos: seq<LayerInfo>, ordered: seq<nat>, marks: seq<Marked>, client: Range,
                              usable: Slot -> bool, planes: seq<P>, valid: (P, Slot) -> bool,
                              kernel: seq<Joining<Slot, P>> -> int)
    requires |infos| <= INT_MAX && 0 < |planes| <= INT_MAX
  {
    && Settled(display, infos, ordered, marks, client, usable, planes, valid, kernel)
    && (DistinctZ(marks) || !PlannerSaturated(display, infos, |planes|) ==>
          Validated(display, infos, ordered, marks, client, usable, planes, valid, kernel))
  }

  /** The whole promise: which range is chosen, and what the marks it leaves are worth. */
  ghost predicate Promised<P>(display: DisplayInfo, layers: seq<HwcLayer>, ordered: seq<nat>, flatten: bool, client: Range,
                              usable: Slot -> bool, planes: seq<P>, valid: (P, Slot) -> bool,
                              kernel: seq<Joining<Slot, P>> -> int)
    reads layers
    requires |layers| <= INT_MAX && 0 < |planes| <= INT_MAX && Positions(ordered, |layers|)
  {
    var infos := Infos(Arrange(layers, ordered));
    && Decides(display, Infos(layers), infos, ordered, flatten, client, usable, planes, valid, kernel)
    && Accepted(display, infos, ordered, Marks(layers), client, usable, planes, valid, kernel)
  }

  /** `SettledIsValidated` for layers that were sorted before they were marked. */
  lemma SettledWhenSorted<P>(display: DisplayInfo, infos: seq<LayerInfo>, ordered: seq<nat>, unsorted: seq<LayerInfo>,
                             marks: seq<Marked>, client: Range, usable: Slot -> bool, planes: seq<P>,
                             valid: (P, Slot) -> bool, kernel: seq<Joining<Slot, P>> -> int)
    requires |infos| == |marks| == |unsorted| <= INT_MAX && 0 < |planes| <= INT_MAX
    requires SortsByZ(ordered, unsorted) && forall i :: 0 <= i < |marks| ==> marks[i].zOrder == unsorted[i].zOrder
    requires Settled(display, infos, ordered, marks, client, usable, planes, valid, kernel)
    ensures Accepted(display, infos, ordered, marks, client, usable, planes, valid, kernel)
  {
    SortedForMarks(ordered, unsorted, marks);
    SettledIsValidated(display, infos, ordered, marks, client, usable, planes, valid, kernel);
  }

  lemma {:induction false} ConcludedIsPromised<P>(display: DisplayInfo, layers: seq<HwcLayer>, ordered: seq<nat>, flatten: bool, chosen: Range,
                               usable: Slot -> bool, planes: seq<P>, valid: (P, Slot) -> bool,
                               kernel: seq<Joining<Slot, P>> -> int)
    requires |layers| <= INT_MAX && 0 < |planes| <= INT_MAX && SortsByZ(ordered, Infos(layers))
    requires Concluded(display, layers, ordered, flatten, chosen, usable, planes, valid, kernel)
    ensures Promised(display, layers, ordered, flatten, chosen, usable, planes, valid, kernel)
  {
    var infos, unsorted, marks := Infos(Arrange(layers, ordered)), Infos(layers), Marks(layers);
    assert |infos| == |marks| == |unsorted|;
    assert forall i :: 0 <= i < |marks| ==> marks[i].zOrder == unsorted[i].zOrder;
    SettledWhenSorted(display, infos, ordered, unsorted, marks, chosen, usable, planes, valid, kernel);
  }

  /** Validation of a frame without decoration layers. */
  method ValidateSupported<P>(display: DisplayInfo, layers: seq<HwcLayer>, ordered: seq<nat>, flattening: ClientFlattening,
                              usable: Slot -> bool, planes: seq<P>, valid: (P, Slot) -> bool,
                              kernel: seq<Joining<Slot, P>> -> int)
    returns (chosen: Range)
    requires Distinct(layers) && |layers| <= INT_MAX && 0 < |planes| <= INT_MAX
    requires Positions(ordered, |layers|) && Complete(ordered, |layers|)
    modifies layers`validatedType, flattening
    ensures flattening.View() == Validate(old(flattening.View()), |layers| <= 1).0
    ensures Concluded(display, layers, ordered, Validate(old(flattening.View()), |layers| <= 1).1, chosen,
                      usable, planes, valid, kernel)
  {
    chosen := Range(0, |layers|);
    var flatten := flattening.ProcessClientFlatteningState(|layers| <= 1);
    if flatten {
      MarkRange(layers, ordered, chosen);
    } else {
      chosen := PlanAndTest(display, layers, ordered, usable, planes, valid, kernel);
    }
  }

  /** The same for layers sorted by z-order, with the promise on the marks. */
  method ValidateSorted<P>(display: DisplayInfo, layers: seq<HwcLayer>, ordered: seq<nat>, flattening: ClientFlattening,
                           usable: Slot -> bool, planes: seq<P>, valid: (P, Slot) -> bool,
                           kernel: seq<Joining<Slot, P>> -> int)
    returns (chosen: Range)
    requires Distinct(layers) && |layers| <= INT_MAX && 0 < |planes| <= INT_MAX
    requires SortsByZ(ordered, Infos(layers))
    modifies layers`validatedType, flattening
    ensures flattening.View() == Validate(old(flattening.View()), |layers| <= 1).0
    ensures Promised(display, layers, ordered, Validate(old(flattening.View()), |layers| <= 1).1, chosen,
                     usable, planes, valid, kernel)
  {
    ghost var infos, flatten := Infos(layers), Validate(flattening.View(), |layers| <= 1).1;
    chosen := ValidateSupported(display, layers, ordered, flattening, usable, planes, valid, kernel);
    assert Infos(layers) == infos;
    ConcludedIsPromised(display, layers, ordered, flatten, chosen, usable, planes, valid, kernel);
  }

  method ValidateDisplay<P>(display: DisplayInfo, layers: seq<HwcLayer>, ordered: seq<nat>, flattening: ClientFlattening,
                            usable: Slot -> bool, planes: seq<P>, valid: (P, Slot) -> bool,
                            kernel: seq<Joining<Slot, P>> -> int)
    returns (err: Error, numTypes: nat, ghost client: Range)
    requires Distinct(layers) && |layers| <= INT_MAX && 0 < |planes| <= INT_MAX
    requires SortsByZ(ordered, Infos(layers))
    modifies layers`validatedType, flattening
    ensures err == Unsupported <==> old(Decorated(Infos(Arrange(layers, ordered))))
    ensures err == Unsupported ==> unchanged(layers) && unchanged(flattening)
    ensures err != Unsupported ==>
              && flattening.View() == Validate(old(flattening.View()), |layers| <= 1).0
              && err == (if numTypes != 0 then HasChanges else NoError)
              && numTypes == client.size
              && Promised(display, layers, ordered, Validate(old(flattening.View()), |layers| <= 1).1, client,
                          usable, planes, valid, kernel)
  {
    ghost var infos := Infos(Arrange(layers, ordered));
    for p := 0 to |ordered|
      invariant forall k :: 0 <= k < p ==> infos[k].sfType != DisplayDecoration
    {
      if layers[ordered[p]].info.sfType == DisplayDecoration {
        assert infos[p].sfType == DisplayDecoration;
        return Unsupported, 0, Range(-1, 0);
      }
    }
    assert !Decorated(infos);
    var chosen := ValidateSorted(display, layers, ordered, flattening, usable, planes, valid, kernel);
    numTypes, client := chosen.size, chosen;
    err := if numTypes != 0 then HasChanges else NoError;
  }

  /** A validated marking that passed its test is shown by a plan with the whole picture. */
  lemma ValidatedShowsAllLayers<P>(display: DisplayInfo, infos: seq<LayerInfo>, ordered: seq<nat>, marks: seq<Marked>,
                                   client: Range, usable: Slot -> bool, planes: seq<P>, valid: (P, Slot) -> bool,
                                   kernel: seq<Joining<Slot, P>> -> int, sample: nat -> Pixel)
    returns (entries: seq<Entry>)
    requires Validated(display, infos, ordered, marks, client, usable, planes, valid, kernel)
    requires DistinctZ(marks) && Passes(marks, usable, planes, valid, kernel)
    ensures ListsMap(entries, ZMap(marks))
    ensures var plan := Outcome(entries, usable, planes, valid, kernel).1;
            && plan.Some? && kernel(plan.value) == 0
            && (forall i :: 0 <= i < |plan.value| ==> plan.value[i].zPos == i)
            && PlanPicture(plan.value, ClientImage(ordered, client, sample), sample) == Blend(Pixels(ordered, sample))
  {
    entries :| ListsMap(entries, ZMap(marks)) && Outcome(entries, usable, planes, valid, kernel).0 == NoError;
    PlanShowsAllLayers(ordered, marks, client, entries, planes, valid, sample);
  }

  /**
   A layer that validation leaves to a plane is of a type the hardware supports and has a
   buffer it can show, on a display without colour transform or forced GPU composition.
   */
  lemma DeviceLayersQualify<P>(display: DisplayInfo, infos: seq<LayerInfo>, ordered: seq<nat>, marks: seq<Marked>, client: Range,
                               usable: Slot -> bool, planes: seq<P>, valid: (P, Slot) -> bool,
                               kernel: seq<Joining<Slot, P>> -> int, p: nat)
    requires Validated(display, infos, ordered, marks, client, usable, planes, valid, kernel)
    requires p < |infos| && marks[ordered[p]].kind == Device
    ensures (infos[p].sfType == Device || infos[p].sfType == Cursor) && infos[p].usable
    ensures display.identityColorTransform && !display.ivshmDevice && !(infos[p].needsScaling && display.forcedScalingWithGpu)
  {
    assert client.size > 0 ==> MarkOf(client, p) == Device;
  }

  /** Where every layer qualifies, none is forced on the GPU. */
  lemma QualifyingNeverForced(display: DisplayInfo, infos: seq<LayerInfo>)
    requires display.identityColorTransform && !display.ivshmDevice
    requires forall p :: 0 <= p < |infos| ==>
               && (infos[p].sfType == Device || infos[p].sfType == Cursor) && infos[p].usable
               && !(infos[p].needsScaling && display.forcedScalingWithGpu)
    ensures Hull(MustBeClient(display, infos)) == Range(-1, 0)
  {
    HullIsTight(MustBeClient(display, infos));
  }

  /**
   For every layer list, equal z-orders included: when every plane can show every layer of
   the composition and the planner's range fits the planes, its marking has a plan.
   */
  lemma PlannedMarkingHasPlan<P>(display: DisplayInfo, infos: seq<LayerInfo>, ordered: seq<nat>, marks: seq<Marked>,
                                 entries: seq<Entry>, planes: seq<P>, valid: (P, Slot) -> bool)
    requires |infos| == |marks| <= INT_MAX && 0 < |planes| <= INT_MAX
    requires !PlannerSaturated(display, infos, |planes|) && PlannerFits(display, infos, |planes|)
    requires IsZOrder(ordered, marks)
    requires KindsFollow(ordered, marks, ClientRange(display, infos, |planes|))
    requires ListsMap(entries, ZMap(marks))
    requires forall p, slot :: p in planes && slot in Slots(entries) ==> valid(p, slot)
    ensures GreedyPlan(Slots(entries), 0, planes, 0, valid).Some?
  {
    var client := ClientRange(display, infos, |planes|);
    ClientRangeWellPlanned(display, infos, |planes|);
    KindsFollowRange(ordered, marks, client);
    WalkWithinBudget(ordered, marks, client, entries);
    GreedyUniform(Slots(entries), planes, valid);
    assert Slots(entries)[0..] == Slots(entries);
    GreedyPlanPositions(Slots(entries), 0, planes, 0, valid);
  }
}
