/**
 Greedy matching of composition layers to hardware planes (compositor/DrmKmsPlan.cpp).

 Layers arrive bottom to top and planes in the order the display pipeline lists
 them. Every layer takes the next plane that can show it, and planes passed over
 are gone for good. The reference notion is an order-preserving assignment: a
 strictly increasing sequence of plane positions, each valid for its layer.
 */
module KmsPlan {
  import opened Options

  datatype Joining<L, P> = Joining(layer: L, plane: P, zPos: nat)

  /** `f[i]` is the plane position given to layer `i`. */
  ghost predicate IsAssignment<L, P>(f: seq<nat>, composition: seq<L>, planes: seq<P>, valid: (P, L) -> bool)
  {
    && |f| == |composition|
    && (forall i :: 0 <= i < |f| ==> f[i] < |planes| && valid(planes[f[i]], composition[i]))
    && (forall i, j :: 0 <= i < j < |f| ==> f[i] < f[j])
  }

  /** The plan that gives layer `i` the plane at position `f[i]`. */
  function PlanOf<L, P>(f: seq<nat>, composition: seq<L>, planes: seq<P>): (plan: seq<Joining<L, P>>)
    requires |f| == |composition|
    requires forall i :: 0 <= i < |f| ==> f[i] < |planes|
  {
    seq(|f|, i requires 0 <= i < |f| => Joining(composition[i], planes[f[i]], i))
  }

  /** Position of the first plane from `from` on that can show `layer`, or `|planes|`. */
  function FirstValid<L, P>(layer: L, planes: seq<P>, from: nat, valid: (P, L) -> bool): (k: nat)
    requires from <= |planes|
    ensures from <= k <= |planes|
    ensures k < |planes| ==> valid(planes[k], layer)
    ensures forall j :: from <= j < k ==> !valid(planes[j], layer)
    decreases |planes| - from
  {
    if from == |planes| || valid(planes[from], layer) then from
    else FirstValid(layer, planes, from + 1, valid)
  }

  /** Plane positions chosen by the greedy rule when planes before `from` are used up. */
  function Greedy<L, P>(composition: seq<L>, planes: seq<P>, from: nat, valid: (P, L) -> bool): (r: Option<seq<nat>>)
    requires from <= |planes|
    ensures r.Some? ==> |r.value| == |composition| && forall i :: 0 <= i < |r.value| ==> from <= r.value[i] < |planes|
    decreases |composition|
  {
    if composition == [] then Some([])
    else
      var k := FirstValid(composition[0], planes, from, valid);
      if k == |planes| then None
      else
        match Greedy(composition[1..], planes, k + 1, valid)
        case None => None
        case Some(rest) => Some([k] + rest)
  }

  /** Soundness: what the greedy rule chooses is an order-preserving assignment. */
  lemma {:induction false} GreedyIsAssignment<L, P>(composition: seq<L>, planes: seq<P>, from: nat, valid: (P, L) -> bool)
    requires from <= |planes|
    ensures var r := Greedy(composition, planes, from, valid);
            r.Some? ==> IsAssignment(r.value, composition, planes, valid)
    decreases |composition|
  {
    if composition != [] {
      var k := FirstValid(composition[0], planes, from, valid);
      if k < |planes| {
        GreedyIsAssignment(composition[1..], planes, k + 1, valid);
        var rest := Greedy(composition[1..], planes, k + 1, valid);
        if rest.Some? {
          assert Greedy(composition, planes, from, valid) == Some([k] + rest.value);
          AssignmentCons(k, rest.value, composition, planes, valid);
        }
      }
    }
  }

  lemma AssignmentCons<L, P>(k: nat, rest: seq<nat>, composition: seq<L>, planes: seq<P>, valid: (P, L) -> bool)
    requires composition != [] && k < |planes| && valid(planes[k], composition[0])
    requires IsAssignment(rest, composition[1..], planes, valid)
    requires forall i :: 0 <= i < |rest| ==> k < rest[i]
    ensures IsAssignment([k] + rest, composition, planes, valid)
  {
  }

  /**
   The exchange argument: whenever any order-preserving assignment exists, the greedy
   rule finds one, and it is pointwise the least of all assignments.
   */
  lemma {:induction false} GreedyIsLeast<L, P>(composition: seq<L>, planes: seq<P>, from: nat, valid: (P, L) -> bool, f: seq<nat>)
    requires from <= |planes|
    requires IsAssignment(f, composition, planes, valid)
    requires forall i :: 0 <= i < |f| ==> from <= f[i]
    ensures Greedy(composition, planes, from, valid).Some?
    ensures forall i :: 0 <= i < |f| ==> Greedy(composition, planes, from, valid).value[i] <= f[i]
    decreases |composition|
  {
    if composition != [] {
      var k := FirstValid(composition[0], planes, from, valid);
      assert k <= f[0];
      GreedyIsLeast(composition[1..], planes, k + 1, valid, f[1..]);
    }
  }

  /** A plan exists for exactly those layer lists that admit an order-preserving assignment. */
  lemma GreedyComplete<L, P>(composition: seq<L>, planes: seq<P>, valid: (P, L) -> bool)
    ensures Greedy(composition, planes, 0, valid).Some?
       <==> exists f :: IsAssignment(f, composition, planes, valid)
  {
    GreedyIsAssignment(composition, planes, 0, valid);
    if f :| IsAssignment(f, composition, planes, valid) {
      GreedyIsLeast(composition, planes, 0, valid, f);
    }
  }

  /** If every plane can show every layer, a plan exists exactly when the planes suffice. */
  lemma {:induction false} GreedyUniform<L, P>(composition: seq<L>, planes: seq<P>, valid: (P, L) -> bool)
    requires forall p, l :: p in planes && l in composition ==> valid(p, l)
    ensures Greedy(composition, planes, 0, valid).Some? <==> |composition| <= |planes|
  {
    if |composition| <= |planes| {
      var f := seq(|composition|, i requires 0 <= i < |composition| => i);
      assert IsAssignment(f, composition, planes, valid);
      GreedyComplete(composition, planes, valid);
    } else if Greedy(composition, planes, 0, valid).Some? {
      GreedyIsAssignment(composition, planes, 0, valid);
      IncreasingGrows(Greedy(composition, planes, 0, valid).value, |composition| - 1);
    }
  }

  /** A strictly increasing sequence of positions climbs at least one per step. */
  lemma {:induction false} IncreasingGrows(f: seq<nat>, i: nat)
    requires i < |f|
    requires forall a, b :: 0 <= a < b < |f| ==> f[a] < f[b]
    ensures i <= f[i]
  {
    if i > 0 {
      IncreasingGrows(f, i - 1);
      assert f[i - 1] < f[i];
    }
  }

  /** The plan for the layers from `z` on when planes before `from` are used up. */
  function GreedyPlan<L, P>(composition: seq<L>, z: nat, planes: seq<P>, from: nat, valid: (P, L) -> bool)
    : (plan: Option<seq<Joining<L, P>>>)
    requires z <= |composition| && from <= |planes|
    decreases |composition| - z
  {
    if z == |composition| then Some([])
    else
      var k := FirstValid(composition[z], planes, from, valid);
      if k == |planes| then None
      else Prepend([Joining(composition[z], planes[k], z)], GreedyPlan(composition, z + 1, planes, k + 1, valid))
  }

  function Prepend<T>(front: seq<T>, rest: Option<seq<T>>): (r: Option<seq<T>>) {
    if rest.Some? then Some(front + rest.value) else None
  }

  lemma PrependTwice<T>(a: seq<T>, b: seq<T>, rest: Option<seq<T>>)
    ensures Prepend(a, Prepend(b, rest)) == Prepend(a + b, rest)
  {
    if rest.Some? {
      assert a + (b + rest.value) == (a + b) + rest.value;
    }
  }

  /** The plan follows the greedy plane positions. */
  lemma {:induction false} GreedyPlanPositions<L, P>(composition: seq<L>, z: nat, planes: seq<P>, from: nat, valid: (P, L) -> bool)
    requires z <= |composition| && from <= |planes|
    ensures var plan := GreedyPlan(composition, z, planes, from, valid);
            var f := Greedy(composition[z..], planes, from, valid);
            && plan.Some? == f.Some?
            && (plan.Some? ==> && |plan.value| == |composition| - z
                               && forall i :: 0 <= i < |plan.value| ==>
                                    plan.value[i] == Joining(composition[z + i], planes[f.value[i]], z + i))
    decreases |composition| - z
  {
    if z < |composition| {
      var k := FirstValid(composition[z], planes, from, valid);
      assert composition[z..][0] == composition[z] && composition[z..][1..] == composition[z + 1..];
      if k < |planes| {
        GreedyPlanPositions(composition, z + 1, planes, k + 1, valid);
        var rest := GreedyPlan(composition, z + 1, planes, k + 1, valid);
        assert rest.Some? ==> GreedyPlan(composition, z, planes, from, valid).value == [Joining(composition[z], planes[k], z)] + rest.value;
      }
    }
  }

  /** A plan joins the layers one by one and numbers them in order. */
  lemma {:induction false} GreedyPlanJoins<L, P>(composition: seq<L>, z: nat, planes: seq<P>, from: nat, valid: (P, L) -> bool)
    requires z <= |composition| && from <= |planes|
    ensures var plan := GreedyPlan(composition, z, planes, from, valid);
            plan.Some? ==> && |plan.value| == |composition| - z
                           && forall i :: 0 <= i < |plan.value| ==>
                                plan.value[i].layer == composition[z + i] && plan.value[i].zPos == z + i
    decreases |composition| - z
  {
    if z < |composition| {
      var k := FirstValid(composition[z], planes, from, valid);
      if k < |planes| {
        GreedyPlanJoins(composition, z + 1, planes, k + 1, valid);
      }
    }
  }

  /** Whatever the planes can show, a plan has no more layers than there are planes. */
  lemma PlanNeedsPlanes<L, P>(composition: seq<L>, planes: seq<P>, valid: (P, L) -> bool)
    requires |composition| > |planes|
    ensures GreedyPlan(composition, 0, planes, 0, valid).None?
  {
    assert composition[0..] == composition;
    GreedyPlanPositions(composition, 0, planes, 0, valid);
    GreedyIsAssignment(composition, planes, 0, valid);
    var f := Greedy(composition, planes, 0, valid);
    if f.Some? {
      IncreasingGrows(f.value, |composition| - 1);
    }
  }

  /**
   A plan is returned iff some order-preserving assignment of layers to valid planes
   exists. The returned plan holds the layers in order, numbered from zero, on
   strictly ascending plane positions.
   */
  lemma GreedyPlanCorrect<L, P>(composition: seq<L>, planes: seq<P>, valid: (P, L) -> bool)
    ensures var plan := GreedyPlan(composition, 0, planes, 0, valid);
            && (plan.Some? <==> exists f :: IsAssignment(f, composition, planes, valid))
            && (plan.Some? ==> exists f :: IsAssignment(f, composition, planes, valid)
                                           && plan.value == PlanOf(f, composition, planes))
  {
    GreedyComplete(composition, planes, valid);
    GreedyIsAssignment(composition, planes, 0, valid);
    assert composition[0..] == composition;
    GreedyPlanPositions(composition, 0, planes, 0, valid);
    var f := Greedy(composition, planes, 0, valid);
    if f.Some? {
      assert GreedyPlan(composition, 0, planes, 0, valid).value == PlanOf(f.value, composition, planes);
    }
  }

  /** The do-while loop: pop planes off the front until one can show `layer`. */
  method PopValidPlane<L, P>(layer: L, planes: seq<P>, ghost from: nat, availPlanes: seq<P>, valid: (P, L) -> bool)
    returns (plane: Option<P>, remaining: seq<P>)
    requires from <= |planes| && availPlanes == planes[from..]
    ensures var k := FirstValid(layer, planes, from, valid);
            if k == |planes| then plane == None
            else plane == Some(planes[k]) && remaining == planes[k + 1..]
  {
    remaining := availPlanes;
    ghost var k := from;
    while true
      invariant from <= k <= |planes| && remaining == planes[k..]
      invariant FirstValid(layer, planes, from, valid) == FirstValid(layer, planes, k, valid)
      decreases |remaining|
    {
      if remaining == [] {
        return None, [];
      }
      var candidate := remaining[0];
      remaining := remaining[1..];
      if valid(candidate, layer) {
        return Some(candidate), remaining;
      }
      k := k + 1;
    }
  }

  /**
   The plan builder: every layer in turn takes the next plane that fits, and the
   joins are numbered from zero.
   */
  method CreateDrmKmsPlan<L, P>(usablePlanes: seq<P>, composition: seq<L>, valid: (P, L) -> bool)
    returns (plan: Option<seq<Joining<L, P>>>)
    ensures plan == GreedyPlan(composition, 0, usablePlanes, 0, valid)
  {
    var availPlanes := usablePlanes;
    var joinings: seq<Joining<L, P>> := [];
    ghost var from: nat := 0;
    ghost var all := GreedyPlan(composition, 0, usablePlanes, 0, valid);
    assert all.Some? ==> [] + all.value == all.value;

    for zPos := 0 to |composition|
      invariant from <= |usablePlanes| && availPlanes == usablePlanes[from..]
      invariant all == Prepend(joinings, GreedyPlan(composition, zPos, usablePlanes, from, valid))
    {
      var plane, remaining := PopValidPlane(composition[zPos], usablePlanes, from, availPlanes, valid);
      if plane.None? {
        return None;
      }
      var joining := [Joining(composition[zPos], plane.value, zPos)];
      from, availPlanes := FirstValid(composition[zPos], usablePlanes, from, valid) + 1, remaining;
      PrependTwice(joinings, joining, GreedyPlan(composition, zPos + 1, usablePlanes, from, valid));
      joinings := joinings + joining;
    }
    assert joinings + [] == joinings;
    plan := Some(joinings);
  }
}
