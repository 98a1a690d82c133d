/**
 From validated layers to a painted plan (hwc2_device/HwcDisplay.cpp, CreateComposition).

 `layers` is listed in handle order, the order in which the display's map of layers is
 walked. Device layers enter a z-map under their own z-order, and the client target
 enters it under the lowest z-order of the client layers.
 */
module Composition {
  import opened Options
  import opened Sequences
  import opened Layers
  import opened Planner
  import opened VideoPlanner
  import opened KmsPlan
  import opened Blending

  datatype Marked = Marked(zOrder: nat, kind: CompositionType)

  /** What a plane shows: the layer at a handle position, or the GPU's output. */
  datatype Slot = LayerSlot(index: nat) | ClientTarget

  datatype Entry = Entry(z: nat, slot: Slot)

  function Marks(layers: seq<HwcLayer>): (r: seq<Marked>)
    reads layers
    ensures |r| == |layers|
    ensures forall i :: 0 <= i < |r| ==> r[i] == Marked(layers[i].info.zOrder, layers[i].validatedType)
  {
    if layers == [] then []
    else
      var last := |layers| - 1;
      Marks(layers[..last]) + [Marked(layers[last].info.zOrder, layers[last].validatedType)]
  }

  // ------------------------------------------------------------------- z-map

  /** Device layers by z-order; a later layer never displaces an earlier one. */
  function DeviceMap(marks: seq<Marked>): (m: map<nat, Slot>) {
    if marks == [] then map[]
    else
      var last := |marks| - 1;
      var m := DeviceMap(marks[..last]);
      if marks[last].kind == Device && marks[last].zOrder !in m
      then m[marks[last].zOrder := LayerSlot(last)]
      else m
  }

  /** Lowest z-order among the client layers. */
  function ClientZ(marks: seq<Marked>): (z: Option<nat>) {
    if marks == [] then None
    else
      var last := |marks| - 1;
      var z := ClientZ(marks[..last]);
      if marks[last].kind != Client then z
      else if z.Some? && z.value <= marks[last].zOrder then z
      else Some(marks[last].zOrder)
  }

  function ZMap(marks: seq<Marked>): (m: map<nat, Slot>) {
    var m, z := DeviceMap(marks), ClientZ(marks);
    if z.Some? && z.value !in m then m[z.value := ClientTarget] else m
  }

  method BuildZMap(layers: seq<HwcLayer>) returns (zMap: map<nat, Slot>)
    ensures zMap == ZMap(Marks(layers))
  {
    ghost var marks := Marks(layers);
    zMap := map[];
    var useClientLayer, clientZOrder := false, UINT32_MAX;
    for i := 0 to |layers|
      invariant zMap == DeviceMap(marks[..i])
      invariant ClientZ(marks[..i]) == if useClientLayer then Some(clientZOrder) else None
      invariant clientZOrder >= 0
    {
      assert marks[..i + 1][..i] == marks[..i];
      var z := layers[i].info.zOrder;
      match layers[i].validatedType {
        case Device =>
          if z !in zMap {
            zMap := zMap[z := LayerSlot(i)];
          }
        case Client =>
          clientZOrder := if !useClientLayer || z < clientZOrder then z else clientZOrder;
          useClientLayer := true;
        case _ =>
      }
    }
    assert marks[..|layers|] == marks;
    if useClientLayer && clientZOrder !in zMap {
      zMap := zMap[clientZOrder := ClientTarget];
    }
  }

  // --------------------------------------------------------- walking the z-map

  ghost predicate Ascending(entries: seq<Entry>) {
    forall i, j :: 0 <= i < j < |entries| ==> entries[i].z < entries[j].z
  }

  /** `entries` lists the map in ascending key order. */
  ghost predicate ListsMap(entries: seq<Entry>, m: map<nat, Slot>) {
    && Ascending(entries)
    && (forall e :: e in entries <==> e.z in m && m[e.z] == e.slot)
  }

  lemma {:induction false} LeastKey(keys: set<nat>) returns (k: nat)
    requires keys != {}
    ensures k in keys && forall j :: j in keys ==> k <= j
  {
    k :| k in keys;
    var others := keys - {k};
    if others != {} {
      var least := LeastKey(others);
      assert forall j :: j in keys ==> j == k || j in others;
      k := if least < k then least else k;
    } else {
      assert keys == {k};
    }
  }

  /** `entries` lists the part of the map below the keys in `rest`. */
  ghost predicate Walked(entries: seq<Entry>, m: map<nat, Slot>, rest: set<nat>) {
    && rest <= m.Keys
    && Ascending(entries)
    && (forall e, k :: e in entries && k in rest ==> e.z < k)
    && (forall e :: e in entries <==> e.z in m && e.z !in rest && m[e.z] == e.slot)
  }

  lemma WalkStep(entries: seq<Entry>, m: map<nat, Slot>, rest: set<nat>, k: nat)
    requires Walked(entries, m, rest)
    requires k in rest && forall j :: j in rest ==> k <= j
    ensures Walked(entries + [Entry(k, m[k])], m, rest - {k})
  {
  }

  method WalkMap(m: map<nat, Slot>) returns (entries: seq<Entry>)
    ensures ListsMap(entries, m)
  {
    entries := [];
    var rest := m.Keys;
    while rest != {}
      invariant Walked(entries, m, rest)
      decreases |rest|
    {
      ghost var least := LeastKey(rest);
      var k :| k in rest && forall j :: j in rest ==> k <= j;
      WalkStep(entries, m, rest, k);
      entries := entries + [Entry(k, m[k])];
      rest := rest - {k};
    }
  }

  /** Ascending lists with the same entries are equal, so the walk has one result. */
  lemma {:induction false} AscendingUnique(a: seq<Entry>, b: seq<Entry>)
    requires Ascending(a) && Ascending(b)
    requires forall e :: e in a <==> e in b
    ensures a == b
  {
    assert (b != [] ==> b[0] in a) && (a != [] ==> a[0] in b);
    if a != [] {
      assert a[0] == b[0];
      forall e
        ensures e in a[1..] <==> e in b[1..]
      {
        InTail(a, e);
        InTail(b, e);
      }
      AscendingUnique(a[1..], b[1..]);
      assert a == [a[0]] + a[1..] && b == [b[0]] + b[1..];
    }
  }

  lemma InTail(a: seq<Entry>, e: Entry)
    requires a != [] && Ascending(a)
    ensures e in a[1..] <==> e in a && e != a[0]
  {
  }

  // ------------------------------------------------- the z-map collapses the run

  ghost predicate DistinctZ(marks: seq<Marked>) {
    forall i, j :: 0 <= i < j < |marks| ==> marks[i].zOrder != marks[j].zOrder
  }

  /** No two device layers share a z-order. */
  ghost predicate DistinctDeviceZ(marks: seq<Marked>) {
    forall i, j :: 0 <= i < j < |marks| && marks[i].kind == marks[j].kind == Device ==>
      marks[i].zOrder != marks[j].zOrder
  }

  /** The contract of sorting the layers by z-order: a permutation of them, bottom to top. */
  ghost predicate IsZOrder(ordered: seq<nat>, marks: seq<Marked>) {
    && |ordered| == |marks|
    && Distinct(ordered)
    && (forall p :: 0 <= p < |ordered| ==> ordered[p] < |marks|)
    && (forall i :: 0 <= i < |marks| ==> i in ordered)
    && (forall p, q :: 0 <= p < q < |ordered| ==> marks[ordered[p]].zOrder <= marks[ordered[q]].zOrder)
  }

  /** The layers carry exactly the types a client range gives them. */
  ghost predicate FollowsRange(ordered: seq<nat>, marks: seq<Marked>, client: Range) {
    && IsZOrder(ordered, marks)
    && (client.size > 0 ==> 0 <= client.start && client.start + client.size <= |marks|)
    && (forall p :: 0 <= p < |ordered| ==> marks[ordered[p]].kind == if client.size > 0 then MarkOf(client, p) else Device)
  }

  lemma {:induction false} DeviceMapEntries(marks: seq<Marked>)
    ensures DistinctDeviceZ(marks) ==>
              forall i :: 0 <= i < |marks| && marks[i].kind == Device ==>
                marks[i].zOrder in DeviceMap(marks) && DeviceMap(marks)[marks[i].zOrder] == LayerSlot(i)
    ensures forall z :: z in DeviceMap(marks) ==>
              var slot := DeviceMap(marks)[z];
              slot.LayerSlot? && slot.index < |marks| && marks[slot.index] == Marked(z, Device)
  {
    if marks != [] {
      DeviceMapEntries(marks[..|marks| - 1]);
    }
  }

  lemma {:induction false} ClientZIsLowest(marks: seq<Marked>)
    ensures ClientZ(marks).None? ==> forall i :: 0 <= i < |marks| ==> marks[i].kind != Client
    ensures ClientZ(marks).Some? ==>
              && (exists i :: 0 <= i < |marks| && marks[i] == Marked(ClientZ(marks).value, Client))
              && (forall i :: 0 <= i < |marks| && marks[i].kind == Client ==> ClientZ(marks).value <= marks[i].zOrder)
  {
    if marks != [] {
      var last := |marks| - 1;
      ClientZIsLowest(marks[..last]);
      var z := ClientZ(marks[..last]);
      if z.Some? {
        var i :| 0 <= i < last && marks[..last][i] == Marked(z.value, Client);
        assert marks[i] == Marked(z.value, Client);
      }
      assert marks[last] == Marked(marks[last].zOrder, marks[last].kind);
    }
  }

  function LayerEntries(ids: seq<nat>, marks: seq<Marked>): (r: seq<Entry>)
    requires forall p :: 0 <= p < |ids| ==> ids[p] < |marks|
    ensures |r| == |ids|
    ensures forall p :: 0 <= p < |ids| ==> r[p] == Entry(marks[ids[p]].zOrder, LayerSlot(ids[p]))
  {
    seq(|ids|, p requires 0 <= p < |ids| => Entry(marks[ids[p]].zOrder, LayerSlot(ids[p])))
  }

  /** The z-sorted layers with the client run replaced, at its place, by the client target. */
  function Collapsed(ordered: seq<nat>, marks: seq<Marked>, client: Range): (r: seq<Entry>)
    requires forall p :: 0 <= p < |ordered| ==> ordered[p] < |marks|
    requires client.size > 0 ==> 0 <= client.start && client.start + client.size <= |ordered|
  {
    if client.size == 0 then LayerEntries(ordered, marks)
    else LayerEntries(ordered[..client.start], marks)
         + [Entry(marks[ordered[client.start]].zOrder, ClientTarget)]
         + LayerEntries(ordered[client.start + client.size..], marks)
  }

  /** Position by position: which layer of the z-order stands where in the collapsed list. */
  lemma CollapsedAt(ordered: seq<nat>, marks: seq<Marked>, client: Range, p: nat)
    requires FollowsRange(ordered, marks, client) && p < |ordered|
    ensures var r := Collapsed(ordered, marks, client);
            var e := Entry(marks[ordered[p]].zOrder, LayerSlot(ordered[p]));
            && |r| == |ordered| - client.size + (if client.size > 0 then 1 else 0)
            && (client.size == 0 || p < client.start ==> r[p] == e)
            && (client.size > 0 && p == client.start ==> r[p] == Entry(e.z, ClientTarget))
            && (client.size > 0 && p >= client.start + client.size ==> r[p - client.size + 1] == e)
  {
  }

  /** The z-position from which the `i`-th collapsed entry comes. */
  function SourceOf(client: Range, i: nat): nat
  {
    if client.size == 0 || i <= client.start then i else i + client.size - 1
  }

  /** Which entry that is, for any list of layers and any range within it. */
  lemma CollapsedSource(ordered: seq<nat>, marks: seq<Marked>, client: Range, i: nat)
    requires forall p :: 0 <= p < |ordered| ==> ordered[p] < |marks|
    requires client.size > 0 ==> 0 <= client.start && client.start + client.size <= |ordered|
    requires i < |Collapsed(ordered, marks, client)|
    ensures var p := SourceOf(client, i);
            && p < |ordered|
            && Collapsed(ordered, marks, client)[i] ==
               Entry(marks[ordered[p]].zOrder,
                     if client.size > 0 && i == client.start then ClientTarget else LayerSlot(ordered[p]))
  {
  }

  lemma CollapsedFrom(ordered: seq<nat>, marks: seq<Marked>, client: Range, i: nat)
    requires FollowsRange(ordered, marks, client) && i < |Collapsed(ordered, marks, client)|
    ensures var p := SourceOf(client, i);
            && p < |ordered|
            && Collapsed(ordered, marks, client)[i] ==
               Entry(marks[ordered[p]].zOrder,
                     if client.size > 0 && i == client.start then ClientTarget else LayerSlot(ordered[p]))
            && (marks[ordered[p]].kind == Client <==> client.size > 0 && i == client.start)
  {
    CollapsedSource(ordered, marks, client, i);
  }

  lemma StrictZ(ordered: seq<nat>, marks: seq<Marked>, p: nat, q: nat)
    requires IsZOrder(ordered, marks) && DistinctZ(marks) && p < q < |ordered|
    ensures marks[ordered[p]].zOrder < marks[ordered[q]].zOrder
  {
  }

  lemma CollapsedAscending(ordered: seq<nat>, marks: seq<Marked>, client: Range)
    requires FollowsRange(ordered, marks, client) && DistinctZ(marks)
    ensures Ascending(Collapsed(ordered, marks, client))
  {
    var r := Collapsed(ordered, marks, client);
    forall i, j | 0 <= i < j < |r|
      ensures r[i].z < r[j].z
    {
      CollapsedFrom(ordered, marks, client, i);
      CollapsedFrom(ordered, marks, client, j);
      StrictZ(ordered, marks, SourceOf(client, i), SourceOf(client, j));
    }
  }

  /** The client target's z-order is that of the lowest layer of the run. */
  lemma ClientZOfRange(ordered: seq<nat>, marks: seq<Marked>, client: Range)
    requires FollowsRange(ordered, marks, client)
    ensures ClientZ(marks) == if client.size == 0 then None else Some(marks[ordered[client.start]].zOrder)
  {
    ClientZIsLowest(marks);
    forall i | 0 <= i < |marks|
      ensures client.size == 0 ==> marks[i].kind == Device
    {
      assert i in ordered;
    }
    if client.size > 0 {
      var low := ordered[client.start];
      assert marks[low].kind == Client;
      var i :| 0 <= i < |marks| && marks[i] == Marked(ClientZ(marks).value, Client);
      assert i in ordered;
      var p :| 0 <= p < |ordered| && ordered[p] == i;
      assert client.start <= p;
    }
  }

  /** Every listed entry is in the z-map, and the other way round. */
  lemma CollapsedEntries(ordered: seq<nat>, marks: seq<Marked>, client: Range, e: Entry)
    requires FollowsRange(ordered, marks, client) && DistinctZ(marks)
    ensures e in Collapsed(ordered, marks, client) <==> e.z in ZMap(marks) && ZMap(marks)[e.z] == e.slot
  {
    var r, m := Collapsed(ordered, marks, client), ZMap(marks);
    DeviceMapEntries(marks);
    ClientZOfRange(ordered, marks, client);
    if e in r {
      var i :| 0 <= i < |r| && r[i] == e;
      CollapsedFrom(ordered, marks, client, i);
      ClientZFree(ordered, marks, client);
    } else if e.z in m && m[e.z] == e.slot {
      ZMapListed(ordered, marks, client, e);
    }
  }

  /** No device layer has the z-order under which the client target is entered. */
  lemma ClientZFree(ordered: seq<nat>, marks: seq<Marked>, client: Range)
    requires FollowsRange(ordered, marks, client) && DistinctZ(marks)
    ensures client.size > 0 ==> marks[ordered[client.start]].zOrder !in DeviceMap(marks)
  {
    DeviceMapEntries(marks);
    if client.size > 0 {
      assert marks[ordered[client.start]].kind == Client;
    }
  }

  lemma ZMapListed(ordered: seq<nat>, marks: seq<Marked>, client: Range, e: Entry)
    requires FollowsRange(ordered, marks, client) && DistinctZ(marks)
    requires e.z in ZMap(marks) && ZMap(marks)[e.z] == e.slot
    ensures e in Collapsed(ordered, marks, client)
  {
    var r := Collapsed(ordered, marks, client);
    DeviceMapEntries(marks);
    ClientZOfRange(ordered, marks, client);
    if e.slot.ClientTarget? {
      CollapsedAt(ordered, marks, client, client.start);
      assert r[client.start] == e;
    } else {
      var i := e.slot.index;
      assert marks[i] == Marked(e.z, Device) && i in ordered;
      var p :| 0 <= p < |ordered| && ordered[p] == i;
      CollapsedAt(ordered, marks, client, p);
      assert client.size == 0 || p < client.start || p >= client.start + client.size;
      assert e in r;
    }
  }

  /**
   Walking the z-map in key order yields the z-sorted layers with the client run
   replaced by the client target, for every marking by a range.
   */
  lemma WalkCollapsesRun(ordered: seq<nat>, marks: seq<Marked>, client: Range, entries: seq<Entry>)
    requires FollowsRange(ordered, marks, client) && DistinctZ(marks)
    requires ListsMap(entries, ZMap(marks))
    ensures entries == Collapsed(ordered, marks, client)
  {
    var r := Collapsed(ordered, marks, client);
    CollapsedAscending(ordered, marks, client);
    forall e
      ensures e in entries <==> e in r
    {
      CollapsedEntries(ordered, marks, client, e);
    }
    AscendingUnique(entries, r);
  }

  // ------------------------------------------------- size of the list, for any z-orders

  function DevicePositions(marks: seq<Marked>): (r: set<nat>) {
    set i: nat | i < |marks| && marks[i].kind == Device
  }

  lemma DevicePositionsStep(marks: seq<Marked>)
    requires marks != []
    ensures var last := |marks| - 1;
            |DevicePositions(marks)| == |DevicePositions(marks[..last])| + if marks[last].kind == Device then 1 else 0
  {
    var last := |marks| - 1;
    var before := DevicePositions(marks[..last]);
    assert last !in before;
    assert DevicePositions(marks) == if marks[last].kind == Device then before + {last} else before;
  }

  lemma {:induction false} DeviceMapSize(marks: seq<Marked>)
    ensures |DeviceMap(marks)| <= |DevicePositions(marks)|
  {
    if marks != [] {
      DeviceMapSize(marks[..|marks| - 1]);
      DevicePositionsStep(marks);
    }
  }

  lemma SubsetSize(a: set<nat>, b: set<nat>)
    requires a <= b
    ensures |a| <= |b|
  {
    assert b == a + (b - a);
  }

  /** The layers below and above the run. */
  function Outside(ordered: seq<nat>, client: Range): (r: seq<nat>)
    requires client.size > 0 ==> 0 <= client.start && client.start + client.size <= |ordered|
    ensures |r| == |ordered| - client.size
  {
    if client.size == 0 then ordered else ordered[..client.start] + ordered[client.start + client.size..]
  }

  /** Device layers are those outside the run. */
  lemma DeviceOutside(ordered: seq<nat>, marks: seq<Marked>, client: Range, i: nat)
    requires FollowsRange(ordered, marks, client)
    requires i < |marks| && marks[i].kind == Device
    ensures i in Outside(ordered, client)
  {
    assert i in ordered;
    var p :| 0 <= p < |ordered| && ordered[p] == i;
    var r := Outside(ordered, client);
    if client.size > 0 {
      assert p < client.start || p >= client.start + client.size;
      assert r[if p < client.start then p else p - client.size] == i;
    }
  }

  lemma DeviceCount(ordered: seq<nat>, marks: seq<Marked>, client: Range)
    requires FollowsRange(ordered, marks, client)
    ensures |DevicePositions(marks)| <= |marks| - client.size
  {
    forall i | i in DevicePositions(marks)
      ensures i in Elements(Outside(ordered, client))
    {
      DeviceOutside(ordered, marks, client, i);
    }
    SubsetSize(DevicePositions(marks), Elements(Outside(ordered, client)));
    ElementsSize(Outside(ordered, client));
  }

  lemma {:induction false} AscendingLength(entries: seq<Entry>, keys: set<nat>)
    requires Ascending(entries) && forall e :: e in entries ==> e.z in keys
    ensures |entries| <= |keys|
  {
    if entries != [] {
      var init, last := entries[..|entries| - 1], entries[|entries| - 1];
      forall e | e in init
        ensures e.z in keys - {last.z}
      {
        assert e in entries;
      }
      AscendingLength(init, keys - {last.z});
    }
  }

  /** Whatever the z-orders, a marking by a range never needs more planes than budgeted. */
  lemma WalkWithinBudget(ordered: seq<nat>, marks: seq<Marked>, client: Range, entries: seq<Entry>)
    requires FollowsRange(ordered, marks, client) && ListsMap(entries, ZMap(marks))
    ensures |entries| <= PlanesNeeded(|marks|, client)
  {
    AscendingLength(entries, ZMap(marks).Keys);
    ClientZOfRange(ordered, marks, client);
    DeviceMapSize(marks);
    DeviceCount(ordered, marks, client);
  }

  // ----------------------------------------------------------------- painting

  /** The pixels of the layers at a screen position, in the given order. */
  function Pixels(ids: seq<nat>, sample: nat -> Pixel): (r: seq<Pixel>)
    ensures |r| == |ids| && forall p :: 0 <= p < |ids| ==> r[p] == sample(ids[p])
  {
    seq(|ids|, p requires 0 <= p < |ids| => sample(ids[p]))
  }

  /** What the GPU renders: the client layers blended in z-order. */
  function ClientImage(ordered: seq<nat>, client: Range, sample: nat -> Pixel): Pixel
    requires client.size > 0 ==> 0 <= client.start && client.start + client.size <= |ordered|
  {
    if client.size == 0 then CLEAR
    else Blend(Pixels(ordered[client.start..client.start + client.size], sample))
  }

  function SlotPixel(slot: Slot, target: Pixel, sample: nat -> Pixel): Pixel {
    match slot
    case LayerSlot(i) => sample(i)
    case ClientTarget => target
  }

  /** The pixels of a list of entries. */
  function EntryPixels(entries: seq<Entry>, target: Pixel, sample: nat -> Pixel): (r: seq<Pixel>)
    ensures |r| == |entries| && forall p :: 0 <= p < |r| ==> r[p] == SlotPixel(entries[p].slot, target, sample)
  {
    seq(|entries|, p requires 0 <= p < |entries| => SlotPixel(entries[p].slot, target, sample))
  }

  lemma LayerEntryPixels(ids: seq<nat>, marks: seq<Marked>, target: Pixel, sample: nat -> Pixel)
    requires forall p :: 0 <= p < |ids| ==> ids[p] < |marks|
    ensures EntryPixels(LayerEntries(ids, marks), target, sample) == Pixels(ids, sample)
  {
  }

  lemma PixelsSplit(ids: seq<nat>, s: nat, e: nat, sample: nat -> Pixel)
    requires s <= e <= |ids|
    ensures Pixels(ids, sample) == Pixels(ids[..s], sample) + Pixels(ids[s..e], sample) + Pixels(ids[e..], sample)
  {
  }

  /** The collapsed list, pixel by pixel. */
  lemma CollapsedPixels(ordered: seq<nat>, marks: seq<Marked>, client: Range, target: Pixel, sample: nat -> Pixel)
    requires forall p :: 0 <= p < |ordered| ==> ordered[p] < |marks|
    requires client.size > 0 && 0 <= client.start && client.start + client.size <= |ordered|
    ensures EntryPixels(Collapsed(ordered, marks, client), target, sample)
         == Pixels(ordered[..client.start], sample) + [target] + Pixels(ordered[client.start + client.size..], sample)
  {
  }

  /** Collapsing the client run keeps the picture. */
  lemma CollapsedPicture(ordered: seq<nat>, marks: seq<Marked>, client: Range, sample: nat -> Pixel)
    requires forall p :: 0 <= p < |ordered| ==> ordered[p] < |marks|
    requires client.size > 0 ==> 0 <= client.start && client.start + client.size <= |ordered|
    ensures Blend(EntryPixels(Collapsed(ordered, marks, client), ClientImage(ordered, client, sample), sample))
         == Blend(Pixels(ordered, sample))
  {
    var target := ClientImage(ordered, client, sample);
    if client.size == 0 {
      LayerEntryPixels(ordered, marks, target, sample);
    } else {
      var s, e := client.start, client.start + client.size;
      var lower, run, upper := Pixels(ordered[..s], sample), Pixels(ordered[s..e], sample), Pixels(ordered[e..], sample);
      calc {
        Blend(EntryPixels(Collapsed(ordered, marks, client), target, sample));
        { CollapsedPixels(ordered, marks, client, target, sample); }
        Blend(lower + [target] + upper);
        { BlendFlattened(lower, run, upper); }
        Blend(lower + run + upper);
        { PixelsSplit(ordered, s, e, sample); }
        Blend(Pixels(ordered, sample));
      }
    }
  }

  function Slots(entries: seq<Entry>): (r: seq<Slot>)
    ensures |r| == |entries| && forall p :: 0 <= p < |r| ==> r[p] == entries[p].slot
  {
    seq(|entries|, p requires 0 <= p < |entries| => entries[p].slot)
  }

  /** What the display shows: planes stacked by the z-position each join was given. */
  function PlanPicture<P>(plan: seq<Joining<Slot, P>>, target: Pixel, sample: nat -> Pixel): Pixel
    requires forall i :: 0 <= i < |plan| ==> plan[i].zPos == i
  {
    Blend(seq(|plan|, i requires 0 <= i < |plan| => SlotPixel(plan[i].layer, target, sample)))
  }

  lemma PlanPicturePixels<P>(plan: seq<Joining<Slot, P>>, entries: seq<Entry>, target: Pixel, sample: nat -> Pixel)
    requires |plan| == |entries|
    requires forall i :: 0 <= i < |plan| ==> plan[i].zPos == i && plan[i].layer == entries[i].slot
    ensures PlanPicture(plan, target, sample) == Blend(EntryPixels(entries, target, sample))
  {
    assert seq(|plan|, i requires 0 <= i < |plan| => SlotPixel(plan[i].layer, target, sample))
        == EntryPixels(entries, target, sample);
  }

  /** The plan joins the entries one by one. */
  lemma PlanJoinsEntries<P>(entries: seq<Entry>, planes: seq<P>, valid: (P, Slot) -> bool)
    requires GreedyPlan(Slots(entries), 0, planes, 0, valid).Some?
    ensures var plan := GreedyPlan(Slots(entries), 0, planes, 0, valid).value;
            && |plan| == |entries|
            && forall i :: 0 <= i < |plan| ==> plan[i].zPos == i && plan[i].layer == entries[i].slot
  {
    var slots := Slots(entries);
    GreedyPlanJoins(slots, 0, planes, 0, valid);
    var plan := GreedyPlan(slots, 0, planes, 0, valid).value;
    forall i | 0 <= i < |plan|
      ensures plan[i].zPos == i && plan[i].layer == entries[i].slot
    {
      assert plan[i].layer == slots[0 + i];
    }
  }

  lemma CollapsedLength(ordered: seq<nat>, marks: seq<Marked>, client: Range)
    requires FollowsRange(ordered, marks, client)
    ensures |Collapsed(ordered, marks, client)| == PlanesNeeded(|marks|, client)
  {
  }

  /**
   Meaning preservation: for distinct z-orders and any marking by a client range, the
   plan built from the walked z-map shows at every screen position exactly the blend of
   all layers in z-order.
   */
  lemma PlanShowsAllLayers<P>(ordered: seq<nat>, marks: seq<Marked>, client: Range, entries: seq<Entry>,
                              planes: seq<P>, valid: (P, Slot) -> bool, sample: nat -> Pixel)
    requires FollowsRange(ordered, marks, client) && DistinctZ(marks)
    requires ListsMap(entries, ZMap(marks))
    requires GreedyPlan(Slots(entries), 0, planes, 0, valid).Some?
    ensures var plan := GreedyPlan(Slots(entries), 0, planes, 0, valid).value;
            && |plan| == PlanesNeeded(|marks|, client)
            && (forall i :: 0 <= i < |plan| ==> plan[i].zPos == i)
            && PlanPicture(plan, ClientImage(ordered, client, sample), sample) == Blend(Pixels(ordered, sample))
  {
    WalkCollapsesRun(ordered, marks, client, entries);
    CollapsedLength(ordered, marks, client);
    PlanJoinsEntries(entries, planes, valid);
    CollapsedPicture(ordered, marks, client, sample);
    PlanPicturePixels(GreedyPlan(Slots(entries), 0, planes, 0, valid).value, entries,
                      ClientImage(ordered, client, sample), sample);
  }

  /** The first device layer of z-order `z`. */
  ghost predicate FirstAt(marks: seq<Marked>, z: nat, i: nat) {
    && i < |marks| && marks[i] == Marked(z, Device)
    && forall j :: 0 <= j < i ==> marks[j] != Marked(z, Device)
  }

  lemma {:induction false} DeviceMapFirst(marks: seq<Marked>, z: nat)
    ensures z in DeviceMap(marks) ==> DeviceMap(marks)[z].LayerSlot? && FirstAt(marks, z, DeviceMap(marks)[z].index)
    ensures z !in DeviceMap(marks) ==> forall i :: 0 <= i < |marks| ==> marks[i] != Marked(z, Device)
  {
    if marks != [] {
      var last := |marks| - 1;
      DeviceMapFirst(marks[..last], z);
      assert forall i :: 0 <= i < last ==> marks[..last][i] == marks[i];
    }
  }

  /**
   The z-map on every input: a z-order shows its first device layer, and the client target
   stands at the lowest client z-order unless a device layer is there.
   */
  lemma ZMapMeaning(marks: seq<Marked>, z: nat)
    ensures forall i :: z in ZMap(marks) && ZMap(marks)[z] == LayerSlot(i) <==> FirstAt(marks, z, i)
    ensures z in ZMap(marks) && ZMap(marks)[z] == ClientTarget <==>
              ClientZ(marks) == Some(z) && forall i :: 0 <= i < |marks| ==> marks[i] != Marked(z, Device)
  {
    DeviceMapFirst(marks, z);
  }

  /** Every device layer, and the client target if there is one, has its place in the z-map. */
  ghost predicate AllPlaced(marks: seq<Marked>) {
    var m, z := ZMap(marks), ClientZ(marks);
    && (forall i :: 0 <= i < |marks| && marks[i].kind == Device ==>
          marks[i].zOrder in m && m[marks[i].zOrder] == LayerSlot(i))
    && (z.Some? ==> z.value in m && m[z.value] == ClientTarget)
  }

  /**
   Equal z-orders lose a layer: everything is placed exactly when device layers have
   distinct z-orders and none has the lowest client z-order.
   */
  lemma AllPlacedIff(marks: seq<Marked>)
    ensures AllPlaced(marks) <==>
              && DistinctDeviceZ(marks)
              && (ClientZ(marks).Some? ==>
                    forall i :: 0 <= i < |marks| && marks[i].kind == Device ==> marks[i].zOrder != ClientZ(marks).value)
  {
    DeviceMapEntries(marks);
    var m, z := ZMap(marks), ClientZ(marks);
    if AllPlaced(marks) {
      forall i, j | 0 <= i < j < |marks| && marks[i].kind == marks[j].kind == Device
        ensures marks[i].zOrder != marks[j].zOrder
      {
        assert m[marks[i].zOrder] == LayerSlot(i) && m[marks[j].zOrder] == LayerSlot(j);
      }
    }
  }

  /** Two device layers with one z-order: the second one gets no plane. */
  lemma EqualZExample()
    ensures var marks := [Marked(5, Device), Marked(5, Device)];
            ZMap(marks) == map[5 := LayerSlot(0)] && !AllPlaced(marks)
  {
    var marks := [Marked(5, Device), Marked(5, Device)];
    assert marks[..1] == [Marked(5, Device)];
    assert DeviceMap(marks[..1]) == map[5 := LayerSlot(0)];
    assert ClientZ(marks[..1]) == None && ClientZ(marks) == None;
    assert LayerSlot(0) != LayerSlot(1) && marks[1].zOrder == 5;
  }

  // ---------------------------------------------------------- CreateComposition

  datatype Error = NoError | HasChanges | BadLayer | BadConfig | BadParameter | Unsupported

  /**
   Outcome for a walked z-map. `usable` tells which buffers could be imported, `valid`
   which planes can show which slot, and `kernel` is the verdict of the atomic commit.
   */
  function Outcome<P>(entries: seq<Entry>, usable: Slot -> bool, planes: seq<P>, valid: (P, Slot) -> bool,
                      kernel: seq<Joining<Slot, P>> -> int): (r: (Error, Option<seq<Joining<Slot, P>>>))
  {
    if entries == [] || exists i :: 0 <= i < |entries| && !usable(entries[i].slot) then (BadLayer, None)
    else
      var plan := GreedyPlan(Slots(entries), 0, planes, 0, valid);
      if plan.None? then (BadConfig, None)
      else if kernel(plan.value) != 0 then (BadParameter, plan)
      else (NoError, plan)
  }

  /**
   Which error each failure gives: nothing to show or an unusable buffer, no way to assign
   the slots to valid planes in order, or a commit the kernel rejects. Without an error
   every slot is usable and the plan is an assignment that the kernel takes.
   */
  lemma OutcomeMeaning<P>(entries: seq<Entry>, usable: Slot -> bool, planes: seq<P>, valid: (P, Slot) -> bool,
                          kernel: seq<Joining<Slot, P>> -> int)
    ensures var (err, plan) := Outcome(entries, usable, planes, valid, kernel);
            var shown := entries != [] && forall e :: e in entries ==> usable(e.slot);
            var assignable := exists f :: IsAssignment(f, Slots(entries), planes, valid);
            && (err == BadLayer <==> !shown)
            && (err == BadConfig <==> shown && !assignable)
            && (err in {NoError, BadParameter} <==> shown && assignable)
            && (plan.Some? <==> shown && assignable)
            && (plan.Some? ==> && (err == NoError <==> kernel(plan.value) == 0)
                               && exists f :: IsAssignment(f, Slots(entries), planes, valid)
                                              && plan.value == PlanOf(f, Slots(entries), planes))
  {
    GreedyPlanCorrect(Slots(entries), planes, valid);
  }

  /** The composition of these marks can be built and the kernel takes it. */
  ghost predicate Passes<P>(marks: seq<Marked>, usable: Slot -> bool, planes: seq<P>, valid: (P, Slot) -> bool,
                            kernel: seq<Joining<Slot, P>> -> int)
  {
    exists entries :: ListsMap(entries, ZMap(marks)) && Outcome(entries, usable, planes, valid, kernel).0 == NoError
  }

  /** Since the walk of a z-map is unique, one walk decides. */
  lemma OutcomeDecides<P>(entries: seq<Entry>, marks: seq<Marked>, usable: Slot -> bool, planes: seq<P>,
                          valid: (P, Slot) -> bool, kernel: seq<Joining<Slot, P>> -> int)
    requires ListsMap(entries, ZMap(marks))
    ensures Outcome(entries, usable, planes, valid, kernel).0 == NoError <==> Passes(marks, usable, planes, valid, kernel)
  {
    forall other | ListsMap(other, ZMap(marks))
      ensures other == entries
    {
      AscendingUnique(other, entries);
    }
  }

  /** Copies the layer data of the walked layers; stops at one that cannot be shown. */
  method CollectSlots(entries: seq<Entry>, usable: Slot -> bool) returns (slots: Option<seq<Slot>>)
    ensures slots == if exists i :: 0 <= i < |entries| && !usable(entries[i].slot) then None else Some(Slots(entries))
  {
    var collected := [];
    for i := 0 to |entries|
      invariant collected == Slots(entries[..i])
      invariant forall k :: 0 <= k < i ==> usable(entries[k].slot)
    {
      if !usable(entries[i].slot) {
        return None;
      }
      collected := collected + [entries[i].slot];
    }
    assert entries[..|entries|] == entries;
    slots := Some(collected);
  }

  /** A headless display has nothing to compose and reports success. */
  method CreateComposition<P>(headless: bool, layers: seq<HwcLayer>, usable: Slot -> bool, planes: seq<P>,
                              valid: (P, Slot) -> bool, kernel: seq<Joining<Slot, P>> -> int)
    returns (err: Error, plan: Option<seq<Joining<Slot, P>>>)
    ensures headless ==> err == NoError && plan == None
    ensures !headless ==>
              && (exists entries :: ListsMap(entries, ZMap(Marks(layers)))
                                    && (err, plan) == Outcome(entries, usable, planes, valid, kernel))
              && (err == NoError <==> Passes(Marks(layers), usable, planes, valid, kernel))
  {
    if headless {
      return NoError, None;
    }
    var zMap := BuildZMap(layers);
    var entries := WalkMap(zMap);
    OutcomeDecides(entries, Marks(layers), usable, planes, valid, kernel);
    if entries == [] {
      return BadLayer, None;
    }
    var slots := CollectSlots(entries, usable);
    if slots.None? {
      return BadLayer, None;
    }
    plan := CreateDrmKmsPlan(planes, slots.value, valid);
    if plan.None? {
      return BadConfig, None;
    }
    err := if kernel(plan.value) != 0 then BadParameter else NoError;
  }
}
