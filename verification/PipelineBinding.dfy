/**
 Exclusive binding of display hardware to pipelines (drm/DrmDisplayPipeline.cpp and .h).

 A resource is bound while some holder references its owner object; the holders are live
 pipelines, with a connector, an encoder, a CRTC and a primary plane, and lists of planes
 taken from a pipeline.
 */
module PipelineBinding {
  import opened Options

  type Pipe = nat

  datatype Resource = Connector(id: nat) | Encoder(id: nat) | Crtc(id: nat) | Plane(id: nat)

  datatype PlaneType = PrimaryType | OverlayType | CursorType

  datatype PlaneInfo = PlaneInfo(id: nat, kind: PlaneType, crtcs: set<nat>)

  /** What the kernel reports about a device. */
  datatype DeviceInfo = DeviceInfo(encoders: seq<nat>, crtcs: seq<nat>, planes: seq<PlaneInfo>,
                                   connectorEncoders: map<nat, set<nat>>, encoderCrtcs: map<nat, set<nat>>,
                                   currentEncoder: map<nat, nat>, currentCrtc: map<nat, nat>,
                                   planesNum: int, useOverlayPlanes: bool)

  datatype Pipeline = Pipeline(pipe: Pipe, connector: nat, encoder: nat, crtc: nat, primary: nat)

  /** Live owner objects: the pipeline each bound resource is bound to. */
  type Bindings = map<Resource, Pipe>

  function ResourcesOf(p: Pipeline): (r: set<Resource>) {
    {Connector(p.connector), Encoder(p.encoder), Crtc(p.crtc), Plane(p.primary)}
  }

  function BindAll(b: Bindings, resources: set<Resource>, pipe: Pipe): Bindings {
    b + map r | r in resources :: pipe
  }

  /** Primary planes that can serve a CRTC, in device order. */
  function PrimariesOf(planes: seq<PlaneInfo>, crtc: nat): (r: seq<nat>) {
    if planes == [] then []
    else
      var p := planes[|planes| - 1];
      PrimariesOf(planes[..|planes| - 1], crtc) + if crtc in p.crtcs && p.kind == PrimaryType then [p.id] else []
  }

  /** Plane `i` is a primary plane that can serve the CRTC, and its id is `id`. */
  ghost predicate PrimaryAt(planes: seq<PlaneInfo>, crtc: nat, i: nat, id: nat) {
    i < |planes| && planes[i].kind == PrimaryType && crtc in planes[i].crtcs && planes[i].id == id
  }

  /** The list holds the ids of exactly the primary planes of the CRTC. */
  lemma {:induction false} PrimariesMeaning(planes: seq<PlaneInfo>, crtc: nat, id: nat)
    ensures id in PrimariesOf(planes, crtc) <==> exists i :: PrimaryAt(planes, crtc, i, id)
  {
    if planes != [] {
      var last := |planes| - 1;
      PrimariesMeaning(planes[..last], crtc, id);
      if i :| PrimaryAt(planes[..last], crtc, i, id) {
        assert PrimaryAt(planes, crtc, i, id);
      }
      if i :| PrimaryAt(planes, crtc, i, id) {
        assert i == last || PrimaryAt(planes[..last], crtc, i, id);
      }
      if planes[last].kind == PrimaryType && crtc in planes[last].crtcs {
        assert PrimaryAt(planes, crtc, last, planes[last].id);
      }
    }
  }

  /** Exactly one plane of the device is a primary plane of the CRTC, and it has this id. */
  ghost predicate OnlyPrimary(planes: seq<PlaneInfo>, crtc: nat, id: nat) {
    exists i :: PrimaryAt(planes, crtc, i, id) && forall j, other :: PrimaryAt(planes, crtc, j, other) ==> j == i
  }

  /** A list of one id stands for exactly one plane of the device. */
  lemma {:induction false} PrimariesUnique(planes: seq<PlaneInfo>, crtc: nat)
    ensures |PrimariesOf(planes, crtc)| == 1 <==> exists id :: OnlyPrimary(planes, crtc, id)
    ensures |PrimariesOf(planes, crtc)| == 1 ==> OnlyPrimary(planes, crtc, PrimariesOf(planes, crtc)[0])
    ensures PrimariesOf(planes, crtc) == [] <==> forall i, id :: !PrimaryAt(planes, crtc, i, id)
  {
    if planes != [] {
      var last := |planes| - 1;
      var init := planes[..last];
      PrimariesUnique(init, crtc);
      var here := planes[last].kind == PrimaryType && crtc in planes[last].crtcs;
      assert forall i, id :: PrimaryAt(planes, crtc, i, id) <==>
                               PrimaryAt(init, crtc, i, id) || (i == last && here && id == planes[last].id);
      if here {
        assert PrimaryAt(planes, crtc, last, planes[last].id);
        if PrimariesOf(init, crtc) != [] {
          var i, id :| PrimaryAt(init, crtc, i, id);
          assert PrimaryAt(planes, crtc, i, id) && i != last;
        } else {
          assert OnlyPrimary(planes, crtc, planes[last].id);
        }
      } else {
        assert forall id :: OnlyPrimary(planes, crtc, id) <==> OnlyPrimary(init, crtc, id);
      }
    }
  }

  /** An overlay plane that can serve the CRTC. */
  predicate Eligible(plane: PlaneInfo, crtc: nat) {
    crtc in plane.crtcs && plane.kind == OverlayType
  }

  /** A pair for which a pipeline can be built in the given state. */
  predicate Usable(b: Bindings, dev: DeviceInfo, connector: nat, encoder: nat, crtc: nat) {
    && Connector(connector) !in b && Encoder(encoder) !in b && Crtc(crtc) !in b
    && |PrimariesOf(dev.planes, crtc)| == 1
    && Plane(PrimariesOf(dev.planes, crtc)[0]) !in b
  }

  /** A pair is usable exactly if its parts are free and the CRTC's one primary plane is. */
  lemma UsableMeaning(b: Bindings, dev: DeviceInfo, connector: nat, encoder: nat, crtc: nat)
    ensures Usable(b, dev, connector, encoder, crtc) <==>
              && Connector(connector) !in b && Encoder(encoder) !in b && Crtc(crtc) !in b
              && exists id :: OnlyPrimary(dev.planes, crtc, id) && Plane(id) !in b
  {
    PrimariesUnique(dev.planes, crtc);
  }

  datatype Pair = Pair(encoder: nat, crtc: nat)

  /** A CRTC remembers the connector it last served; the search offers it to no other. */
  predicate CanBind(reserved: map<nat, nat>, crtc: nat, connector: nat) {
    crtc !in reserved || reserved[crtc] == connector
  }

  predicate Supports(m: map<nat, set<nat>>, a: nat, b: nat) {
    a in m && b in m[a]
  }

  function SearchedCrtcs(dev: DeviceInfo, reserved: map<nat, nat>, connector: nat, encoder: nat, n: nat): (r: seq<Pair>)
    requires n <= |dev.crtcs|
  {
    if n == 0 then []
    else SearchedCrtcs(dev, reserved, connector, encoder, n - 1)
         + if Supports(dev.encoderCrtcs, encoder, dev.crtcs[n - 1]) && CanBind(reserved, dev.crtcs[n - 1], connector)
           then [Pair(encoder, dev.crtcs[n - 1])] else []
  }

  /** Pairs tried with one encoder: its current CRTC first, then the ones it supports. */
  function EncoderPairs(dev: DeviceInfo, reserved: map<nat, nat>, connector: nat, encoder: nat): (r: seq<Pair>) {
    (if encoder in dev.currentCrtc then [Pair(encoder, dev.currentCrtc[encoder])] else [])
    + SearchedCrtcs(dev, reserved, connector, encoder, |dev.crtcs|)
  }

  function SearchedEncoders(dev: DeviceInfo, reserved: map<nat, nat>, connector: nat, n: nat): (r: seq<Pair>)
    requires n <= |dev.encoders|
  {
    if n == 0 then []
    else SearchedEncoders(dev, reserved, connector, n - 1)
         + if Supports(dev.connectorEncoders, connector, dev.encoders[n - 1])
           then EncoderPairs(dev, reserved, connector, dev.encoders[n - 1]) else []
  }

  /** All pairs tried for a connector, in order: the current encoder first. */
  function Pairs(dev: DeviceInfo, reserved: map<nat, nat>, connector: nat): (r: seq<Pair>) {
    (if connector in dev.currentEncoder then EncoderPairs(dev, reserved, connector, dev.currentEncoder[connector]) else [])
    + SearchedEncoders(dev, reserved, connector, |dev.encoders|)
  }

  /** First usable pair of a list. */
  function FirstUsable(b: Bindings, dev: DeviceInfo, connector: nat, pairs: seq<Pair>): (r: Option<Pair>)
    ensures r.Some? ==> Usable(b, dev, connector, r.value.encoder, r.value.crtc)
  {
    if pairs == [] then None
    else
      var last := pairs[|pairs| - 1];
      var r := FirstUsable(b, dev, connector, pairs[..|pairs| - 1]);
      if r.Some? then r
      else if Usable(b, dev, connector, last.encoder, last.crtc) then Some(last) else None
  }

  /**
   Nothing is found only if every pair is unusable as things stand before the search; what
   is found is in the list with only unusable pairs before it.
   */
  lemma {:induction false} FirstUsableMeaning(b: Bindings, dev: DeviceInfo, connector: nat, pairs: seq<Pair>)
    ensures var r := FirstUsable(b, dev, connector, pairs);
            && (r.None? <==> forall i :: 0 <= i < |pairs| ==> !Usable(b, dev, connector, pairs[i].encoder, pairs[i].crtc))
            && (r.Some? ==> exists k :: 0 <= k < |pairs| && pairs[k] == r.value
                                        && forall i :: 0 <= i < k ==> !Usable(b, dev, connector, pairs[i].encoder, pairs[i].crtc))
  {
    if pairs != [] {
      var last := |pairs| - 1;
      var init := pairs[..last];
      FirstUsableMeaning(b, dev, connector, init);
      assert forall i :: 0 <= i < last ==> pairs[i] == init[i];
      var r := FirstUsable(b, dev, connector, init);
      if r.Some? {
        var k :| 0 <= k < |init| && init[k] == r.value
                 && forall i :: 0 <= i < k ==> !Usable(b, dev, connector, init[i].encoder, init[i].crtc);
        assert pairs[k] == r.value;
      }
    }
  }

  lemma {:induction false} SearchedCrtcsBindable(dev: DeviceInfo, reserved: map<nat, nat>, connector: nat, encoder: nat, n: nat)
    requires n <= |dev.crtcs|
    ensures forall p :: p in SearchedCrtcs(dev, reserved, connector, encoder, n) ==> CanBind(reserved, p.crtc, connector)
  {
    if n > 0 {
      SearchedCrtcsBindable(dev, reserved, connector, encoder, n - 1);
    }
  }

  lemma {:induction false} SearchedEncodersBindable(dev: DeviceInfo, reserved: map<nat, nat>, connector: nat, n: nat)
    requires n <= |dev.encoders|
    ensures forall p :: p in SearchedEncoders(dev, reserved, connector, n) ==> BindableOrCurrent(dev, reserved, connector, p)
  {
    if n > 0 {
      SearchedEncodersBindable(dev, reserved, connector, n - 1);
      SearchedCrtcsBindable(dev, reserved, connector, dev.encoders[n - 1], |dev.crtcs|);
    }
  }

  predicate BindableOrCurrent(dev: DeviceInfo, reserved: map<nat, nat>, connector: nat, p: Pair) {
    CanBind(reserved, p.crtc, connector) || (p.encoder in dev.currentCrtc && dev.currentCrtc[p.encoder] == p.crtc)
  }

  /** A CRTC that served another connector is taken only if it is the encoder's current one. */
  lemma ReservationsRespected(b: Bindings, dev: DeviceInfo, reserved: map<nat, nat>, connector: nat)
    ensures var found := FirstUsable(b, dev, connector, Pairs(dev, reserved, connector));
            found.Some? ==> BindableOrCurrent(dev, reserved, connector, found.value)
  {
    FirstUsableMeaning(b, dev, connector, Pairs(dev, reserved, connector));
    SearchedEncodersBindable(dev, reserved, connector, |dev.encoders|);
    if connector in dev.currentEncoder {
      SearchedCrtcsBindable(dev, reserved, connector, dev.currentEncoder[connector], |dev.crtcs|);
    }
  }

  /** The encoder is the connector's current one or a supported one, and so the CRTC for the encoder. */
  predicate PairSupported(dev: DeviceInfo, connector: nat, p: Pair) {
    && (|| (connector in dev.currentEncoder && dev.currentEncoder[connector] == p.encoder)
        || (p.encoder in dev.encoders && Supports(dev.connectorEncoders, connector, p.encoder)))
    && CrtcSupported(dev, p)
  }

  predicate CrtcSupported(dev: DeviceInfo, p: Pair) {
    || (p.encoder in dev.currentCrtc && dev.currentCrtc[p.encoder] == p.crtc)
    || (p.crtc in dev.crtcs && Supports(dev.encoderCrtcs, p.encoder, p.crtc))
  }

  lemma {:induction false} SearchedCrtcsSupported(dev: DeviceInfo, reserved: map<nat, nat>, connector: nat, encoder: nat, n: nat)
    requires n <= |dev.crtcs|
    ensures forall p :: p in SearchedCrtcs(dev, reserved, connector, encoder, n) ==> p.encoder == encoder && CrtcSupported(dev, p)
  {
    if n > 0 {
      SearchedCrtcsSupported(dev, reserved, connector, encoder, n - 1);
    }
  }

  lemma {:induction false} SearchedEncodersSupported(dev: DeviceInfo, reserved: map<nat, nat>, connector: nat, n: nat)
    requires n <= |dev.encoders|
    ensures forall p :: p in SearchedEncoders(dev, reserved, connector, n) ==> PairSupported(dev, connector, p)
  {
    if n > 0 {
      SearchedEncodersSupported(dev, reserved, connector, n - 1);
      SearchedCrtcsSupported(dev, reserved, connector, dev.encoders[n - 1], |dev.crtcs|);
    }
  }

  /** Only supported or current parts are ever put together. */
  lemma FoundIsSupported(b: Bindings, dev: DeviceInfo, reserved: map<nat, nat>, connector: nat)
    ensures var found := FirstUsable(b, dev, connector, Pairs(dev, reserved, connector));
            found.Some? ==> PairSupported(dev, connector, found.value)
  {
    FirstUsableMeaning(b, dev, connector, Pairs(dev, reserved, connector));
    SearchedEncodersSupported(dev, reserved, connector, |dev.encoders|);
    if connector in dev.currentEncoder {
      SearchedCrtcsSupported(dev, reserved, connector, dev.currentEncoder[connector], |dev.crtcs|);
    }
  }

  /** CRTC `i` can be had for this connector and encoder. */
  predicate CrtcServes(b: Bindings, dev: DeviceInfo, reserved: map<nat, nat>, connector: nat, encoder: nat, i: nat) {
    && i < |dev.crtcs| && Supports(dev.encoderCrtcs, encoder, dev.crtcs[i])
    && CanBind(reserved, dev.crtcs[i], connector) && Usable(b, dev, connector, encoder, dev.crtcs[i])
  }

  /** The search takes the first CRTC of the device that can be had. */
  lemma {:induction false} FirstCrtcTaken(b: Bindings, dev: DeviceInfo, reserved: map<nat, nat>, connector: nat, encoder: nat, n: nat)
    requires n <= |dev.crtcs|
    ensures var r := FirstUsable(b, dev, connector, SearchedCrtcs(dev, reserved, connector, encoder, n));
            if r.None? then forall i :: 0 <= i < n ==> !CrtcServes(b, dev, reserved, connector, encoder, i)
            else exists i :: && 0 <= i < n && r.value == Pair(encoder, dev.crtcs[i])
                             && CrtcServes(b, dev, reserved, connector, encoder, i)
                             && forall j :: 0 <= j < i ==> !CrtcServes(b, dev, reserved, connector, encoder, j)
  {
    if n > 0 {
      FirstCrtcTaken(b, dev, reserved, connector, encoder, n - 1);
      var before, pair := SearchedCrtcs(dev, reserved, connector, encoder, n - 1), Pair(encoder, dev.crtcs[n - 1]);
      var all := SearchedCrtcs(dev, reserved, connector, encoder, n);
      if Supports(dev.encoderCrtcs, encoder, pair.crtc) && CanBind(reserved, pair.crtc, connector) {
        FirstUsableConcat(b, dev, connector, before, [pair]);
        assert all == before + [pair] && [pair][..0] == [];
        assert FirstUsable(b, dev, connector, [pair])
            == if Usable(b, dev, connector, encoder, pair.crtc) then Some(pair) else None;
      } else {
        assert all == before;
      }
      assert CrtcServes(b, dev, reserved, connector, encoder, n - 1) <==>
               all != before && Usable(b, dev, connector, encoder, pair.crtc);
    }
  }

  /**
   The current setup is kept if it can be: with a current encoder that has a usable pair,
   that encoder is taken, and with its current CRTC if that pair is usable.
   */
  lemma CurrentKept(b: Bindings, dev: DeviceInfo, reserved: map<nat, nat>, connector: nat)
    requires connector in dev.currentEncoder
    ensures var encoder := dev.currentEncoder[connector];
            var found := FirstUsable(b, dev, connector, Pairs(dev, reserved, connector));
            && (encoder in dev.currentCrtc && Usable(b, dev, connector, encoder, dev.currentCrtc[encoder]) ==>
                  found == Some(Pair(encoder, dev.currentCrtc[encoder])))
            && (forall i :: 0 <= i < |dev.crtcs| && Supports(dev.encoderCrtcs, encoder, dev.crtcs[i])
                            && CanBind(reserved, dev.crtcs[i], connector) && Usable(b, dev, connector, encoder, dev.crtcs[i]) ==>
                  found.Some? && found.value.encoder == encoder)
  {
    var encoder := dev.currentEncoder[connector];
    var searched := SearchedCrtcs(dev, reserved, connector, encoder, |dev.crtcs|);
    var current := if encoder in dev.currentCrtc then [Pair(encoder, dev.currentCrtc[encoder])] else [];
    var pairs := EncoderPairs(dev, reserved, connector, encoder);
    FirstUsableConcat(b, dev, connector, pairs, SearchedEncoders(dev, reserved, connector, |dev.encoders|));
    FirstUsableConcat(b, dev, connector, current, searched);
    SearchedCrtcsSupported(dev, reserved, connector, encoder, |dev.crtcs|);
    FirstUsableMeaning(b, dev, connector, current);
    FirstUsableMeaning(b, dev, connector, searched);
    forall i | 0 <= i < |dev.crtcs| && Supports(dev.encoderCrtcs, encoder, dev.crtcs[i])
               && CanBind(reserved, dev.crtcs[i], connector) && Usable(b, dev, connector, encoder, dev.crtcs[i])
      ensures FirstUsable(b, dev, connector, pairs).Some? && FirstUsable(b, dev, connector, pairs).value.encoder == encoder
    {
      SupportedCrtcTried(dev, reserved, connector, encoder, |dev.crtcs|, i);
      var k :| 0 <= k < |searched| && searched[k] == Pair(encoder, dev.crtcs[i]);
    }
  }

  lemma {:induction false} SupportedCrtcTried(dev: DeviceInfo, reserved: map<nat, nat>, connector: nat, encoder: nat, n: nat, i: nat)
    requires i < n <= |dev.crtcs|
    requires Supports(dev.encoderCrtcs, encoder, dev.crtcs[i]) && CanBind(reserved, dev.crtcs[i], connector)
    ensures Pair(encoder, dev.crtcs[i]) in SearchedCrtcs(dev, reserved, connector, encoder, n)
    decreases n
  {
    if i < n - 1 {
      SupportedCrtcTried(dev, reserved, connector, encoder, n - 1, i);
    }
  }

  lemma {:induction false} SupportedEncoderTried(dev: DeviceInfo, reserved: map<nat, nat>, connector: nat, n: nat, e: nat, pair: Pair)
    requires e < n <= |dev.encoders| && Supports(dev.connectorEncoders, connector, dev.encoders[e])
    requires pair in EncoderPairs(dev, reserved, connector, dev.encoders[e])
    ensures pair in SearchedEncoders(dev, reserved, connector, n)
    decreases n
  {
    if e < n - 1 {
      SupportedEncoderTried(dev, reserved, connector, n - 1, e, pair);
    }
  }

  /**
   The search gives up only if every supported encoder and CRTC that can be bound for the
   connector is individually unusable in the state the search started from.
   */
  lemma GivesUpOnlyIfUnusable(b: Bindings, dev: DeviceInfo, reserved: map<nat, nat>, connector: nat, e: nat, i: nat)
    requires FirstUsable(b, dev, connector, Pairs(dev, reserved, connector)).None?
    requires e < |dev.encoders| && Supports(dev.connectorEncoders, connector, dev.encoders[e])
    requires i < |dev.crtcs| && Supports(dev.encoderCrtcs, dev.encoders[e], dev.crtcs[i])
    requires CanBind(reserved, dev.crtcs[i], connector)
    ensures !Usable(b, dev, connector, dev.encoders[e], dev.crtcs[i])
  {
    var encoder, pair, pairs := dev.encoders[e], Pair(dev.encoders[e], dev.crtcs[i]), Pairs(dev, reserved, connector);
    SupportedCrtcTried(dev, reserved, connector, encoder, |dev.crtcs|, i);
    assert pair in EncoderPairs(dev, reserved, connector, encoder);
    SupportedEncoderTried(dev, reserved, connector, |dev.encoders|, e, pair);
    FirstUsableMeaning(b, dev, connector, pairs);
    assert pair in pairs;
    var k :| 0 <= k < |pairs| && pairs[k] == pair;
  }

  lemma {:induction false} FirstUsableConcat(b: Bindings, dev: DeviceInfo, connector: nat, xs: seq<Pair>, ys: seq<Pair>)
    ensures FirstUsable(b, dev, connector, xs + ys)
         == if FirstUsable(b, dev, connector, xs).Some? then FirstUsable(b, dev, connector, xs)
            else FirstUsable(b, dev, connector, ys)
    decreases |ys|
  {
    if ys == [] {
      assert xs + ys == xs;
    } else {
      assert (xs + ys)[..|xs + ys| - 1] == xs + ys[..|ys| - 1];
      FirstUsableConcat(b, dev, connector, xs, ys[..|ys| - 1]);
    }
  }

  // -------------------------------------------------------------------------- device

  /** The result of a search over a list of pairs: the first usable one is taken, or nothing changes. */
  ghost predicate Created(b: Bindings, b': Bindings, reserved: map<nat, nat>, reserved': map<nat, nat>, dev: DeviceInfo,
                          connector: nat, pipe: Pipe, pairs: seq<Pair>, r: Option<Pipeline>)
  {
    match FirstUsable(b, dev, connector, pairs)
    case None => r.None? && b' == b && reserved' == reserved
    case Some(pair) =>
      && |PrimariesOf(dev.planes, pair.crtc)| == 1
      && r == Some(Pipeline(pipe, connector, pair.encoder, pair.crtc, PrimariesOf(dev.planes, pair.crtc)[0]))
      && b' == BindAll(b, ResourcesOf(r.value), pipe)
      && reserved' == reserved[pair.crtc := connector]
  }

  /** Number of eligible planes from position `i` up to `j`. */
  function EligibleBetween(planes: seq<PlaneInfo>, crtc: nat, i: nat, j: nat): nat
    requires i <= j <= |planes|
    decreases j - i
  {
    if i == j then 0 else (if Eligible(planes[i], crtc) then 1 else 0) + EligibleBetween(planes, crtc, i + 1, j)
  }

  /**
   The planes a pipeline can use: its primary plane and, unless switched off, overlay planes
   of its CRTC that are free or already its own, no more than the limit allows together,
   and all of those among the first eligible ones.
   */
  ghost predicate UsableList(dev: DeviceInfo, b: Bindings, p: Pipeline, planes: seq<nat>) {
    && planes != [] && planes[0] == p.primary
    && (!dev.useOverlayPlanes ==> |planes| == 1)
    && (|planes| == 1 || |planes| <= dev.planesNum)
    && (forall id :: id in planes[1..] ==>
          && (Plane(id) in b ==> b[Plane(id)] == p.pipe)
          && exists k :: 0 <= k < |dev.planes| && dev.planes[k].id == id && dev.planes[k].kind == OverlayType
                         && p.crtc in dev.planes[k].crtcs)
    && (dev.useOverlayPlanes ==>
          forall j :: 0 <= j < |dev.planes| && Eligible(dev.planes[j], p.crtc)
                      && (Plane(dev.planes[j].id) in b ==> b[Plane(dev.planes[j].id)] == p.pipe)
                      && 1 + EligibleBetween(dev.planes, p.crtc, 0, j) < dev.planesNum ==>
            dev.planes[j].id in planes[1..])
  }

  function PlaneSet(ids: seq<nat>): set<Resource> {
    set id | id in ids :: Plane(id)
  }

  /** The overlay planes from position `i` on that the pipeline gets, at most `budget` being asked for. */
  function TakenPlanes(b: Bindings, planes: seq<PlaneInfo>, i: nat, p: Pipeline, budget: int): (r: seq<nat>)
    requires i <= |planes|
    decreases |planes| - i
  {
    if i == |planes| then []
    else if !Eligible(planes[i], p.crtc) then TakenPlanes(b, planes, i + 1, p, budget)
    else if budget <= 0 then []
    else
      var r := Plane(planes[i].id);
      if r !in b then [planes[i].id] + TakenPlanes(b[r := p.pipe], planes, i + 1, p, budget - 1)
      else if b[r] == p.pipe then [planes[i].id] + TakenPlanes(b, planes, i + 1, p, budget - 1)
      else TakenPlanes(b, planes, i + 1, p, budget - 1)
  }

  /** The overlay planes a pipeline gets; none if the property switches them off. */
  function Overlays(dev: DeviceInfo, b: Bindings, p: Pipeline): (r: seq<nat>) {
    if dev.useOverlayPlanes then TakenPlanes(b, dev.planes, 0, p, dev.planesNum - 1) else []
  }

  class DrmDevice {
    const info: DeviceInfo
    var bound: Bindings
    var reserved: map<nat, nat>

    constructor (info: DeviceInfo)
      ensures this.info == info && bound == map[] && reserved == map[]
    {
      this.info, bound, reserved := info, map[], map[];
    }

    /** A new owner object, or the existing one for the same pipeline if asked for. */
    method BindPipeline(r: Resource, pipe: Pipe, returnIfBound: bool) returns (ok: bool)
      modifies this`bound
      ensures ok <==> r !in old(bound) || (old(bound)[r] == pipe && returnIfBound)
      ensures bound == if r in old(bound) then old(bound) else old(bound)[r := pipe]
    {
      if r in bound {
        return bound[r] == pipe && returnIfBound;
      }
      bound := bound[r := pipe];
      return true;
    }

    /** Drops what a failed attempt had bound. */
    method ReleaseAll(acquired: set<Resource>)
      modifies this`bound
      ensures bound == old(bound) - acquired
    {
      bound := bound - acquired;
    }

    method FindPrimaries(crtc: nat) returns (primaries: seq<nat>)
      ensures primaries == PrimariesOf(info.planes, crtc)
    {
      primaries := [];
      for i := 0 to |info.planes|
        invariant primaries == PrimariesOf(info.planes[..i], crtc)
      {
        assert info.planes[..i + 1][..i] == info.planes[..i] && info.planes[..i + 1][i] == info.planes[i];
        if crtc in info.planes[i].crtcs && info.planes[i].kind == PrimaryType {
          primaries := primaries + [info.planes[i].id];
        }
      }
      assert info.planes[..|info.planes|] == info.planes;
    }

    /** Binds connector, encoder and CRTC, trying all three even if one is taken. */
    method BindThree(connector: nat, encoder: nat, crtc: nat, pipe: Pipe) returns (ok: bool)
      modifies this`bound
      ensures ok <==> Connector(connector) !in old(bound) && Encoder(encoder) !in old(bound) && Crtc(crtc) !in old(bound)
      ensures bound == if ok then BindAll(old(bound), {Connector(connector), Encoder(encoder), Crtc(crtc)}, pipe) else old(bound)
    {
      var before := bound;
      var c := BindPipeline(Connector(connector), pipe, false);
      var e := BindPipeline(Encoder(encoder), pipe, false);
      var k := BindPipeline(Crtc(crtc), pipe, false);
      ok := c && e && k;
      if !ok {
        ReleaseAll((if c then {Connector(connector)} else {}) + (if e then {Encoder(encoder)} else {})
                   + (if k then {Crtc(crtc)} else {}));
        assert bound == before;
      }
    }

    /** One attempt. A failed one leaves every binding as it was. */
    method TryCreatePipeline(connector: nat, encoder: nat, crtc: nat, pipe: Pipe) returns (r: Option<Pipeline>)
      modifies this`bound
      ensures r.Some? <==> Usable(old(bound), info, connector, encoder, crtc)
      ensures r.None? ==> bound == old(bound)
      ensures r.Some? ==>
                && r.value == Pipeline(pipe, connector, encoder, crtc, PrimariesOf(info.planes, crtc)[0])
                && bound == BindAll(old(bound), ResourcesOf(r.value), pipe)
    {
      var three := {Connector(connector), Encoder(encoder), Crtc(crtc)};
      var before := bound;
      var ok := BindThree(connector, encoder, crtc, pipe);
      if !ok {
        return None;
      }
      var primaries := FindPrimaries(crtc);
      var bindable := false;
      if |primaries| == 1 {
        bindable := BindPipeline(Plane(primaries[0]), pipe, false);
      }
      if !bindable {
        ReleaseAll(three);
        assert bound == before;
        return None;
      }
      r := Some(Pipeline(pipe, connector, encoder, crtc, primaries[0]));
      assert bound == BindAll(before, ResourcesOf(r.value), pipe);
    }

    /** The pairs of one encoder, tried in order. */
    method TryCreatePipelineUsingEncoder(connector: nat, encoder: nat, pipe: Pipe) returns (r: Option<Pipeline>)
      modifies this
      ensures Created(old(bound), bound, old(reserved), reserved, info, connector, pipe,
                      EncoderPairs(info, old(reserved), connector, encoder), r)
    {
      ghost var current := if encoder in info.currentCrtc then [Pair(encoder, info.currentCrtc[encoder])] else [];
      ghost var searched := SearchedCrtcs(info, reserved, connector, encoder, |info.crtcs|);
      FirstUsableConcat(bound, info, connector, current, searched);
      if encoder in info.currentCrtc {
        r := TryCreatePipeline(connector, encoder, info.currentCrtc[encoder], pipe);
        if r.Some? {
          reserved := reserved[info.currentCrtc[encoder] := connector];
          return;
        }
      }
      r := SearchCrtcs(connector, encoder, pipe);
    }

    method SearchCrtcs(connector: nat, encoder: nat, pipe: Pipe) returns (r: Option<Pipeline>)
      modifies this
      ensures Created(old(bound), bound, old(reserved), reserved, info, connector, pipe,
                      SearchedCrtcs(info, old(reserved), connector, encoder, |info.crtcs|), r)
    {
      ghost var b := bound;
      for i := 0 to |info.crtcs|
        invariant bound == b && reserved == old(reserved)
        invariant FirstUsable(b, info, connector, SearchedCrtcs(info, reserved, connector, encoder, i)).None?
      {
        var crtc := info.crtcs[i];
        if Supports(info.encoderCrtcs, encoder, crtc) && CanBind(reserved, crtc, connector) {
          CrtcDecides(b, info, reserved, connector, encoder, i);
          r := TryCreatePipeline(connector, encoder, crtc, pipe);
          if r.Some? {
            reserved := reserved[crtc := connector];
            return;
          }
        } else {
          assert SearchedCrtcs(info, reserved, connector, encoder, i + 1) == SearchedCrtcs(info, reserved, connector, encoder, i);
        }
      }
      r := None;
    }

    /** Every pair for the connector, the current encoder's first. */
    method CreatePipeline(connector: nat, pipe: Pipe) returns (r: Option<Pipeline>)
      modifies this
      ensures Created(old(bound), bound, old(reserved), reserved, info, connector, pipe,
                      Pairs(info, old(reserved), connector), r)
      ensures r.Some? ==> && OnlyPrimary(info.planes, r.value.crtc, r.value.primary)
                          && PairSupported(info, connector, Pair(r.value.encoder, r.value.crtc))
    {
      FoundIsSupported(bound, info, reserved, connector);
      forall crtc
        ensures |PrimariesOf(info.planes, crtc)| == 1 ==> OnlyPrimary(info.planes, crtc, PrimariesOf(info.planes, crtc)[0])
      {
        PrimariesUnique(info.planes, crtc);
      }
      ghost var current := if connector in info.currentEncoder
                           then EncoderPairs(info, reserved, connector, info.currentEncoder[connector]) else [];
      FirstUsableConcat(bound, info, connector, current, SearchedEncoders(info, reserved, connector, |info.encoders|));
      if connector in info.currentEncoder {
        r := TryCreatePipelineUsingEncoder(connector, info.currentEncoder[connector], pipe);
        if r.Some? {
          return;
        }
      }
      r := SearchEncoders(connector, pipe);
    }

    method SearchEncoders(connector: nat, pipe: Pipe) returns (r: Option<Pipeline>)
      modifies this
      ensures Created(old(bound), bound, old(reserved), reserved, info, connector, pipe,
                      SearchedEncoders(info, old(reserved), connector, |info.encoders|), r)
    {
      ghost var b, res0 := bound, reserved;
      for i := 0 to |info.encoders|
        invariant bound == b && reserved == res0
        invariant FirstUsable(b, info, connector, SearchedEncoders(info, res0, connector, i)).None?
      {
        var encoder := info.encoders[i];
        if Supports(info.connectorEncoders, connector, encoder) {
          EncoderDecides(b, info, res0, connector, i);
          r := TryCreatePipelineUsingEncoder(connector, encoder, pipe);
          if r.Some? {
            return;
          }
        } else {
          assert SearchedEncoders(info, res0, connector, i + 1) == SearchedEncoders(info, res0, connector, i);
        }
      }
      r := None;
    }

    /** The primary plane and every overlay plane of the CRTC that can be had, within the plane limit. */
    method GetUsablePlanes(p: Pipeline) returns (planes: seq<nat>)
      modifies this`bound
      ensures planes == [p.primary] + Overlays(info, old(bound), p)
      ensures bound == BindAll(old(bound), PlaneSet(planes[1..]), p.pipe)
      ensures UsableList(info, old(bound), p, planes)
    {
      OverlaysMeaning(info, bound, p);
      planes := [p.primary];
      if info.useOverlayPlanes {
        var overlays := TakeOverlays(p);
        planes := planes + overlays;
        assert planes[1..] == overlays;
      } else {
        assert bound == BindAll(bound, PlaneSet([]), p.pipe);
        assert planes[1..] == [];
      }
    }

    method TakeOverlays(p: Pipeline) returns (overlays: seq<nat>)
      modifies this`bound
      ensures overlays == TakenPlanes(old(bound), info.planes, 0, p, info.planesNum - 1)
      ensures bound == BindAll(old(bound), PlaneSet(overlays), p.pipe)
    {
      var planesNum := info.planesNum - 1;
      overlays := [];
      ghost var all := TakenPlanes(bound, info.planes, 0, p, planesNum);
      assert [] + all == all;
      assert bound == BindAll(bound, PlaneSet([]), p.pipe);
      for i := 0 to |info.planes|
        invariant all == overlays + TakenPlanes(bound, info.planes, i, p, planesNum)
        invariant bound == BindAll(old(bound), PlaneSet(overlays), p.pipe)
      {
        var plane := info.planes[i];
        if Eligible(plane, p.crtc) {
          if planesNum <= 0 {
            break;
          }
          planesNum := planesNum - 1;
          ghost var b := bound;
          var ok := BindPipeline(Plane(plane.id), p.pipe, true);
          ghost var rest := TakenPlanes(bound, info.planes, i + 1, p, planesNum);
          assert TakenPlanes(b, info.planes, i, p, planesNum + 1) == if ok then [plane.id] + rest else rest;
          if ok {
            assert overlays + ([plane.id] + rest) == overlays + [plane.id] + rest;
            BindOneMore(old(bound), b, overlays, plane.id, p.pipe);
            overlays := overlays + [plane.id];
          }
        }
      }
      assert overlays + [] == overlays;
    }
  }

  lemma {:induction false} SearchedCrtcsPrefix(dev: DeviceInfo, reserved: map<nat, nat>, connector: nat, encoder: nat, n: nat)
    requires n <= |dev.crtcs|
    ensures SearchedCrtcs(dev, reserved, connector, encoder, n) <= SearchedCrtcs(dev, reserved, connector, encoder, |dev.crtcs|)
    decreases |dev.crtcs| - n
  {
    if n < |dev.crtcs| {
      SearchedCrtcsPrefix(dev, reserved, connector, encoder, n + 1);
    }
  }

  /** The attempt at a CRTC decides the search if everything before it was unusable. */
  lemma CrtcDecides(b: Bindings, dev: DeviceInfo, reserved: map<nat, nat>, connector: nat, encoder: nat, i: nat)
    requires i < |dev.crtcs|
    requires Supports(dev.encoderCrtcs, encoder, dev.crtcs[i]) && CanBind(reserved, dev.crtcs[i], connector)
    requires FirstUsable(b, dev, connector, SearchedCrtcs(dev, reserved, connector, encoder, i)).None?
    ensures if Usable(b, dev, connector, encoder, dev.crtcs[i])
            then FirstUsable(b, dev, connector, SearchedCrtcs(dev, reserved, connector, encoder, |dev.crtcs|))
                 == Some(Pair(encoder, dev.crtcs[i]))
            else FirstUsable(b, dev, connector, SearchedCrtcs(dev, reserved, connector, encoder, i + 1)).None?
  {
    var before, here := SearchedCrtcs(dev, reserved, connector, encoder, i), [Pair(encoder, dev.crtcs[i])];
    FirstUsableConcat(b, dev, connector, before, here);
    SearchedCrtcsPrefix(dev, reserved, connector, encoder, i + 1);
    if Usable(b, dev, connector, encoder, dev.crtcs[i]) {
      FoundEarly(b, dev, connector, before + here, SearchedCrtcs(dev, reserved, connector, encoder, |dev.crtcs|));
    }
  }

  lemma {:induction false} SearchedEncodersPrefix(dev: DeviceInfo, reserved: map<nat, nat>, connector: nat, n: nat)
    requires n <= |dev.encoders|
    ensures SearchedEncoders(dev, reserved, connector, n) <= SearchedEncoders(dev, reserved, connector, |dev.encoders|)
    decreases |dev.encoders| - n
  {
    if n < |dev.encoders| {
      SearchedEncodersPrefix(dev, reserved, connector, n + 1);
    }
  }

  /** The attempt at an encoder decides the search if everything before it was unusable. */
  lemma EncoderDecides(b: Bindings, dev: DeviceInfo, reserved: map<nat, nat>, connector: nat, i: nat)
    requires i < |dev.encoders| && Supports(dev.connectorEncoders, connector, dev.encoders[i])
    requires FirstUsable(b, dev, connector, SearchedEncoders(dev, reserved, connector, i)).None?
    ensures var here := FirstUsable(b, dev, connector, EncoderPairs(dev, reserved, connector, dev.encoders[i]));
            if here.Some?
            then FirstUsable(b, dev, connector, SearchedEncoders(dev, reserved, connector, |dev.encoders|)) == here
            else FirstUsable(b, dev, connector, SearchedEncoders(dev, reserved, connector, i + 1)).None?
  {
    var before, here := SearchedEncoders(dev, reserved, connector, i), EncoderPairs(dev, reserved, connector, dev.encoders[i]);
    FirstUsableConcat(b, dev, connector, before, here);
    SearchedEncodersPrefix(dev, reserved, connector, i + 1);
    if FirstUsable(b, dev, connector, here).Some? {
      FoundEarly(b, dev, connector, before + here, SearchedEncoders(dev, reserved, connector, |dev.encoders|));
    }
  }

  /** What is found in a prefix is what is found in the whole list. */
  lemma FoundEarly(b: Bindings, dev: DeviceInfo, connector: nat, xs: seq<Pair>, all: seq<Pair>)
    requires xs <= all && FirstUsable(b, dev, connector, xs).Some?
    ensures FirstUsable(b, dev, connector, all) == FirstUsable(b, dev, connector, xs)
  {
    assert all == xs + all[|xs|..];
    FirstUsableConcat(b, dev, connector, xs, all[|xs|..]);
  }

  lemma BindOneMore(b0: Bindings, b: Bindings, ids: seq<nat>, id: nat, pipe: Pipe)
    requires b == BindAll(b0, PlaneSet(ids), pipe)
    requires Plane(id) in b ==> b[Plane(id)] == pipe
    ensures (if Plane(id) in b then b else b[Plane(id) := pipe]) == BindAll(b0, PlaneSet(ids + [id]), pipe)
  {
    assert PlaneSet(ids + [id]) == PlaneSet(ids) + {Plane(id)};
  }

  /** No more planes than asked for, and none that another pipeline holds. */
  lemma {:induction false} TakenAreFree(b: Bindings, planes: seq<PlaneInfo>, i: nat, p: Pipeline, budget: int)
    requires i <= |planes|
    ensures var r := TakenPlanes(b, planes, i, p, budget);
            && |r| <= (if budget > 0 then budget else 0)
            && (forall k :: 0 <= k < |r| ==> Plane(r[k]) !in b || b[Plane(r[k])] == p.pipe)
    decreases |planes| - i
  {
    if i < |planes| {
      if !Eligible(planes[i], p.crtc) {
        TakenAreFree(b, planes, i + 1, p, budget);
      } else if budget > 0 {
        var r := Plane(planes[i].id);
        TakenAreFree(if r in b then b else b[r := p.pipe], planes, i + 1, p, budget - 1);
      }
    }
  }

  /** Every plane taken is an overlay plane of the device that can serve the pipeline's CRTC. */
  lemma {:induction false} TakenAreOverlays(b: Bindings, planes: seq<PlaneInfo>, i: nat, p: Pipeline, budget: int)
    requires i <= |planes|
    ensures forall id :: id in TakenPlanes(b, planes, i, p, budget) ==>
              exists k :: i <= k < |planes| && planes[k].id == id && planes[k].kind == OverlayType && p.crtc in planes[k].crtcs
    decreases |planes| - i
  {
    if i < |planes| {
      if !Eligible(planes[i], p.crtc) {
        TakenAreOverlays(b, planes, i + 1, p, budget);
      } else if budget > 0 {
        var r := Plane(planes[i].id);
        TakenAreOverlays(if r in b then b else b[r := p.pipe], planes, i + 1, p, budget - 1);
      }
    }
  }

  /** Every eligible plane within the limit that is free or already the pipeline's is taken. */
  lemma {:induction false} FreeAreTaken(b: Bindings, planes: seq<PlaneInfo>, i: nat, p: Pipeline, budget: int, j: nat)
    requires i <= j < |planes| && Eligible(planes[j], p.crtc)
    requires Plane(planes[j].id) in b ==> b[Plane(planes[j].id)] == p.pipe
    requires EligibleBetween(planes, p.crtc, i, j) < budget
    ensures planes[j].id in TakenPlanes(b, planes, i, p, budget)
    decreases j - i
  {
    if i < j {
      if Eligible(planes[i], p.crtc) {
        var r := Plane(planes[i].id);
        FreeAreTaken(if r in b then b else b[r := p.pipe], planes, i + 1, p, budget - 1, j);
      } else {
        FreeAreTaken(b, planes, i + 1, p, budget, j);
      }
    }
  }

  lemma OverlaysFree(dev: DeviceInfo, b: Bindings, p: Pipeline)
    ensures forall r :: r in PlaneSet(Overlays(dev, b, p)) && r in b ==> b[r] == p.pipe
  {
    TakenAreFree(b, dev.planes, 0, p, dev.planesNum - 1);
  }

  lemma OverlaysMeaning(dev: DeviceInfo, b: Bindings, p: Pipeline)
    ensures UsableList(dev, b, p, [p.primary] + Overlays(dev, b, p))
  {
    var planes := [p.primary] + Overlays(dev, b, p);
    assert planes[1..] == Overlays(dev, b, p);
    if dev.useOverlayPlanes {
      TakenAreFree(b, dev.planes, 0, p, dev.planesNum - 1);
      TakenAreOverlays(b, dev.planes, 0, p, dev.planesNum - 1);
      forall j | 0 <= j < |dev.planes| && Eligible(dev.planes[j], p.crtc)
                 && (Plane(dev.planes[j].id) in b ==> b[Plane(dev.planes[j].id)] == p.pipe)
                 && 1 + EligibleBetween(dev.planes, p.crtc, 0, j) < dev.planesNum
        ensures dev.planes[j].id in planes[1..]
      {
        FreeAreTaken(b, dev.planes, 0, p, dev.planesNum - 1, j);
      }
    }
  }

  // ---------------------------------------------------------------------- exclusivity

  /** A holder of owner references: a live pipeline, or a list of planes taken from one. */
  datatype Holder = Holder(pipe: Pipe, held: set<Resource>, pipeline: Option<Pipeline>)

  function PipelineHolder(p: Pipeline): Holder {
    Holder(p.pipe, ResourcesOf(p), Some(p))
  }

  function PlanesHolder(pipe: Pipe, planes: seq<nat>): Holder {
    Holder(pipe, PlaneSet(planes), None)
  }

  datatype System = System(bound: Bindings, reserved: map<nat, nat>, holders: seq<Holder>)

  datatype Step = CreateStep(connector: nat, pipe: Pipe) | TakeStep(i: nat) | DropStep(i: nat)

  /** A new pipeline has an address no live holder uses; plane lists are dropped before their pipeline. */
  predicate Enabled(s: System, step: Step) {
    match step
    case CreateStep(_, pipe) => forall i :: 0 <= i < |s.holders| ==> s.holders[i].pipe != pipe
    case TakeStep(i) => i < |s.holders| && s.holders[i].pipeline.Some?
    case DropStep(i) =>
      && i < |s.holders|
      && (s.holders[i].pipeline.Some? ==>
            forall j :: 0 <= j < |s.holders| && j != i ==> s.holders[j].pipe != s.holders[i].pipe)
  }

  function Without(holders: seq<Holder>, i: nat): seq<Holder>
    requires i < |holders|
  {
    holders[..i] + holders[i + 1..]
  }

  predicate Referenced(holders: seq<Holder>, r: Resource) {
    exists i :: 0 <= i < |holders| && r in holders[i].held
  }

  function Next(dev: DeviceInfo, s: System, step: Step): System
    requires Enabled(s, step)
  {
    match step
    case CreateStep(connector, pipe) =>
      (match FirstUsable(s.bound, dev, connector, Pairs(dev, s.reserved, connector))
       case None => s
       case Some(pair) =>
         var p := Pipeline(pipe, connector, pair.encoder, pair.crtc, PrimariesOf(dev.planes, pair.crtc)[0]);
         System(BindAll(s.bound, ResourcesOf(p), pipe), s.reserved[pair.crtc := connector], s.holders + [PipelineHolder(p)]))
    case TakeStep(i) =>
      var p := s.holders[i].pipeline.value;
      var overlays := Overlays(dev, s.bound, p);
      System(BindAll(s.bound, PlaneSet(overlays), p.pipe), s.reserved,
             s.holders + [PlanesHolder(p.pipe, [p.primary] + overlays)])
    case DropStep(i) =>
      var rest := Without(s.holders, i);
      System(map r | r in s.bound && Referenced(rest, r) :: s.bound[r], s.reserved, rest)
  }

  /** Every reference is to a resource bound to the holder's pipeline, and only referenced resources are bound. */
  ghost predicate Owned(s: System) {
    && (forall i, r :: 0 <= i < |s.holders| && r in s.holders[i].held ==> r in s.bound && s.bound[r] == s.holders[i].pipe)
    && (forall r :: r in s.bound ==> Referenced(s.holders, r))
    && (forall i :: 0 <= i < |s.holders| && s.holders[i].pipeline.Some? ==>
          s.holders[i] == PipelineHolder(s.holders[i].pipeline.value))
  }

  lemma BindAllExtra(b: Bindings, resources: set<Resource>, r: Resource, pipe: Pipe)
    requires r in b && b[r] == pipe
    ensures BindAll(b, resources + {r}, pipe) == BindAll(b, resources, pipe)
  {
  }

  lemma AddHolderOwned(s: System, b: Bindings, h: Holder)
    requires Owned(s) && (h.pipeline.Some? ==> h == PipelineHolder(h.pipeline.value))
    requires b == BindAll(s.bound, h.held, h.pipe)
    requires forall r :: r in h.held && r in s.bound ==> s.bound[r] == h.pipe
    ensures Owned(s.(bound := b, holders := s.holders + [h]))
  {
    var holders := s.holders + [h];
    forall r | r in b
      ensures Referenced(holders, r)
    {
      if r in h.held {
        assert r in holders[|s.holders|].held;
      } else {
        assert Referenced(s.holders, r);
        var i :| 0 <= i < |s.holders| && r in s.holders[i].held;
        assert r in holders[i].held;
      }
    }
  }

  lemma DropOwned(dev: DeviceInfo, s: System, i: nat)
    requires Owned(s) && Enabled(s, DropStep(i))
    ensures Owned(Next(dev, s, DropStep(i)))
  {
  }

  /** Adding the list of a primary plane and some free overlay planes. */
  lemma TakeListOwned(s: System, pipe: Pipe, primary: nat, overlays: seq<nat>)
    requires Owned(s) && Plane(primary) in s.bound && s.bound[Plane(primary)] == pipe
    requires forall r :: r in PlaneSet(overlays) && r in s.bound ==> s.bound[r] == pipe
    ensures Owned(System(BindAll(s.bound, PlaneSet(overlays), pipe), s.reserved,
                         s.holders + [PlanesHolder(pipe, [primary] + overlays)]))
  {
    var h := PlanesHolder(pipe, [primary] + overlays);
    assert h.held == PlaneSet(overlays) + {Plane(primary)};
    BindAllExtra(s.bound, PlaneSet(overlays), Plane(primary), pipe);
    AddHolderOwned(s, BindAll(s.bound, h.held, pipe), h);
  }

  lemma TakeOwned(dev: DeviceInfo, s: System, i: nat)
    requires Owned(s) && Enabled(s, TakeStep(i))
    ensures Owned(Next(dev, s, TakeStep(i)))
  {
    var p := s.holders[i].pipeline.value;
    OverlaysFree(dev, s.bound, p);
    assert Plane(p.primary) in s.holders[i].held;
    TakeListOwned(s, p.pipe, p.primary, Overlays(dev, s.bound, p));
  }

  lemma CreateOwned(dev: DeviceInfo, s: System, connector: nat, pipe: Pipe)
    requires Owned(s) && Enabled(s, CreateStep(connector, pipe))
    ensures Owned(Next(dev, s, CreateStep(connector, pipe)))
  {
    var found := FirstUsable(s.bound, dev, connector, Pairs(dev, s.reserved, connector));
    if found.Some? {
      var pair := found.value;
      var p := Pipeline(pipe, connector, pair.encoder, pair.crtc, PrimariesOf(dev.planes, pair.crtc)[0]);
      AddHolderOwned(s, BindAll(s.bound, ResourcesOf(p), pipe), PipelineHolder(p));
    }
  }

  predicate IsRun(dev: DeviceInfo, s: System, steps: seq<Step>)
    decreases |steps|
  {
    steps == [] || (Enabled(s, steps[0]) && IsRun(dev, Next(dev, s, steps[0]), steps[1..]))
  }

  function Run(dev: DeviceInfo, s: System, steps: seq<Step>): System
    requires IsRun(dev, s, steps)
    decreases |steps|
  {
    if steps == [] then s else Run(dev, Next(dev, s, steps[0]), steps[1..])
  }

  lemma StepOwned(dev: DeviceInfo, s: System, step: Step)
    requires Owned(s) && Enabled(s, step)
    ensures Owned(Next(dev, s, step))
  {
    match step {
      case CreateStep(connector, pipe) => CreateOwned(dev, s, connector, pipe);
      case TakeStep(i) => TakeOwned(dev, s, i);
      case DropStep(i) => DropOwned(dev, s, i);
    }
  }

  lemma {:induction false} RunOwned(dev: DeviceInfo, s: System, steps: seq<Step>)
    requires Owned(s) && IsRun(dev, s, steps)
    ensures Owned(Run(dev, s, steps))
    decreases |steps|
  {
    if steps != [] {
      StepOwned(dev, s, steps[0]);
      RunOwned(dev, Next(dev, s, steps[0]), steps[1..]);
    }
  }

  /** The CRTC of every live pipeline is reserved for the pipeline's connector. */
  ghost predicate Reserved(s: System) {
    forall i :: 0 <= i < |s.holders| && s.holders[i].pipeline.Some? ==>
      var p := s.holders[i].pipeline.value;
      p.crtc in s.reserved && s.reserved[p.crtc] == p.connector
  }

  lemma StepReserved(dev: DeviceInfo, s: System, step: Step)
    requires Owned(s) && Reserved(s) && Enabled(s, step)
    ensures Reserved(Next(dev, s, step))
  {
    if step.CreateStep? {
      var found := FirstUsable(s.bound, dev, step.connector, Pairs(dev, s.reserved, step.connector));
      if found.Some? {
        forall i | 0 <= i < |s.holders| && s.holders[i].pipeline.Some?
          ensures s.holders[i].pipeline.value.crtc != found.value.crtc
        {
          assert Crtc(s.holders[i].pipeline.value.crtc) in s.holders[i].held;
        }
      }
    }
  }

  /** Over every run a CRTC in use is offered to no connector but the one it serves. */
  lemma {:induction false} RunReserved(dev: DeviceInfo, s: System, steps: seq<Step>)
    requires Owned(s) && Reserved(s) && IsRun(dev, s, steps)
    ensures Reserved(Run(dev, s, steps))
    decreases |steps|
  {
    if steps != [] {
      StepReserved(dev, s, steps[0]);
      StepOwned(dev, s, steps[0]);
      RunReserved(dev, Next(dev, s, steps[0]), steps[1..]);
    }
  }

  predicate NothingShared(p: Pipeline, q: Pipeline) {
    p.connector != q.connector && p.encoder != q.encoder && p.crtc != q.crtc && p.primary != q.primary
  }

  /**
   Exclusive binding: over every run of creating and destroying pipelines and of taking
   and dropping plane lists, holders of different pipelines share no connector, encoder,
   CRTC or plane, and a resource is bound exactly while somebody holds it.
   */
  lemma RunExclusive(dev: DeviceInfo, steps: seq<Step>, i: nat, j: nat)
    requires IsRun(dev, System(map[], map[], []), steps)
    requires var s := Run(dev, System(map[], map[], []), steps);
             i < |s.holders| && j < |s.holders| && s.holders[i].pipe != s.holders[j].pipe
    ensures var s := Run(dev, System(map[], map[], []), steps);
            && s.holders[i].held !! s.holders[j].held
            && (forall r :: r in s.bound <==> Referenced(s.holders, r))
            && (s.holders[i].pipeline.Some? && s.holders[j].pipeline.Some? ==>
                  NothingShared(s.holders[i].pipeline.value, s.holders[j].pipeline.value))
  {
    RunOwned(dev, System(map[], map[], []), steps);
    OwnedExclusive(Run(dev, System(map[], map[], []), steps), i, j);
  }

  lemma OwnedExclusive(s: System, i: nat, j: nat)
    requires Owned(s) && i < |s.holders| && j < |s.holders| && s.holders[i].pipe != s.holders[j].pipe
    ensures s.holders[i].held !! s.holders[j].held
    ensures forall r :: r in s.bound <==> Referenced(s.holders, r)
    ensures s.holders[i].pipeline.Some? && s.holders[j].pipeline.Some? ==>
              NothingShared(s.holders[i].pipeline.value, s.holders[j].pipeline.value)
  {
    forall r | r in s.holders[i].held
      ensures r !in s.holders[j].held
    {
      assert s.bound[r] == s.holders[i].pipe;
    }
  }

  /** Restricting to the old references undoes the binding of new resources. */
  lemma RestrictUndoes(s: System, resources: set<Resource>, pipe: Pipe)
    requires Owned(s) && resources !! s.bound.Keys
    ensures var b := BindAll(s.bound, resources, pipe);
            (map r | r in b && Referenced(s.holders, r) :: b[r]) == s.bound
  {
  }

  /** Destroying a pipeline right after creating it restores every binding. */
  lemma CreateThenDrop(dev: DeviceInfo, s: System, connector: nat, pipe: Pipe)
    requires Owned(s) && Enabled(s, CreateStep(connector, pipe))
    requires FirstUsable(s.bound, dev, connector, Pairs(dev, s.reserved, connector)).Some?
    ensures var s1 := Next(dev, s, CreateStep(connector, pipe));
            && Enabled(s1, DropStep(|s.holders|))
            && Next(dev, s1, DropStep(|s.holders|)).bound == s.bound
            && Next(dev, s1, DropStep(|s.holders|)).holders == s.holders
  {
    var s1 := Next(dev, s, CreateStep(connector, pipe));
    var pair := FirstUsable(s.bound, dev, connector, Pairs(dev, s.reserved, connector)).value;
    var p := Pipeline(pipe, connector, pair.encoder, pair.crtc, PrimariesOf(dev.planes, pair.crtc)[0]);
    assert Without(s1.holders, |s.holders|) == s.holders;
    RestrictUndoes(s, ResourcesOf(p), pipe);
  }
}
