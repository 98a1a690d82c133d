/**
 Layers as the planner and the composer see them (hwc2_device/HwcLayer.h).

 What the client and the importer decide about a layer is a value, `LayerInfo`; the
 one thing validation changes in place is `validatedType`.
 */
module Layers {
  datatype CompositionType = Invalid | Client | Device | SolidColor | Cursor | Sideband | DisplayDecoration

  datatype Rect = Rect(left: int, top: int, right: int, bottom: int)

  /**
   `usable` is IsLayerUsableAsDevice, `needsScaling` is RequireScalingOrPhasing, and
   `video` says that the buffer was allocated for the video encoder.
   */
  datatype LayerInfo = LayerInfo(zOrder: nat, sfType: CompositionType, usable: bool,
                                 needsScaling: bool, video: bool, frame: Rect)

  /** The display-wide facts that send layers to the GPU. */
  datatype DisplayInfo = DisplayInfo(identityColorTransform: bool, forcedScalingWithGpu: bool, ivshmDevice: bool)

  class HwcLayer {
    var info: LayerInfo
    var validatedType: CompositionType

    constructor (info: LayerInfo)
      ensures this.info == info && validatedType == Invalid
    {
      this.info := info;
      validatedType := Invalid;
    }
  }

  function Infos(layers: seq<HwcLayer>): (r: seq<LayerInfo>)
    reads layers`info
    ensures |r| == |layers| && forall i :: 0 <= i < |r| ==> r[i] == layers[i].info
  {
    if layers == [] then [] else Infos(layers[..|layers| - 1]) + [layers[|layers| - 1].info]
  }

  function HardwareSupportsLayerType(t: CompositionType): bool {
    t == Device || t == Cursor
  }

  /** Layers that only the GPU can composite. */
  predicate IsClientLayer(display: DisplayInfo, layer: LayerInfo) {
    || !HardwareSupportsLayerType(layer.sfType)
    || !layer.usable
    || !display.identityColorTransform
    || (layer.needsScaling && display.forcedScalingWithGpu)
    || display.ivshmDevice
  }
}
