/**
 Premultiplied source-over blending on real-valued pixels, the operation both the GPU
 and the display planes perform. A stack is listed bottom to top.
 */
module Blending {
  datatype Pixel = Pixel(r: real, g: real, b: real, a: real)

  const CLEAR := Pixel(0.0, 0.0, 0.0, 0.0)

  function OverChannel(top: real, alpha: real, bottom: real): real {
    top + (1.0 - alpha) * bottom
  }

  function Over(top: Pixel, bottom: Pixel): Pixel {
    Pixel(OverChannel(top.r, top.a, bottom.r), OverChannel(top.g, top.a, bottom.g),
          OverChannel(top.b, top.a, bottom.b), OverChannel(top.a, top.a, bottom.a))
  }

  /** What a viewer sees of a stack of pixels. */
  function Blend(stack: seq<Pixel>): Pixel {
    if stack == [] then CLEAR
    else Over(stack[|stack| - 1], Blend(stack[..|stack| - 1]))
  }

  lemma OverAssociative(top: Pixel, middle: Pixel, bottom: Pixel)
    ensures Over(top, Over(middle, bottom)) == Over(Over(top, middle), bottom)
  {
  }

  lemma {:induction false} BlendConcat(lower: seq<Pixel>, upper: seq<Pixel>)
    ensures Blend(lower + upper) == Over(Blend(upper), Blend(lower))
    decreases |upper|
  {
    if upper == [] {
      assert lower + upper == lower;
    } else {
      var top, rest := upper[|upper| - 1], upper[..|upper| - 1];
      assert (lower + upper)[..|lower + upper| - 1] == lower + rest;
      BlendConcat(lower, rest);
      OverAssociative(top, Blend(rest), Blend(lower));
    }
  }

  /** A run of a stack can be flattened first and blended as one pixel. */
  lemma BlendFlattened(lower: seq<Pixel>, run: seq<Pixel>, upper: seq<Pixel>)
    ensures Blend(lower + run + upper) == Blend(lower + [Blend(run)] + upper)
  {
    BlendConcat(lower + run, upper);
    BlendConcat(lower, run);
    BlendConcat(lower + [Blend(run)], upper);
    BlendConcat(lower, [Blend(run)]);
    assert Blend([Blend(run)]) == Blend(run);
  }
}
