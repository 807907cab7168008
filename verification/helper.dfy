/**
 * Layout arithmetic between flat buffer indices and (x, y) coordinates, and
 * the lifting of per-element functions to whole images.
 *
 * An image (`full_image_t`) is a flat buffer of DATA_CHANNELS_SIZE floats,
 * pixel after pixel, row after row, with the CHANNELS channels of one pixel
 * side by side. Float pixel values are modelled as reals.
 */
module Helper {
  import opened Config

  /** A position; `context` in the source holds it in two floats. */
  datatype Context = Context(x: nat, y: nat)

  /**
   * get_ctx: the coordinates of the pixel holding channel-buffer index i.
   * The index is first divided by CHANNELS, so it expects an index into the
   * channel buffer, not a pixel index.
   */
  function GetCtx(i: nat): (ctx: Context)
    ensures ctx.x < IMAGE_SIZE
    ensures ctx.y == (i / CHANNELS) / IMAGE_SIZE
    ensures GetIndex(ctx.x, ctx.y) == i / CHANNELS
  {
    var pixel := i / CHANNELS;
    var y := pixel / IMAGE_SIZE;
    Context(pixel - y * IMAGE_SIZE, y)
  }

  /**
   * get_pop_ctx: the position of individual i on the square grid of the
   * population, whose side is sqrt(POP_SIZE) == 8.
   */
  function GetPopCtx(i: nat): (ctx: Context)
    ensures ctx.x < 8
    ensures ctx.y == i / 8
    ensures ctx.y * 8 + ctx.x == i
  {
    var side := 8;
    var y := i / side;
    Context(i - y * side, y)
  }

  /** get_index: the pixel index of the pixel at column x, row y. */
  function GetIndex(x: nat, y: nat): (index: nat)
    ensures x < IMAGE_SIZE && y < IMAGE_SIZE ==> index < DATA_SIZE
    ensures x < IMAGE_SIZE ==> index / IMAGE_SIZE == y && index % IMAGE_SIZE == x
  {
    y * IMAGE_SIZE + x
  }

  /** The square root used by get_pop_ctx is exact: 8 * 8 == POP_SIZE. */
  lemma PopulationGridIsSquare()
    ensures 8 * 8 == POP_SIZE
  {
  }

  /** The three channel indices of one pixel have the same coordinates. */
  lemma {:induction false} GetCtxSamePixel(pixel: nat, channel: nat)
    requires channel < CHANNELS
    ensures GetCtx(pixel * CHANNELS + channel) == GetCtx(pixel * CHANNELS)
  {
    assert (pixel * CHANNELS + channel) / CHANNELS == pixel;
    assert (pixel * CHANNELS) / CHANNELS == pixel;
  }

  /** Every index of the channel buffer lies inside the image. */
  lemma GetCtxInImage(i: nat)
    requires i < DATA_CHANNELS_SIZE
    ensures GetCtx(i).y < IMAGE_SIZE
  {
  }

  /**
   * Round trip: get_ctx inverts get_index for every channel of a pixel
   * inside the image.
   */
  lemma {:induction false} GetCtxGetIndex(x: nat, y: nat, channel: nat)
    requires x < IMAGE_SIZE && channel < CHANNELS
    ensures GetCtx(GetIndex(x, y) * CHANNELS + channel) == Context(x, y)
  {
    var i := GetIndex(x, y);
    assert (i * CHANNELS + channel) / CHANNELS == i;
  }

  /**
   * make_single: the image whose element i is f applied to element i of a,
   * for every element of the channel buffer.
   */
  method MakeSingle(f: real -> real, a: seq<real>) returns (img: seq<real>)
    requires |a| == DATA_CHANNELS_SIZE
    ensures |img| == DATA_CHANNELS_SIZE
    ensures forall i :: 0 <= i < DATA_CHANNELS_SIZE ==> img[i] == f(a[i])
  {
    var data := new real[DATA_CHANNELS_SIZE](_ => 0.0);
    var i := 0;
    while i < DATA_CHANNELS_SIZE
      invariant 0 <= i <= DATA_CHANNELS_SIZE
      invariant forall j :: 0 <= j < i ==> data[j] == f(a[j])
    {
      data[i] := f(a[i]);
      i := i + 1;
    }
    img := data[..];
  }

  /**
   * make_double: the image whose element i is f applied to element i of a
   * and element i of b.
   */
  method MakeDouble(f: (real, real) -> real, a: seq<real>, b: seq<real>) returns (img: seq<real>)
    requires |a| == DATA_CHANNELS_SIZE && |b| == DATA_CHANNELS_SIZE
    ensures |img| == DATA_CHANNELS_SIZE
    ensures forall i :: 0 <= i < DATA_CHANNELS_SIZE ==> img[i] == f(a[i], b[i])
  {
    var data := new real[DATA_CHANNELS_SIZE](_ => 0.0);
    var i := 0;
    while i < DATA_CHANNELS_SIZE
      invariant 0 <= i <= DATA_CHANNELS_SIZE
      invariant forall j :: 0 <= j < i ==> data[j] == f(a[j], b[j])
    {
      data[i] := f(a[i], b[i]);
      i := i + 1;
    }
    img := data[..];
  }
}
