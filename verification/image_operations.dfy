/**
 * The integer and buffer-shape logic of the image operators: how kernel
 * sizes are normalised before the OpenCV filters run, which kernels the
 * blur passes use, how band_pass orders its two parameters, the hue sector
 * dispatch of hsv_to_rgb, and the fill loops of the terminal images.
 * The filters themselves are not part of this model; pixel values are
 * modelled as reals.
 */
module ImageOperations {
  import opened Config
  import opened Helper

  // ---------------------------------------------------------------------
  // Kernel sizes

  /**
   * `if (size % 2 == 0) size++`: the kernel size a filter actually uses.
   * It is the smallest odd number not below the requested size.
   */
  function EffectiveKernelSize(size: U64): (k: U64)
    ensures k % 2 == 1
    ensures size <= k <= size + 1
    ensures k == size <==> size % 2 == 1
  {
    if size % 2 == 0 then size + 1 else size
  }

  /** No odd number at or above the requested size is smaller than the effective size. */
  lemma EffectiveKernelSizeIsLeastOdd(size: U64, m: nat)
    requires m % 2 == 1 && size <= m
    ensures EffectiveKernelSize(size) <= m
  {
  }

  /** Normalising an already normalised size changes nothing. */
  lemma EffectiveKernelSizeIdempotent(size: U64)
    ensures EffectiveKernelSize(EffectiveKernelSize(size)) == EffectiveKernelSize(size)
  {
  }

  /**
   * median_blur: the size is made odd and then capped at 5, so the median
   * filter only ever runs with kernel 1, 3 or 5.
   */
  function MedianKernelSize(size: U64): (k: U64)
    ensures k % 2 == 1 && 1 <= k <= 5
    ensures size <= 5 ==> k == EffectiveKernelSize(size)
    ensures size > 5 ==> k == 5
  {
    var odd := EffectiveKernelSize(size);
    if odd > 5 then 5 else odd
  }

  /**
   * The pass loop of gaussian_blur and high_pass: after the size is made
   * odd, one Gaussian blur runs for every odd kernel i with i < size, in
   * increasing order. The kernels passed are returned in that order.
   */
  method BlurPasses(size: U64) returns (kernels: seq<U64>)
    ensures |kernels| == EffectiveKernelSize(size) / 2
    ensures forall j :: 0 <= j < |kernels| ==> kernels[j] == 2 * j + 1
    ensures forall j :: 0 <= j < |kernels| ==> kernels[j] % 2 == 1 && kernels[j] < EffectiveKernelSize(size)
  {
    var k := size;
    if k % 2 == 0 {
      k := k + 1;
    }
    kernels := [];
    var i: U64 := 1;
    while i < k
      invariant i % 2 == 1 && i <= k
      invariant |kernels| == i / 2
      invariant forall j :: 0 <= j < |kernels| ==> kernels[j] == 2 * j + 1
    {
      kernels := kernels + [i];
      i := i + 2;
    }
  }

  /** The number of blur passes is (effective size - 1) / 2: none for sizes 0 and 1. */
  lemma BlurPassCount(size: U64)
    ensures EffectiveKernelSize(size) / 2 == (EffectiveKernelSize(size) - 1) / 2
    ensures size <= 1 ==> EffectiveKernelSize(size) / 2 == 0
  {
  }

  /**
   * band_pass: the two cut-off parameters ordered as (min, max), each
   * picked by a strict comparison.
   */
  function BandLimits(fa: real, fb: real): (limits: (real, real))
    ensures limits.0 <= limits.1
    ensures multiset{limits.0, limits.1} == multiset{fa, fb}
  {
    var lo := if fa < fb then fa else fb;
    var hi := if fa > fb then fa else fb;
    (lo, hi)
  }

  /** Swapping the parameters of band_pass gives the same limits. */
  lemma BandLimitsSymmetric(fa: real, fb: real)
    ensures BandLimits(fa, fb) == BandLimits(fb, fa)
  {
  }

  // ---------------------------------------------------------------------
  // hsv_to_rgb

  /**
   * C++ integer division of a by a positive b: truncates toward zero, so
   * the remainder a - b * q takes the sign of a and is smaller than b in
   * magnitude.
   */
  function CDiv(a: int, b: nat): (q: int)
    requires b > 0
    ensures a >= 0 ==> 0 <= a - b * q < b
    ensures a < 0 ==> -(b as int) < a - b * q <= 0
  {
    if a >= 0 then a / b else -((-a) / b)
  }

  /** C++ `%` by a positive b: the remainder takes the sign of a. */
  function CRem(a: int, b: nat): (r: int)
    requires b > 0
    ensures a >= 0 ==> r == a % b
    ensures a < 0 ==> r == -((-a) % b)
    ensures -(b as int) < r < b
  {
    a - b * CDiv(a, b)
  }

  /** `static_cast<i32>` of a float: drops the fraction, rounding toward zero. */
  function TruncateToInt(f: real): (t: int)
    ensures f >= 0.0 ==> t as real <= f < t as real + 1.0
    ensures f < 0.0 ==> t as real - 1.0 < f <= t as real
  {
    if f >= 0.0 then f.Floor else -((-f).Floor)
  }

  /** An (r, g, b) triple, `blt::vec3`. */
  datatype Rgb = Rgb(r: real, g: real, b: real)

  /** The channel c of a triple, 0 red, 1 green, anything else blue. */
  function Channel(rgb: Rgb, c: nat): real
  {
    if c == 0 then rgb.r else if c == 1 then rgb.g else rgb.b
  }

  /** The branch of hsv_to_rgb's if-chain a hue takes: sector k, or none. */
  datatype HueBranch = NoSector | Sector(k: nat)

  /** Hue h lies in the k-th sixty-degree sector. */
  predicate InSector(h: int, k: nat)
  {
    60 * k <= h < 60 * (k + 1)
  }

  /**
   * The branch of the if-chain of hsv_to_rgb that matches hue h: one of the
   * six sectors [0, 60) .. [300, 360), or none when h is outside [0, 360).
   */
  function HueSector(h: int): (branch: HueBranch)
    ensures branch.Sector? ==> branch.k < 6 && InSector(h, branch.k)
  {
    if h >= 0 && h < 60 then Sector(0)
    else if h >= 60 && h < 120 then Sector(1)
    else if h >= 120 && h < 180 then Sector(2)
    else if h >= 180 && h < 240 then Sector(3)
    else if h >= 240 && h < 300 then Sector(4)
    else if h >= 300 && h < 360 then Sector(5)
    else NoSector
  }

  /**
   * For a hue in [0, 360) exactly one sector matches, sector h / 60; a hue
   * outside that range matches none.
   */
  lemma HueSectorDispatch(h: int)
    ensures 0 <= h < 360 ==> HueSector(h) == Sector(h / 60)
    ensures 0 <= h < 360 ==> forall k: nat :: InSector(h, k) <==> k == h / 60
    ensures HueSector(h) == NoSector <==> h < 0 || h >= 360
  {
  }

  /**
   * The hue of hsv_to_rgb is the truncated channel value modulo 360 in C++
   * arithmetic: it always lies in (-360, 360), and it misses every sector
   * exactly when the truncated value is negative and not a multiple of 360.
   */
  lemma CastHueSector(t: int)
    ensures -360 < CRem(t, 360) < 360
    ensures HueSector(CRem(t, 360)) == NoSector <==> t < 0 && (-t) % 360 != 0
    ensures t >= 0 ==> HueSector(CRem(t, 360)) == Sector((t % 360) / 60)
  {
    HueSectorDispatch(CRem(t, 360));
  }

  /**
   * The factor of c in the secondary component x, `1 - |((h / 60) % 2) - 1|`
   * in integer arithmetic.
   */
  function SecondaryFactor(h: int): (f: int)
    ensures h >= 0 ==> f == 0 || f == 1
    ensures h < 0 ==> -1 <= f <= 1
  {
    var d := CRem(CDiv(h, 60), 2) - 1;
    1 - (if d < 0 then -d else d)
  }

  /**
   * With integer division the secondary factor is all or nothing: for a
   * hue in [0, 360) it is 1 in the odd sectors and 0 in the even ones, so
   * x is either c or 0.
   */
  lemma SecondaryFactorValues(h: int)
    requires 0 <= h < 360
    ensures SecondaryFactor(h) == (if (h / 60) % 2 == 1 then 1 else 0)
  {
  }

  /** The (r, g, b) of sector k before m is added: c, x and 0 in the sector's order. */
  function SectorRgb(k: nat, c: real, x: real): Rgb
    requires k < 6
  {
    if k == 0 then Rgb(c, x, 0.0)
    else if k == 1 then Rgb(x, c, 0.0)
    else if k == 2 then Rgb(0.0, c, x)
    else if k == 3 then Rgb(0.0, x, c)
    else if k == 4 then Rgb(x, 0.0, c)
    else Rgb(c, 0.0, x)
  }

  /** Every sector's triple is a permutation of (c, x, 0). */
  lemma SectorRgbPermutes(k: nat, c: real, x: real)
    requires k < 6
    ensures var rgb := SectorRgb(k, c, x); multiset{rgb.r, rgb.g, rgb.b} == multiset{c, x, 0.0}
  {
  }

  /** The channel holding c in sector k: red for 0 and 5, green for 1 and 2, blue for 3 and 4. */
  function PrimaryChannel(k: nat): (c: nat)
    ensures c < 3
  {
    if k == 0 || k == 5 then 0 else if k <= 2 then 1 else 2
  }

  /**
   * The (r, g, b) of hue h with chroma c and offset m: the sector's triple
   * of c, x = c * factor and 0, or zero when no sector matches, plus m on
   * every channel.
   */
  function HsvFromChroma(h: int, c: real, m: real): (rgb: Rgb)
    ensures HueSector(h).NoSector? ==> rgb == Rgb(m, m, m)
  {
    BranchRgb(HueSector(h), c, Scale(c, SecondaryFactor(h)), m)
  }

  /**
   * `c * float(f)` for the secondary factor f, which is -1, 0 or 1;
   * spelled out case by case.
   */
  function Scale(c: real, f: int): (x: real)
    requires -1 <= f <= 1
    ensures x == c * (f as real)
  {
    if f == 0 then 0.0 else if f == 1 then c else -c
  }

  /** The triple of a branch with chroma c and secondary x, plus m on every channel. */
  function BranchRgb(branch: HueBranch, c: real, x: real, m: real): Rgb
  {
    var base := match branch
      case Sector(k) => if k < 6 then SectorRgb(k, c, x) else Rgb(0.0, 0.0, 0.0)
      case NoSector => Rgb(0.0, 0.0, 0.0);
    Rgb(base.r + m, base.g + m, base.b + m)
  }

  /**
   * For a hue in [0, 360) and a nonnegative chroma, the sector's primary
   * channel is c + m and every channel lies between m and c + m.
   */
  lemma HsvFromChromaBounds(h: int, c: real, m: real)
    requires 0 <= h < 360 && c >= 0.0
    ensures Channel(HsvFromChroma(h, c, m), PrimaryChannel(h / 60)) == c + m
    ensures forall ch :: 0 <= ch < 3 ==> m <= Channel(HsvFromChroma(h, c, m), ch) <= c + m
  {
    var f := SecondaryFactor(h);
    assert HueSector(h) == Sector(h / 60) by {
      HueSectorDispatch(h);
    }
    FactorBounds(h / 60, c, f, m);
  }

  /** With a secondary factor f of 0 or 1, x is 0 or c and the bounds of SectorBounds apply. */
  lemma FactorBounds(k: nat, c: real, f: int, m: real)
    requires k < 6 && c >= 0.0 && (f == 0 || f == 1)
    ensures Channel(BranchRgb(Sector(k), c, Scale(c, f), m), PrimaryChannel(k)) == c + m
    ensures forall ch :: 0 <= ch < 3 ==> m <= Channel(BranchRgb(Sector(k), c, Scale(c, f), m), ch) <= c + m
  {
    if f == 0 {
      assert Scale(c, f) == 0.0;
    } else {
      assert Scale(c, f) == c;
    }
    SectorBounds(k, c, Scale(c, f), m);
  }

  /** With x either 0 or c, sector k has c + m in its primary channel and every channel in [m, c + m]. */
  lemma SectorBounds(k: nat, c: real, x: real, m: real)
    requires k < 6 && c >= 0.0 && (x == 0.0 || x == c)
    ensures Channel(BranchRgb(Sector(k), c, x, m), PrimaryChannel(k)) == c + m
    ensures forall ch :: 0 <= ch < 3 ==> m <= Channel(BranchRgb(Sector(k), c, x, m), ch) <= c + m
  {
  }

  /**
   * One pixel of hsv_to_rgb: hue h is the truncated channel value mod 360,
   * c = v * s and m = v - c.
   */
  function HsvPixel(hue: real, s: real, v: real): (rgb: Rgb)
    ensures HueSector(CRem(TruncateToInt(hue), 360)).NoSector? ==> rgb == Rgb(v - v * s, v - v * s, v - v * s)
    ensures 0.0 <= hue < 360.0 ==> HueSector(CRem(TruncateToInt(hue), 360)).Sector?
  {
    var c := v * s;
    HsvFromChroma(CRem(TruncateToInt(hue), 360), c, v - c)
  }

  /**
   * A grey pixel (saturation 0) converts to value v on all three channels,
   * whatever its hue.
   */
  lemma HsvPixelGrey(hue: real, v: real)
    ensures HsvPixel(hue, 0.0, v) == Rgb(v, v, v)
  {
  }

  /**
   * For a hue in [0, 360) and nonnegative s and v the brightest channel of
   * the pixel is v, reached in the sector's primary channel, and every
   * channel lies between v - v * s and v.
   */
  lemma HsvPixelPrimary(hue: real, s: real, v: real)
    requires 0.0 <= hue < 360.0 && 0.0 <= s && 0.0 <= v
    ensures 0 <= TruncateToInt(hue) < 360
    ensures Channel(HsvPixel(hue, s, v), PrimaryChannel(TruncateToInt(hue) / 60)) == v
    ensures forall ch :: 0 <= ch < 3 ==> v - v * s <= Channel(HsvPixel(hue, s, v), ch) <= v
  {
    var h := TruncateToInt(hue);
    assert CRem(h, 360) == h;
    ProductNonnegative(v, s);
    var c := v * s;
    assert HsvPixel(hue, s, v) == HsvFromChroma(h, c, v - c);
    ChromaBelowValue(h, c, v - c, v);
  }

  /** With offset m = v - c, the chroma bounds place every channel in [m, v]. */
  lemma ChromaBelowValue(h: int, c: real, m: real, v: real)
    requires 0 <= h < 360 && c >= 0.0 && m == v - c
    ensures Channel(HsvFromChroma(h, c, m), PrimaryChannel(h / 60)) == v
    ensures forall ch :: 0 <= ch < 3 ==> m <= Channel(HsvFromChroma(h, c, m), ch) <= v
  {
    HsvFromChromaBounds(h, c, m);
  }

  lemma ProductNonnegative(a: real, b: real)
    requires 0.0 <= a && 0.0 <= b
    ensures 0.0 <= a * b
  {
  }

  /** The converted pixel p of image a, from its channels p * CHANNELS + 0, 1, 2. */
  function HsvAt(a: seq<real>, p: nat): Rgb
    requires |a| == DATA_CHANNELS_SIZE && p < DATA_SIZE
  {
    HsvPixel(a[p * CHANNELS], a[p * CHANNELS + 1], a[p * CHANNELS + 2])
  }

  /**
   * hsv_to_rgb over a whole image: the three channels of every pixel are
   * converted from (h, s, v) to (r, g, b) into a fresh buffer.
   */
  method HsvToRgb(a: seq<real>) returns (img: seq<real>)
    requires |a| == DATA_CHANNELS_SIZE
    ensures |img| == DATA_CHANNELS_SIZE
    ensures forall j :: 0 <= j < DATA_CHANNELS_SIZE ==> img[j] == Channel(HsvAt(a, j / CHANNELS), j % CHANNELS)
  {
    img := FillPixels((p: nat) requires p < DATA_SIZE => HsvAt(a, p));
  }

  // ---------------------------------------------------------------------
  // The per-pixel fill loop

  /** The three elements after the first i pixels belong to pixel i, channels 0, 1 and 2. */
  lemma PixelChannels(i: nat)
    ensures forall j :: i * CHANNELS <= j < (i + 1) * CHANNELS ==> j / CHANNELS == i && j % CHANNELS == j - i * CHANNELS
  {
  }

  /**
   * The pixel loop shared by hsv_to_rgb, vec and the gradient terminals: a
   * fresh zeroed buffer, then for every pixel i < DATA_SIZE the elements
   * i * CHANNELS + 0, 1 and 2 get the red, green and blue of pixel(i).
   */
  method FillPixels(pixel: nat --> Rgb) returns (img: seq<real>)
    requires forall p :: 0 <= p < DATA_SIZE ==> pixel.requires(p)
    ensures |img| == DATA_CHANNELS_SIZE
    ensures forall j :: 0 <= j < DATA_CHANNELS_SIZE ==> img[j] == Channel(pixel(j / CHANNELS), j % CHANNELS)
  {
    var data := new real[DATA_CHANNELS_SIZE](_ => 0.0);
    for i := 0 to DATA_SIZE
      invariant forall j :: 0 <= j < i * CHANNELS ==> data[j] == Channel(pixel(j / CHANNELS), j % CHANNELS)
    {
      var rgb := pixel(i);
      data[i * CHANNELS] := rgb.r;
      data[i * CHANNELS + 1] := rgb.g;
      data[i * CHANNELS + 2] := rgb.b;
      PixelChannels(i);
    }
    img := data[..];
  }

  // ---------------------------------------------------------------------
  // Terminal images

  /** lit: every element of the image is the one drawn value bw. */
  method Lit(bw: real) returns (img: seq<real>)
    ensures |img| == DATA_CHANNELS_SIZE
    ensures forall j :: 0 <= j < |img| ==> img[j] == bw
  {
    var data := new real[DATA_CHANNELS_SIZE](_ => 0.0);
    for i := 0 to DATA_CHANNELS_SIZE
      invariant forall j :: 0 <= j < i ==> data[j] == bw
    {
      data[i] := bw;
    }
    img := data[..];
  }

  /** img_size: every element of the image is IMAGE_SIZE. */
  method ImgSize() returns (img: seq<real>)
    ensures |img| == DATA_CHANNELS_SIZE
    ensures forall j :: 0 <= j < |img| ==> img[j] == IMAGE_SIZE as real
  {
    var data := new real[DATA_CHANNELS_SIZE](_ => 0.0);
    for i := 0 to DATA_CHANNELS_SIZE
      invariant forall j :: 0 <= j < i ==> data[j] == IMAGE_SIZE as real
    {
      data[i] := IMAGE_SIZE as real;
    }
    img := data[..];
  }

  /** vec: every pixel holds the drawn colour (r, g, b). */
  method Vec(r: real, g: real, b: real) returns (img: seq<real>)
    ensures |img| == DATA_CHANNELS_SIZE
    ensures forall j :: 0 <= j < DATA_CHANNELS_SIZE ==> img[j] == Channel(Rgb(r, g, b), j % CHANNELS)
  {
    img := FillPixels(_ => Rgb(r, g, b));
  }

  /** The coordinate a gradient terminal reads. */
  datatype Axis = X | Y

  /** The channels a gradient terminal writes its coordinate to. */
  datatype Channels = Red | Green | Blue | AllChannels

  /** Whether channel c is one of the selected channels. */
  predicate Selected(channels: Channels, c: nat)
  {
    match channels
    case Red => c == 0
    case Green => c == 1
    case Blue => c == 2
    case AllChannels => true
  }

  function Coordinate(axis: Axis, ctx: Context): nat
  {
    if axis == X then ctx.x else ctx.y
  }

  /** The element written for channel c of a pixel whose context is ctx. */
  function GradientValue(axis: Axis, channels: Channels, ctx: Context, c: nat): real
  {
    if Selected(channels, c) then Coordinate(axis, ctx) as real else 0.0
  }

  /** The three channels written for a pixel whose context is ctx. */
  function GradientPixel(axis: Axis, channels: Channels, ctx: Context): (rgb: Rgb)
    ensures forall c :: 0 <= c < 3 ==> Channel(rgb, c) == GradientValue(axis, channels, ctx, c)
  {
    Rgb(GradientValue(axis, channels, ctx, 0), GradientValue(axis, channels, ctx, 1), GradientValue(axis, channels, ctx, 2))
  }

  /**
   * op_x_r .. op_y_rgb as written: for every pixel i < DATA_SIZE the
   * coordinate is read from `get_ctx(i)` (which divides its argument by
   * CHANNELS) and written to the selected channels of pixel i; the other
   * channels get 0.
   */
  method GradientAsWritten(axis: Axis, channels: Channels) returns (img: seq<real>)
    ensures |img| == DATA_CHANNELS_SIZE
    ensures forall j :: 0 <= j < DATA_CHANNELS_SIZE ==>
              img[j] == GradientValue(axis, channels, GetCtx(j / CHANNELS), j % CHANNELS)
  {
    img := FillPixels((i: nat) => GradientPixel(axis, channels, GetCtx(i)));
  }

  /**
   * The unselected channels of every gradient image are 0, and the
   * all-channel variants write the same coordinate to the three channels
   * of a pixel.
   */
  lemma GradientChannels(axis: Axis, channels: Channels, ctx: Context, c: nat)
    ensures !Selected(channels, c) ==> GradientValue(axis, channels, ctx, c) == 0.0
    ensures channels == AllChannels ==>
              GradientValue(axis, channels, ctx, c) == Coordinate(axis, ctx) as real
  {
  }

  /**
   * The discrepancy of the gradients as written: pixel 3 sits at column 3
   * of row 0, but the x gradient gives it 1, since get_ctx reads the pixel
   * index as a channel-buffer index.
   */
  lemma GradientAsWrittenMisplaces()
    ensures GetIndex(3, 0) == 3
    ensures GradientValue(X, Red, GetCtx(3), 0) == 1.0
  {
  }

  /**
   * The gradients as evidently intended: the context of pixel i is read
   * from `get_ctx(i * CHANNELS)`, the index of the pixel's first channel.
   */
  method Gradient(axis: Axis, channels: Channels) returns (img: seq<real>)
    ensures |img| == DATA_CHANNELS_SIZE
    ensures forall j :: 0 <= j < DATA_CHANNELS_SIZE ==>
              img[j] == GradientValue(axis, channels, GetCtx(j / CHANNELS * CHANNELS), j % CHANNELS)
  {
    img := FillPixels((i: nat) => GradientPixel(axis, channels, GetCtx(i * CHANNELS)));
  }

  /**
   * The intended gradient puts each pixel's own coordinate in place: the
   * element for channel c of the pixel at column x, row y holds x (or y)
   * when c is selected.
   */
  lemma GradientPlacesCoordinates(axis: Axis, channels: Channels, x: nat, y: nat, c: nat)
    requires x < IMAGE_SIZE && y < IMAGE_SIZE && c < CHANNELS
    ensures var j := GetIndex(x, y) * CHANNELS + c;
            j < DATA_CHANNELS_SIZE && j / CHANNELS == GetIndex(x, y) && j % CHANNELS == c &&
            GradientValue(axis, channels, GetCtx(j / CHANNELS * CHANNELS), c) ==
              (if Selected(channels, c) then (if axis == X then x else y) as real else 0.0)
  {
    var j := GetIndex(x, y) * CHANNELS + c;
    assert j / CHANNELS == GetIndex(x, y);
    GetCtxGetIndex(x, y, 0);
  }
}
