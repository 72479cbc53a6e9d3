/** Target preparation: turning a decoded grayscale image into the amplitude
    target of the phase retrieval. The image must have the expected shape and at
    least one lit pixel; its contrast is then stretched so that the dimmest lit
    pixel maps to 0 and the brightest pixel to 1, with everything clamped to [0,1]. */
module TargetPreparation {
  import opened Grids

  /** A grayscale value after conversion to an 8-bit luminance image. */
  type Pixel = p: int | 0 <= p <= 255

  datatype PrepError =
    | ShapeMismatch(expectedHeight: nat, expectedWidth: nat, actualHeight: nat, actualWidth: nat)
    | AllBlack
      /** Every lit pixel has the same value as the brightest one, so the
          stretch would divide by zero. */
    | FlatContrast

  datatype Result<T> = Ok(value: T) | Err(error: PrepError)

  /** The image as an array of intensities (the float cast of the pixel array). */
  function Intensities(img: Grid<Pixel>): Grid<real> {
    MapGrid((p: Pixel) => p as real, img)
  }

  /** The strictly positive intensities, in row-major order. */
  function NonZero(img: Grid<Pixel>): seq<real> {
    Positives(Flatten(Intensities(img)))
  }

  /** Some pixel is lit. */
  predicate HasSignal(img: Grid<Pixel>) {
    |NonZero(img)| > 0
  }

  /** `min_val`: the least strictly positive intensity. */
  function MinSignal(img: Grid<Pixel>): real
    requires HasSignal(img)
  {
    MinOf(NonZero(img))
  }

  /** `max_val`: the greatest intensity over the whole image. */
  function MaxPixel(img: Grid<Pixel>): real
    requires HasSignal(img)
  {
    assert NonZero(img)[0] in Flatten(Intensities(img));
    MaxOf(Flatten(Intensities(img)))
  }

  /** The contrast stretch of one intensity, clamped to [0,1]. */
  function Stretch(x: real, lo: real, hi: real): (r: real)
    requires lo < hi
    ensures 0.0 <= r <= 1.0
    ensures x <= lo ==> r == 0.0
    ensures x >= hi ==> r == 1.0
    ensures lo <= x <= hi ==> r * (hi - lo) == x - lo
  {
    Ratio(x - lo, hi - lo);
    Clip((x - lo) / (hi - lo), 0.0, 1.0)
  }

  lemma Ratio(a: real, d: real)
    requires d > 0.0
    ensures (a / d) * d == a
    ensures a <= 0.0 ==> a / d <= 0.0
    ensures a >= 0.0 ==> a / d >= 0.0
    ensures a <= d ==> a / d <= 1.0
    ensures a >= d ==> a / d >= 1.0
  {
  }

  lemma StretchMonotone(x: real, y: real, lo: real, hi: real)
    requires lo < hi && x <= y
    ensures Stretch(x, lo, hi) <= Stretch(y, lo, hi)
  {
    assert (x - lo) / (hi - lo) <= (y - lo) / (hi - lo) by {
      assert (y - lo) / (hi - lo) - (x - lo) / (hi - lo) == (y - x) / (hi - lo);
    }
    ClipMonotone((x - lo) / (hi - lo), (y - lo) / (hi - lo), 0.0, 1.0);
  }

  /** The target preparation step, with the expected shape as parameters. */
  function Prepare(img: Grid<Pixel>, h: nat, w: nat): (r: Result<Grid<real>>)
    ensures !HasShape(img, h, w) <==> r == Err(ShapeMismatch(h, w, |img|, Cols(img)))
    ensures r == Err(AllBlack) <==> HasShape(img, h, w) && !HasSignal(img)
    ensures r == Err(FlatContrast) <==>
              HasShape(img, h, w) && HasSignal(img) && MinSignal(img) == MaxPixel(img)
    ensures r.Ok? <==> HasShape(img, h, w) && HasSignal(img) && MinSignal(img) < MaxPixel(img)
    ensures r.Ok? ==> HasShape(r.value, h, w)
    ensures r.Ok? ==> forall i, j | 0 <= i < h && 0 <= j < w ::
              && 0.0 <= r.value[i][j] <= 1.0
              && (img[i][j] as real == MaxPixel(img) ==> r.value[i][j] == 1.0)
              && (img[i][j] as real <= MinSignal(img) ==> r.value[i][j] == 0.0)
              && (img[i][j] == 0 ==> r.value[i][j] == 0.0)
              && r.value[i][j] == Stretch(img[i][j] as real, MinSignal(img), MaxPixel(img))
  {
    if !HasShape(img, h, w) then
      Err(ShapeMismatch(h, w, |img|, Cols(img)))
    else if !HasSignal(img) then
      Err(AllBlack)
    else
      var lo, hi := MinSignal(img), MaxPixel(img);
      Extremes(img);
      if lo == hi then Err(FlatContrast)
      else Ok(MapGrid(x => Stretch(x, lo, hi), Intensities(img)))
  }

  /** On a lit image, `min_val` is the least lit pixel, `max_val` the greatest
      pixel, and `0 < min_val <= max_val`. */
  lemma Extremes(img: Grid<Pixel>)
    requires HasSignal(img)
    ensures 0.0 < MinSignal(img) <= MaxPixel(img)
    ensures exists i, j | 0 <= i < |img| && 0 <= j < |img[i]| :: img[i][j] as real == MinSignal(img)
    ensures exists i, j | 0 <= i < |img| && 0 <= j < |img[i]| :: img[i][j] as real == MaxPixel(img)
    ensures forall i, j | 0 <= i < |img| && 0 <= j < |img[i]| ::
              && img[i][j] as real <= MaxPixel(img)
              && (img[i][j] > 0 ==> MinSignal(img) <= img[i][j] as real)
  {
    var a := Intensities(img);
    var lo, hi := MinSignal(img), MaxPixel(img);
    var i0, j0 := FromFlatten(a, lo);
    assert img[i0][j0] as real == lo;
    var i1, j1 := FromFlatten(a, hi);
    assert img[i1][j1] as real == hi;
    forall i, j | 0 <= i < |img| && 0 <= j < |img[i]|
      ensures img[i][j] as real <= hi
      ensures img[i][j] > 0 ==> lo <= img[i][j] as real
    {
      InFlatten(a, i, j);
      assert a[i][j] == img[i][j] as real;
    }
  }

  /** The prepared target is monotone in the pixel value. */
  lemma PrepareMonotone(img: Grid<Pixel>, h: nat, w: nat, i: nat, j: nat, k: nat, l: nat)
    requires Prepare(img, h, w).Ok?
    requires i < h && j < w && k < h && l < w
    requires img[i][j] <= img[k][l]
    ensures Prepare(img, h, w).value[i][j] <= Prepare(img, h, w).value[k][l]
  {
    StretchMonotone(img[i][j] as real, img[k][l] as real, MinSignal(img), MaxPixel(img));
  }

  // The stretch as the source writes it, without the flat-contrast check: a
  // floating-point division by zero yields an infinity or NaN, and clipping
  // keeps NaN.

  /** The outcomes of a floating-point operation that matter here. */
  datatype Float = Finite(v: real) | PosInf | NegInf | NaN

  /** Floating-point division, including division by zero. */
  function Quotient(a: real, b: real): (q: Float)
    ensures b != 0.0 ==> q == Finite(a / b)
    ensures b == 0.0 && a > 0.0 ==> q == PosInf
    ensures b == 0.0 && a < 0.0 ==> q == NegInf
    ensures b == 0.0 && a == 0.0 ==> q == NaN
  {
    if b != 0.0 then Finite(a / b)
    else if a > 0.0 then PosInf
    else if a < 0.0 then NegInf
    else NaN
  }

  /** np.clip(x, 0, 1) on a float: infinities saturate, NaN stays NaN. */
  function ClipUnit(x: Float): (r: Float)
    ensures r.Finite? <==> !x.NaN?
    ensures r.Finite? ==> 0.0 <= r.v <= 1.0
    ensures x.Finite? && 0.0 <= x.v <= 1.0 ==> r == x
    ensures x.NegInf? || (x.Finite? && x.v < 0.0) ==> r == Finite(0.0)
    ensures x.PosInf? || (x.Finite? && x.v > 1.0) ==> r == Finite(1.0)
    ensures x.NaN? ==> r == NaN
  {
    match x
    case Finite(v) => Finite(Clip(v, 0.0, 1.0))
    case PosInf => Finite(1.0)
    case NegInf => Finite(0.0)
    case NaN => NaN
  }

  function StretchAsWritten(x: real, lo: real, hi: real): Float {
    ClipUnit(Quotient(x - lo, hi - lo))
  }

  /** Target preparation exactly as the source performs it. */
  function PrepareAsWritten(img: Grid<Pixel>, h: nat, w: nat): (r: Result<Grid<Float>>)
    ensures !HasShape(img, h, w) ==> r == Err(ShapeMismatch(h, w, |img|, Cols(img)))
    ensures HasShape(img, h, w) && !HasSignal(img) ==> r == Err(AllBlack)
    ensures r.Ok? <==> HasShape(img, h, w) && HasSignal(img)
    ensures r.Ok? ==> HasShape(r.value, h, w)
  {
    if !HasShape(img, h, w) then
      Err(ShapeMismatch(h, w, |img|, Cols(img)))
    else if !HasSignal(img) then
      Err(AllBlack)
    else
      var lo, hi := MinSignal(img), MaxPixel(img);
      Ok(MapGrid(x => StretchAsWritten(x, lo, hi), Intensities(img)))
  }

  /** Where the guarded preparation accepts, it agrees with the source. */
  lemma AsWrittenAgrees(img: Grid<Pixel>, h: nat, w: nat)
    requires Prepare(img, h, w).Ok?
    ensures PrepareAsWritten(img, h, w).Ok?
    ensures forall i, j | 0 <= i < h && 0 <= j < w ::
              PrepareAsWritten(img, h, w).value[i][j] == Finite(Prepare(img, h, w).value[i][j])
  {
  }

  /** On a flat-contrast image the source's target holds NaN at every pixel
      equal to `max_val`, and there is at least one such pixel; every darker
      pixel divides a negative number by zero and clips to 0. */
  lemma FlatContrastYieldsNaN(img: Grid<Pixel>, h: nat, w: nat)
    requires HasShape(img, h, w) && HasSignal(img) && MinSignal(img) == MaxPixel(img)
    ensures PrepareAsWritten(img, h, w).Ok?
    ensures forall i, j | 0 <= i < h && 0 <= j < w && img[i][j] as real == MaxPixel(img) ::
              PrepareAsWritten(img, h, w).value[i][j] == NaN
    ensures forall i, j | 0 <= i < h && 0 <= j < w && (img[i][j] as real) < MaxPixel(img) ::
              PrepareAsWritten(img, h, w).value[i][j] == Finite(0.0)
    ensures exists i, j | 0 <= i < h && 0 <= j < w :: PrepareAsWritten(img, h, w).value[i][j] == NaN
    ensures Prepare(img, h, w) == Err(FlatContrast)
  {
    Extremes(img);
  }

  /** A 1x2 image with one lit pixel of value 200 on a black background. */
  lemma FlatContrastExample()
    ensures PrepareAsWritten([[0, 200]], 1, 2) == Ok([[Finite(0.0), NaN]])
    ensures Prepare([[0, 200]], 1, 2) == Err(FlatContrast)
  {
    var img: Grid<Pixel> := [[0, 200]];
    assert Intensities(img)[0] == [0.0, 200.0];
    assert Intensities(img) == [[0.0, 200.0]];
    assert Flatten(Intensities(img)) == [0.0, 200.0];
    assert NonZero(img) == [200.0];
    assert MinSignal(img) == 200.0;
    assert MaxPixel(img) == 200.0;
    assert StretchAsWritten(0.0, 200.0, 200.0) == Finite(0.0);
    assert StretchAsWritten(200.0, 200.0, 200.0) == NaN;
    assert PrepareAsWritten(img, 1, 2).value[0] == [Finite(0.0), NaN];
    assert PrepareAsWritten(img, 1, 2).value == [[Finite(0.0), NaN]];
  }
}
