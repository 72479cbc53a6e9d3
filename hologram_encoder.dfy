/** Hologram encoder: the 8-bit grayscale form of a hologram phase map. The
    phase is min-max normalised to [0,1], scaled by 255 and converted to an
    unsigned byte, which truncates towards zero. The original [min, max] range
    is reported beside the grades so that the affine map can be inverted. */
module HologramEncoder {
  import opened Grids

  /** The grade of one phase value: `uint8(255 * (x - mn) / (mx - mn))`. */
  function Grade(x: real, mn: real, mx: real): (g: int)
    requires mn < mx && mn <= x <= mx
    ensures 0 <= g <= 255
    ensures x == mn ==> g == 0
    ensures x == mx ==> g == 255
  {
    Unit(x - mn, mx - mn);
    ((x - mn) / (mx - mn) * 255.0).Floor
  }

  /** The value a grade stands for under the reported range: the inverse affine map. */
  function Level(g: int, mn: real, mx: real): real {
    mn + g as real * (mx - mn) / 255.0
  }

  /** One quantisation step in phase units. */
  function Step(mn: real, mx: real): real {
    (mx - mn) / 255.0
  }

  lemma Unit(a: real, d: real)
    requires d > 0.0 && 0.0 <= a <= d
    ensures 0.0 <= a / d <= 1.0
    ensures a == 0.0 ==> a / d == 0.0
    ensures a == d ==> a / d == 1.0
    ensures (a / d) * d == a
  {
  }

  /** Grades are monotone in the phase value. */
  lemma GradeMonotone(x: real, y: real, mn: real, mx: real)
    requires mn < mx && mn <= x <= y <= mx
    ensures Grade(x, mn, mx) <= Grade(y, mn, mx)
  {
    Unit(x - mn, mx - mn);
    Unit(y - mn, mx - mn);
    var d := mx - mn;
    assert (y - mn) / d - (x - mn) / d == (y - x) / d;
    Unit(y - x, d);
  }

  /** Decoding a grade with the reported range lands at most one step below the
      original value, never above it: truncation makes the error one-sided. */
  lemma {:induction false} RoundTrip(x: real, mn: real, mx: real)
    requires mn < mx && mn <= x <= mx
    ensures Level(Grade(x, mn, mx), mn, mx) <= x < Level(Grade(x, mn, mx), mn, mx) + Step(mn, mx)
  {
    var d := mx - mn;
    Unit(x - mn, d);
    var q := (x - mn) / d;
    var g := Grade(x, mn, mx);
    assert g == (q * 255.0).Floor;
    Bracket(x - mn, d, q, g as real);
  }

  /** With `a == q * d` and `g` the integer part of `255 * q`, the level
      `g * d / 255` lies at most one step `d / 255` below `a`. */
  lemma Bracket(a: real, d: real, q: real, g: real)
    requires d > 0.0 && q * d == a
    requires g <= q * 255.0 < g + 1.0
    ensures g * d / 255.0 <= a < g * d / 255.0 + d / 255.0
  {
    var e := q * 255.0 - g;
    Distribute(q, d, g);
    assert a - g * d / 255.0 == e * d / 255.0;
    Fraction(e, d);
  }

  lemma Distribute(q: real, d: real, g: real)
    ensures (q * 255.0 - g) * d / 255.0 == q * d - g * d / 255.0
  {
  }

  lemma Fraction(e: real, d: real)
    requires 0.0 <= e < 1.0 && d > 0.0
    ensures 0.0 <= e * d / 255.0 < d / 255.0
  {
  }

  /** What the encoder produces and reports: the grades and the original phase range. */
  datatype Encoded = Encoded(grades: Grid<int>, low: real, high: real)

  /** Quantisation of a whole phase map: its own minimum and maximum set the
      range, every entry becomes a grade, the range is reported. */
  function Encode(phase: Grid<real>): (e: Encoded)
    requires |Flatten(phase)| > 0
    requires MinOf(Flatten(phase)) < MaxOf(Flatten(phase))
    ensures e.low in Flatten(phase) && e.high in Flatten(phase)
    ensures forall x | x in Flatten(phase) :: e.low <= x <= e.high
    ensures |e.grades| == |phase|
    ensures forall i | 0 <= i < |phase| :: |e.grades[i]| == |phase[i]|
    ensures forall i, j | 0 <= i < |phase| && 0 <= j < |phase[i]| ::
              && 0 <= e.grades[i][j] <= 255
              && (phase[i][j] == e.low ==> e.grades[i][j] == 0)
              && (phase[i][j] == e.high ==> e.grades[i][j] == 255)
  {
    var mn, mx := MinOf(Flatten(phase)), MaxOf(Flatten(phase));
    var grades := seq(|phase|, i requires 0 <= i < |phase| =>
                    seq(|phase[i]|, j requires 0 <= j < |phase[i]| =>
                      InFlatten(phase, i, j);
                      Grade(phase[i][j], mn, mx)));
    Encoded(grades, mn, mx)
  }

  /** Every entry of the phase map is recovered from its grade and the reported
      range to within one step, from below. */
  lemma EncodeRoundTrip(phase: Grid<real>, i: nat, j: nat)
    requires |Flatten(phase)| > 0
    requires MinOf(Flatten(phase)) < MaxOf(Flatten(phase))
    requires i < |phase| && j < |phase[i]|
    ensures var e := Encode(phase);
            Level(e.grades[i][j], e.low, e.high) <= phase[i][j]
            < Level(e.grades[i][j], e.low, e.high) + Step(e.low, e.high)
  {
    var e := Encode(phase);
    InFlatten(phase, i, j);
    assert e.grades[i][j] == Grade(phase[i][j], e.low, e.high);
    RoundTrip(phase[i][j], e.low, e.high);
  }

  /** Grades preserve the order of phase values across the map. */
  lemma EncodeMonotone(phase: Grid<real>, i: nat, j: nat, k: nat, l: nat)
    requires |Flatten(phase)| > 0
    requires MinOf(Flatten(phase)) < MaxOf(Flatten(phase))
    requires i < |phase| && j < |phase[i]| && k < |phase| && l < |phase[k]|
    requires phase[i][j] <= phase[k][l]
    ensures Encode(phase).grades[i][j] <= Encode(phase).grades[k][l]
  {
    var e := Encode(phase);
    InFlatten(phase, i, j);
    InFlatten(phase, k, l);
    GradeMonotone(phase[i][j], phase[k][l], e.low, e.high);
  }
}
