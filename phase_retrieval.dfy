/** Gerchberg–Saxton phase retrieval for a Fourier hologram. Each pass imposes
    the target amplitude in the image plane, propagates to the hologram plane,
    keeps only the phase there (a phase-only modulator has unit amplitude),
    propagates back and keeps the resulting phase for the next pass. Every tenth
    pass reports the mean squared error between the reconstructed and the
    target amplitude.

    The numerical primitives (the 2-D FFT and its inverse, the complex
    exponential, the argument and the modulus of a complex number) are
    parameters: the model fixes how the iteration is built from them, not their
    floating-point values. */
module PhaseRetrieval {
  import opened Grids

  datatype Complex = Complex(re: real, im: real)

  /** The primitives one pass is built from. `polar(a, t)` is `a * exp(j*t)`. */
  datatype Optics = Optics(
    fft2: Grid<Complex> -> Grid<Complex>,
    ifft2: Grid<Complex> -> Grid<Complex>,
    polar: (real, real) -> Complex,
    angle: Complex -> real,
    abs: Complex -> real)

  /** A discrete transform over the full grid: no padding, no cropping. */
  ghost predicate PreservesShape(f: Grid<Complex> -> Grid<Complex>) {
    forall g: Grid<Complex>, h: nat, w: nat {:trigger HasShape(f(g), h, w)} ::
      HasShape(g, h, w) ==> HasShape(f(g), h, w)
  }

  ghost predicate Propagates(o: Optics) {
    PreservesShape(o.fft2) && PreservesShape(o.ifft2)
  }

  /** The image-plane field `A * exp(j*phase)`: amplitude fixed to the target. */
  function TargetField(o: Optics, a: Grid<real>, phase: Grid<real>): (f: Grid<Complex>)
    requires Rectangular(a) && ShapedLike(phase, a)
    ensures ShapedLike(f, a)
  {
    ZipGrid(o.polar, a, phase)
  }

  /** The hologram-plane field `exp(j*phase)`: unit amplitude everywhere. */
  function PhaseOnly(o: Optics, phase: Grid<real>): (f: Grid<Complex>)
    ensures |f| == |phase| && forall i | 0 <= i < |phase| :: |f[i]| == |phase[i]|
  {
    MapGrid(t => o.polar(1.0, t), phase)
  }

  function Angles(o: Optics, field: Grid<Complex>): (phase: Grid<real>)
    ensures |phase| == |field| && forall i | 0 <= i < |field| :: |phase[i]| == |field[i]|
  {
    MapGrid(o.angle, field)
  }

  function Amplitudes(o: Optics, field: Grid<Complex>): (amp: Grid<real>)
    ensures |amp| == |field| && forall i | 0 <= i < |field| :: |amp[i]| == |field[i]|
  {
    MapGrid(o.abs, field)
  }

  /** What one pass produces: the hologram phase, the reconstructed field and
      the phase carried into the next pass. */
  datatype Pass = Pass(hologramPhase: Grid<real>, field: Grid<Complex>, phase: Grid<real>)

  /** One Gerchberg–Saxton pass from the carried phase. */
  function GsPass(o: Optics, a: Grid<real>, phase: Grid<real>): (p: Pass)
    requires Propagates(o) && Rectangular(a) && ShapedLike(phase, a)
    ensures ShapedLike(p.hologramPhase, a) && ShapedLike(p.field, a) && ShapedLike(p.phase, a)
  {
    var spectrum := o.fft2(TargetField(o, a, phase));
    assert HasShape(spectrum, |a|, Cols(a));
    var hologramPhase := Angles(o, spectrum);
    var field := o.ifft2(PhaseOnly(o, hologramPhase));
    assert HasShape(field, |a|, Cols(a));
    Pass(hologramPhase, field, Angles(o, field))
  }

  /** What the iteration needs: shape-preserving transforms, a non-empty
      rectangular target and an initial phase of the target's shape. */
  ghost predicate Ready(o: Optics, a: Grid<real>, phase0: Grid<real>) {
    Propagates(o) && Rectangular(a) && |a| > 0 && Cols(a) > 0 && ShapedLike(phase0, a)
  }

  /** The carried phase after `n` passes from `phase0`. */
  function PhaseAfter(o: Optics, a: Grid<real>, phase0: Grid<real>, n: nat): (phase: Grid<real>)
    requires Ready(o, a, phase0)
    ensures ShapedLike(phase, a)
  {
    if n == 0 then phase0 else GsPass(o, a, PhaseAfter(o, a, phase0, n - 1)).phase
  }

  /** The `n`-th pass (counting from 1). */
  function NthPass(o: Optics, a: Grid<real>, phase0: Grid<real>, n: nat): (p: Pass)
    requires Ready(o, a, phase0) && n >= 1
    ensures ShapedLike(p.hologramPhase, a) && ShapedLike(p.field, a)
  {
    GsPass(o, a, PhaseAfter(o, a, phase0, n - 1))
  }

  /** `(|R| - A) ** 2`, entry by entry. */
  function SquaredErrors(o: Optics, field: Grid<Complex>, a: Grid<real>): (e: Grid<real>)
    requires Rectangular(a) && ShapedLike(field, a)
    ensures ShapedLike(e, a)
    ensures forall i, j | 0 <= i < |a| && 0 <= j < |a[i]| :: e[i][j] >= 0.0
  {
    ZipGrid((m: real, t: real) => (m - t) * (m - t), Amplitudes(o, field), a)
  }

  lemma ErrorsNonNegative(e: Grid<real>, a: Grid<real>)
    requires ShapedLike(e, a)
    requires forall i, j | 0 <= i < |e| && 0 <= j < |e[i]| :: e[i][j] >= 0.0
    ensures forall k | 0 <= k < |Flatten(e)| :: Flatten(e)[k] >= 0.0
  {
    var s := Flatten(e);
    forall k | 0 <= k < |s| ensures s[k] >= 0.0 {
      var i, j := FromFlatten(e, s[k]);
    }
  }

  /** The residual: the mean squared error between the reconstructed and the
      target amplitude; never negative. */
  function Residual(o: Optics, field: Grid<Complex>, a: Grid<real>): (mse: real)
    requires Rectangular(a) && |a| > 0 && Cols(a) > 0 && ShapedLike(field, a)
    ensures mse >= 0.0
  {
    var e := SquaredErrors(o, field, a);
    FlattenLength(e, |a|, Cols(a));
    ErrorsNonNegative(e, a);
    MeanNonNegative(Flatten(e));
    Mean(Flatten(e))
  }

  /** A convergence report: the pass number (from 1) and its residual. */
  datatype Report = Report(iteration: nat, residual: real)

  /** The reports the first `n` passes emit: one after every tenth pass. */
  function ReportLog(o: Optics, a: Grid<real>, phase0: Grid<real>, n: nat): seq<Report>
    requires Ready(o, a, phase0)
  {
    if n == 0 then []
    else
      ReportLog(o, a, phase0, n - 1)
      + if n % 10 == 0 then [Report(n, Residual(o, NthPass(o, a, phase0, n).field, a))] else []
  }

  lemma ReportStep(o: Optics, a: Grid<real>, phase0: Grid<real>, n: nat)
    requires Ready(o, a, phase0) && n >= 1
    ensures n % 10 != 0 ==> ReportLog(o, a, phase0, n) == ReportLog(o, a, phase0, n - 1)
    ensures n % 10 == 0 ==>
              (ReportLog(o, a, phase0, n)
               == ReportLog(o, a, phase0, n - 1) + [Report(n, Residual(o, NthPass(o, a, phase0, n).field, a))])
  {
  }

  /** `n` passes emit `n / 10` reports, the `k`-th after pass `10 * (k + 1)`,
      carrying that pass's residual. */
  lemma {:induction false} ReportSchedule(o: Optics, a: Grid<real>, phase0: Grid<real>, n: nat)
    requires Ready(o, a, phase0)
    ensures |ReportLog(o, a, phase0, n)| == n / 10
    ensures forall k | 0 <= k < n / 10 ::
              ReportLog(o, a, phase0, n)[k]
              == Report(10 * (k + 1), Residual(o, NthPass(o, a, phase0, 10 * (k + 1)).field, a))
  {
    if n > 0 {
      ReportSchedule(o, a, phase0, n - 1);
      if n % 10 == 0 {
        assert n / 10 == (n - 1) / 10 + 1;
        assert 10 * ((n - 1) / 10 + 1) == n;
      } else {
        assert n / 10 == (n - 1) / 10;
      }
    }
  }

  /** The iteration as the source runs it: `iterations` passes from the initial
      phase, then the last pass's hologram phase and reconstructed amplitude. */
  method GerchbergSaxton(o: Optics, a: Grid<real>, phase0: Grid<real>, iterations: nat)
    returns (hologramPhase: Grid<real>, reconstruction: Grid<real>, reports: seq<Report>)
    requires Ready(o, a, phase0)
    requires iterations >= 1
    ensures ShapedLike(hologramPhase, a) && ShapedLike(reconstruction, a)
    ensures hologramPhase == NthPass(o, a, phase0, iterations).hologramPhase
    ensures reconstruction == Amplitudes(o, NthPass(o, a, phase0, iterations).field)
    ensures reports == ReportLog(o, a, phase0, iterations)
    ensures |reports| == iterations / 10
    ensures forall k | 0 <= k < |reports| :: reports[k].iteration == 10 * (k + 1)
  {
    var phase := phase0;
    var field: Grid<Complex> := [];
    hologramPhase := [];
    reports := [];
    for i := 0 to iterations
      invariant phase == PhaseAfter(o, a, phase0, i)
      invariant i >= 1 ==> hologramPhase == NthPass(o, a, phase0, i).hologramPhase
      invariant i >= 1 ==> field == NthPass(o, a, phase0, i).field
      invariant reports == ReportLog(o, a, phase0, i)
    {
      ghost var pass := NthPass(o, a, phase0, i + 1);
      var complexField := TargetField(o, a, phase);
      var spectrum := o.fft2(complexField);
      hologramPhase := Angles(o, spectrum);
      field := o.ifft2(PhaseOnly(o, hologramPhase));
      phase := Angles(o, field);
      assert hologramPhase == pass.hologramPhase && field == pass.field && phase == pass.phase;
      if (i + 1) % 10 == 0 {
        var mse := Residual(o, field, a);
        reports := reports + [Report(i + 1, mse)];
      }
      assert reports == ReportLog(o, a, phase0, i + 1) by {
        ReportStep(o, a, phase0, i + 1);
      }
    }
    reconstruction := Amplitudes(o, field);
    ReportSchedule(o, a, phase0, iterations);
    assert ShapedLike(reconstruction, a) by {
      assert ShapedLike(field, a);
    }
  }

  /** `polar` builds a complex number of the given modulus. */
  ghost predicate PolarKeepsModulus(o: Optics) {
    forall m: real, t: real :: m >= 0.0 ==> o.abs(o.polar(m, t)) == m
  }

  lemma PolarModulus(o: Optics, m: real, t: real)
    requires PolarKeepsModulus(o) && m >= 0.0
    ensures o.abs(o.polar(m, t)) == m
  {
  }

  /** The image-plane field of every pass has exactly the target amplitude. */
  lemma TargetAmplitudeImposed(o: Optics, a: Grid<real>, phase: Grid<real>)
    requires PolarKeepsModulus(o)
    requires Rectangular(a) && ShapedLike(phase, a)
    requires forall i, j | 0 <= i < |a| && 0 <= j < |a[i]| :: a[i][j] >= 0.0
    ensures Amplitudes(o, TargetField(o, a, phase)) == a
  {
    var r := Amplitudes(o, TargetField(o, a, phase));
    forall i | 0 <= i < |a| ensures r[i] == a[i] {
      forall j | 0 <= j < |a[i]| ensures r[i][j] == a[i][j] {
        var f := TargetField(o, a, phase);
        assert f[i][j] == o.polar(a[i][j], phase[i][j]);
        PolarModulus(o, a[i][j], phase[i][j]);
        assert r[i][j] == o.abs(f[i][j]);
      }
    }
  }

  /** The hologram-plane field of every pass has unit amplitude everywhere. */
  lemma DeviceAmplitudeImposed(o: Optics, phase: Grid<real>, i: nat, j: nat)
    requires PolarKeepsModulus(o)
    requires i < |phase| && j < |phase[i]|
    ensures Amplitudes(o, PhaseOnly(o, phase))[i][j] == 1.0
  {
    var f := PhaseOnly(o, phase);
    assert f[i][j] == o.polar(1.0, phase[i][j]);
    PolarModulus(o, 1.0, phase[i][j]);
    assert Amplitudes(o, f)[i][j] == o.abs(f[i][j]);
  }
}
