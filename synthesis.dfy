/** The hologram synthesis run: prepare the 1080p target, run one hundred
    Gerchberg–Saxton passes from a given initial phase, and brighten the
    reconstruction by a fixed gain clamped to [0,1]. Image decoding, plotting
    and file output are left to the caller. */
module Synthesis {
  import opened Grids
  import opened TargetPreparation
  import opened PhaseRetrieval

  const Height: nat := 1080
  const Width: nat := 1920
  const Iterations: nat := 100

  /** The reconstruction brightness gain. */
  const Gain: real := 1.2

  /** The reconstruction brightened by `Gain` and clamped to [0,1]. */
  function Boost(r: Grid<real>): (b: Grid<real>)
    ensures |b| == |r| && forall i | 0 <= i < |r| :: |b[i]| == |r[i]|
    ensures forall i, j | 0 <= i < |r| && 0 <= j < |r[i]| ::
              && 0.0 <= b[i][j] <= 1.0
              && (r[i][j] <= 0.0 ==> b[i][j] == 0.0)
              && (r[i][j] * Gain >= 1.0 ==> b[i][j] == 1.0)
              && (0.0 <= r[i][j] * Gain <= 1.0 ==> b[i][j] == r[i][j] * Gain)
  {
    var b := MapGrid(x => Clip(x * Gain, 0.0, 1.0), r);
    assert forall i, j | 0 <= i < |r| && 0 <= j < |r[i]| :: b[i][j] == Clip(r[i][j] * Gain, 0.0, 1.0);
    b
  }

  /** The boost never darkens a pixel that was inside [0,1]. */
  lemma BoostBrightens(r: Grid<real>, i: nat, j: nat)
    requires i < |r| && j < |r[i]|
    requires 0.0 <= r[i][j] <= 1.0
    ensures r[i][j] <= Boost(r)[i][j]
  {
  }

  /** The deliverables of a run. */
  datatype Outputs = Outputs(
    target: Grid<real>,
    hologramPhase: Grid<real>,
    reconstruction: Grid<real>,
    reports: seq<Report>)

  /** One synthesis run on a decoded grayscale image. `phase0` stands for the
      uniformly random initial phase; `o` for the numerical primitives. */
  method Synthesize(o: Optics, image: Grid<Pixel>, phase0: Grid<real>) returns (r: Result<Outputs>)
    requires Propagates(o)
    requires HasShape(phase0, Height, Width)
    ensures r.Err? <==> Prepare(image, Height, Width).Err?
    ensures r.Err? ==> r.error == Prepare(image, Height, Width).error
    ensures r.Ok? ==>
              && r.value.target == Prepare(image, Height, Width).value
              && HasShape(r.value.hologramPhase, Height, Width)
              && HasShape(r.value.reconstruction, Height, Width)
              && (forall i, j | 0 <= i < Height && 0 <= j < Width ::
                    0.0 <= r.value.reconstruction[i][j] <= 1.0)
              && |r.value.reports| == Iterations / 10
    ensures r.Ok? ==>
              var t := r.value.target;
              Ready(o, t, phase0)
              && r.value.hologramPhase == NthPass(o, t, phase0, Iterations).hologramPhase
              && r.value.reconstruction == Boost(Amplitudes(o, NthPass(o, t, phase0, Iterations).field))
              && r.value.reports == ReportLog(o, t, phase0, Iterations)
  {
    var prepared := Prepare(image, Height, Width);
    if prepared.Err? {
      return Err(prepared.error);
    }
    var target := prepared.value;
    var hologramPhase, reconstruction, reports := GerchbergSaxton(o, target, phase0, Iterations);
    reconstruction := Boost(reconstruction);
    r := Ok(Outputs(target, hologramPhase, reconstruction, reports));
  }
}
