# Phase-only Fourier hologram synthesis — a Dafny model

This project models the deterministic core of a Gerchberg–Saxton (GS) hologram generator. The generator takes a 1080×1920 grayscale image of a glyph and validates it. It then stretches its contrast into an amplitude target. It runs GS phase retrieval between the image plane and the hologram (spatial light modulator) plane, brightens the simulated reconstruction, and quantises the hologram phase to 8-bit grades. Values are idealised as Dafny `real` and `int`.

The project has five modules:

- `Grids` (`grids.dfy`): grids as `seq<seq<T>>` with numpy's shape. It also holds the whole-array operations used: element-wise maps, row-major flattening, min, max, boolean filtering, mean and clip.
- `TargetPreparation` (`target_preparation.dfy`): target preparation, taken out of `main` into its own function. The expected height and width are parameters. A second version, `PrepareAsWritten`, has no flat-contrast guard and models the source's floating-point division by zero (see Findings).
- `HologramEncoder` (`hologram_encoder.dfy`): the min-max normalisation and `uint8` conversion of the hologram phase. `astype(np.uint8)` truncates, and the model follows it, so the round-trip error is one-sided: at most one step, from below. It also reports the original phase range and gives the affine map back from grades to phase.
- `PhaseRetrieval` (`phase_retrieval.dfy`): the GS loop, written as an imperative method. It is proved against pure specification functions for one pass, the carried phase after `n` passes, and the log of residual reports. The FFT, inverse FFT, `a·exp(jφ)`, `angle` and `abs` are function fields of an `Optics` value. The GS loop and its report schedule assume only that the two transforms keep the grid's shape. The two amplitude-constraint lemmas also assume that `polar(m, t)` has modulus `m` for every `m >= 0`.
- `Synthesis` (`synthesis.dfy`): the run that `main` performs (prepare, 100 GS passes, brightness boost). The random initial phase is passed in as a parameter.

## Model

| member | source | states |
|---|---|---|
| `Grids.Positives` | holography_encoding_dfft_fresnel_gs.py:113 | `target_array[target_array > 0]`: exactly the strictly positive values are kept |
| `Grids.MinOf` | holography_encoding_dfft_fresnel_gs.py:117 | `np.min` returns an element of the array that is no greater than any element |
| `Grids.MaxOf` | holography_encoding_dfft_fresnel_gs.py:118 | `np.max` returns an element of the array that is no smaller than any element |
| `Grids.FlattenLength` | holography_encoding_dfft_fresnel_gs.py:37 | an h×w array has h·w elements, so the mean in the residual divides by the pixel count |
| `TargetPreparation.Prepare` | holography_encoding_dfft_fresnel_gs.py:106-121 | a wrong shape gives a shape error carrying expected and actual sizes, before anything else is looked at. A correctly shaped image with no lit pixel gives the all-black error. A lit image whose lit pixels all equal the maximum gives the flat-contrast error. The target is accepted exactly when the image is correctly shaped, lit and `min_val < max_val`. When accepted, the target has the image's shape, every amplitude is in [0,1], maximum pixels map to 1, pixels at or below `min_val` (including zero background) map to 0, and each amplitude is the stretch of its pixel |
| `TargetPreparation.Extremes` | holography_encoding_dfft_fresnel_gs.py:113-118 | on a lit image `min_val` is the least lit pixel and `max_val` the greatest pixel. Both are attained by some pixel, and `0 < min_val <= max_val` |
| `TargetPreparation.Stretch` | holography_encoding_dfft_fresnel_gs.py:120-121 | the stretched and clamped value is in [0,1]. It is 0 at or below `min_val` and 1 at or above `max_val`. In between it is the exact fraction of the way from `min_val` to `max_val` |
| `TargetPreparation.StretchMonotone` | holography_encoding_dfft_fresnel_gs.py:120-121 | the stretch never reverses the order of two intensities |
| `TargetPreparation.PrepareMonotone` | holography_encoding_dfft_fresnel_gs.py:120-121 | a brighter pixel never gets a smaller target amplitude |
| `TargetPreparation.Quotient` | holography_encoding_dfft_fresnel_gs.py:120 | floating-point division: the exact quotient for a non-zero divisor. With a zero divisor it is +inf for a positive dividend, −inf for a negative one and NaN for zero |
| `TargetPreparation.ClipUnit` | holography_encoding_dfft_fresnel_gs.py:121 | `np.clip(·, 0, 1)` on a float keeps values in [0,1]. Values below 0 and −inf give 0, values above 1 and +inf give 1, and NaN stays NaN |
| `TargetPreparation.PrepareAsWritten` | holography_encoding_dfft_fresnel_gs.py:109-121 | the unguarded preparation gives the same shape error (with expected and actual sizes) and all-black error as the guarded one. It accepts exactly the correctly shaped lit images, and its target has the image's shape |
| `TargetPreparation.AsWrittenAgrees` | holography_encoding_dfft_fresnel_gs.py:109-121 | wherever the guarded preparation accepts, the source computes the same finite target |
| `TargetPreparation.FlatContrastYieldsNaN` | holography_encoding_dfft_fresnel_gs.py:117-121 | on a lit image with `min_val == max_val`, the source's target is NaN at every pixel equal to `max_val`, and such a pixel exists. Every darker pixel (negative over zero, −inf) clips to 0. The guarded preparation rejects the image instead |
| `TargetPreparation.FlatContrastExample` | holography_encoding_dfft_fresnel_gs.py:117-121 | the 1×2 image `[[0, 200]]` becomes `[[0, NaN]]` in the source and is rejected with the flat-contrast error by the model |
| `HologramEncoder.Grade` | holography_encoding_dfft_fresnel_gs.py:50-51 | every grade is an integer in [0,255]. The phase minimum maps to 0 and the phase maximum to 255 |
| `HologramEncoder.GradeMonotone` | holography_encoding_dfft_fresnel_gs.py:50-51 | grades are monotone in the phase value |
| `HologramEncoder.RoundTrip` | holography_encoding_dfft_fresnel_gs.py:50-51 | decoding a grade as `mn + g·(mx − mn)/255` gives a value `d` with `d <= x < d + (mx − mn)/255`. The error is one-sided because the conversion truncates |
| `HologramEncoder.Encode` | holography_encoding_dfft_fresnel_gs.py:50-51 | the low and high bounds are the exact minimum and maximum of the phase map (line 64 prints them rounded). The grades have the map's shape and lie in [0,255]. Entries at the low bound grade 0 and entries at the high bound grade 255 |
| `HologramEncoder.EncodeRoundTrip` | holography_encoding_dfft_fresnel_gs.py:50-51 | every phase entry is recovered from its grade and the exact computed bounds to within one step, from below |
| `HologramEncoder.EncodeMonotone` | holography_encoding_dfft_fresnel_gs.py:50-51 | grades keep the order of phase values across the whole map |
| `PhaseRetrieval.TargetField` | holography_encoding_dfft_fresnel_gs.py:27 | the image-plane field `A·exp(jφ)` has the target's shape |
| `PhaseRetrieval.TargetAmplitudeImposed` | holography_encoding_dfft_fresnel_gs.py:27 | if `a·exp(jφ)` has modulus `a`, the image-plane field of a pass has exactly the target amplitude at every pixel |
| `PhaseRetrieval.DeviceAmplitudeImposed` | holography_encoding_dfft_fresnel_gs.py:33 | under the same assumption, the hologram-plane field `exp(jφ_h)` has unit amplitude at every pixel |
| `PhaseRetrieval.GsPass` | holography_encoding_dfft_fresnel_gs.py:27-34 | one pass yields a hologram phase, a reconstructed field and a next phase, all of the target's shape |
| `PhaseRetrieval.PhaseAfter` | holography_encoding_dfft_fresnel_gs.py:26-34 | the phase carried through any number of passes keeps the target's shape |
| `PhaseRetrieval.Residual` | holography_encoding_dfft_fresnel_gs.py:37 | the mean squared amplitude error is never negative |
| `PhaseRetrieval.ReportSchedule` | holography_encoding_dfft_fresnel_gs.py:36-38 | `n` passes emit exactly `n / 10` reports. The `k`-th comes after pass `10·(k+1)` and carries the residual of that pass's reconstruction |
| `PhaseRetrieval.GerchbergSaxton` | holography_encoding_dfft_fresnel_gs.py:21-40 | with at least one iteration, the returned hologram phase and reconstructed amplitude have the target's shape and come from the last pass of the iteration started at the given phase. The reports are exactly the report log: `iterations / 10` of them, at passes 10, 20, …. Reporting does not affect the carried phase |
| `Synthesis.Boost` | holography_encoding_dfft_fresnel_gs.py:136 | the boosted reconstruction has the same shape and lies in [0,1]. Non-positive values map to 0 and values at or above 1/1.2 map to 1. Otherwise a value is scaled by exactly 1.2 |
| `Synthesis.BoostBrightens` | holography_encoding_dfft_fresnel_gs.py:136 | the boost never darkens a value that was in [0,1] |
| `Synthesis.Synthesize` | holography_encoding_dfft_fresnel_gs.py:104-136 | a rejected image ends the run with the preparation's own error, before any GS pass. An accepted image gives the prepared target. The hologram phase is that of GS pass 100 from the given initial phase on that target. The reconstruction is the boost of pass 100's amplitude. The reports are the report log of those 100 passes. The hologram phase and reconstruction are 1080×1920, every reconstructed amplitude is in [0,1], and there are 10 reports |

## Findings

| source | as written | input that shows it | evidently intended | confidence | as-written member | corrected member |
|---|---|---|---|---|---|---|
| holography_encoding_dfft_fresnel_gs.py:117-121 | `(target_array - min_val) / (max_val - min_val)` with no check that `max_val > min_val`. When every lit pixel has the same value, a lit pixel gives 0/0 = NaN, which `np.clip` keeps, and the background gives −inf, which clips to 0 | the 1×2 image `[[0, 200]]` (or any correctly sized image whose lit pixels are all one value): its target becomes `[[0, NaN]]` | reject the image with a degenerate-input error distinct from the shape and all-black errors, instead of passing NaN into the phase retrieval | high (not executed) | `TargetPreparation.FlatContrastExample` | `TargetPreparation.Prepare` |

## Deviations

- Target preparation returns a `FlatContrast` error when `max_val == min_val`. The code produces NaN there (see Findings).

## Left out

- Image loading (`Image.open(...).convert('L')`), the missing-file and decode-error messages, all printing, plotting and PNG writing are I/O. The model takes a decoded `Grid<Pixel>` and returns errors and reports as values.
- The random initial phase (`np.random.uniform(0, 2π)`) comes from the environment, so it is a parameter. The model does not constrain it to [0, 2π).
- The FFT, inverse FFT, complex exponential, `np.angle` and `np.abs` are floating-point library numerics. They are parameters of type `Optics`. The GS loop and its report schedule assume only that the two transforms keep the grid's shape. The two amplitude-constraint lemmas also assume that `polar(m, t)` has modulus `m` for every `m >= 0`. `A·exp(jφ)` is one primitive `polar(A, φ)`.
- Wavelength, focal length, pixel size, the wave number `k` and the imaging focal length are computed or passed but never used by the transform, so they are left out.
- Floating-point precision (`float32` pixels, `float64` phase) is idealised to exact reals. Only the division by zero at line 120 is modelled in floating-point terms, in `PrepareAsWritten`.
- `HologramEncoder.EncodeRoundTrip`: the range printed at line 64 is rounded to two decimals. The one-step round trip is proved for the exact `np.min`/`np.max` bounds, not for the printed ones.
- The report text (`迭代 i/N, 均方误差: …`, six decimals) is reduced to the pair (pass number, residual).
- `HologramEncoder.Encode`: requires a non-empty phase map whose minimum is below its maximum. The source would raise on an empty array and divide by zero on a constant one.
- The default `iterations=50` of `gerchberg_saxton_fourier` (line 11) is not modelled. The iteration count is always an explicit parameter, and `main` passes 100.
- `PhaseRetrieval.GerchbergSaxton`: requires at least one iteration, because the source returns a `hologram_phase` that is never bound when there are no iterations. It also requires a non-empty target, because the residual's mean over no pixels is NaN.
- `Synthesis.Synthesize`: stops after the brightness boost. The save at line 143 is modelled by `HologramEncoder.Encode`, whose precondition (a non-constant phase map) depends on the abstract transforms and so cannot be established here.
- generate_light_character_1080p.py is not part of this model. It draws the glyph image with a system font and PIL.
