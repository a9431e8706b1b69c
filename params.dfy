/**
 * The feature-extraction parameters of the detector and the two window
 * sizes the application derives from them (app.js, lines 9-15 and 115).
 */
module Params {

  const SampleRate: int := 16000
  const FftSize: int := 1024
  const HopSize: int := 512
  /** Mel band count; only the Meyda configuration uses it (app.js:12). */
  const NumMelBins: int := 40
  /** Number of cepstral coefficients in one feature frame. */
  const NumMfcc: int := 40

  /**
   * Number of analysis frames of `fftSize` samples, started every
   * `hopSize` samples, that fit completely into `sampleRate` samples
   * (one second of audio): floor((sampleRate - fftSize) / hopSize) + 1.
   * Dafny's `/` with a positive divisor is floor division, as Math.floor is.
   */
  function SliceCount(sampleRate: int, fftSize: int, hopSize: int): (n: int)
    requires hopSize > 0
    ensures (n - 1) * hopSize + fftSize <= sampleRate
    ensures sampleRate < n * hopSize + fftSize
  {
    var d := sampleRate - fftSize;
    var q := d / hopSize;
    assert d == q * hopSize + d % hopSize;
    assert (q + 1) * hopSize == q * hopSize + hopSize;
    q + 1
  }

  /**
   * Number of frames dropped from the head of the buffer after each
   * inference: Math.floor((hopSize / fftSize) * slices), computed on
   * integers. The result is the floor of the exact real-valued product.
   */
  function HopSliceCount(hopSize: int, fftSize: int, slices: int): (k: int)
    requires fftSize > 0
    ensures k as real <= (hopSize as real / fftSize as real) * slices as real
    ensures (hopSize as real / fftSize as real) * slices as real < k as real + 1.0
  {
    var p := hopSize * slices;
    var k := p / fftSize;
    var r := p % fftSize;
    assert p == k * fftSize + r && 0 <= r < fftSize;
    RealFloorDiv(p, fftSize, k, r);
    assert (hopSize as real / fftSize as real) * slices as real == p as real / fftSize as real;
    k
  }

  /** Real-valued reading of Euclidean division by a positive divisor. */
  lemma RealFloorDiv(p: int, f: int, k: int, r: int)
    requires f > 0 && p == k * f + r && 0 <= r < f
    ensures k as real <= p as real / f as real < k as real + 1.0
  {
    assert p as real == k as real * f as real + r as real;
    assert p as real / f as real == k as real + r as real / f as real;
  }

  /**
   * Frames per classifier window (MFCC_SLICES), and frames dropped after
   * each inference (hopSliceCount). They are written as the values the
   * formulas give, so that proofs about the buffer need no arithmetic on
   * the formulas; FormulaValues ties each to its formula.
   */
  const MfccSlices: int := 30
  const HopSlices: int := 15
  /** Scalars per classifier window: MfccSlices * NumMfcc. */
  const WindowLen: int := 1200
  /** Scalars dropped from the buffer head after each inference: HopSlices * NumMfcc. */
  const TrimLen: int := 600

  /** The window sizes are the ones the source computes from its parameters. */
  lemma FormulaValues()
    ensures MfccSlices == SliceCount(SampleRate, FftSize, HopSize)
    ensures HopSlices == HopSliceCount(HopSize, FftSize, MfccSlices)
    ensures WindowLen == MfccSlices * NumMfcc
    ensures TrimLen == HopSlices * NumMfcc
  {
  }
}
