/** One block of 16-bit PCM: its energy, its peak, and a 32-band envelope.
    Amplitudes are integers in units of 1/32768.
 */
module PcmFrame {
  import opened Wire

  type i16 = x: int | -0x8000 <= x < 0x8000

  const BANDS: nat := 32

  /** The energy is the sum of the squared samples, in units of 1/32768 squared. */
  datatype Frame = Frame(windowSize: u32, energy: nat, peak: i16, bands: seq<i16>)

  function Magnitude(x: int): nat
  {
    if x < 0 then -x else x
  }

  /** (sample < 0) ? -sample : sample, stored in 16 bits: -32768 stays itself. */
  function Abs16(x: i16): i16
  {
    if x == -0x8000 then -0x8000 else Magnitude(x)
  }

  function Square(x: int): nat
  {
    Magnitude(x) * Magnitude(x)
  }

  function Energy(samples: seq<i16>): nat
  {
    if samples == [] then
      0
    else
      Energy(samples[..|samples| - 1]) + Square(samples[|samples| - 1])
  }

  /** The largest stored absolute value, or 0. */
  ghost predicate IsPeak(samples: seq<i16>, peak: int)
  {
    && 0 <= peak
    && (forall k :: 0 <= k < |samples| ==> Abs16(samples[k]) <= peak)
    && (peak == 0 || exists k :: 0 <= k < |samples| && Abs16(samples[k]) == peak)
  }

  /** What `i` bands of this width have seen. */
  function Band(samples: seq<i16>, stride: nat, i: nat): seq<i16>
    requires (i + 1) * stride <= |samples|
  {
    samples[i * stride..(i + 1) * stride]
  }

  /** ncl_process_pcm_frame. */
  method ProcessPcmFrame(samples: seq<i16>) returns (frame: Frame)
    ensures frame.windowSize == |samples| % U32_BOUND
    ensures frame.energy == Energy(samples)
    ensures IsPeak(samples, frame.peak)
    ensures if |samples| >= 32 then IsEnvelope(samples, frame.bands) else frame.bands == seq(32, i => 0)
  {
    var energy, peak: i16 := 0, 0;
    NothingYet();
    assert samples[..0] == [];
    hide IsPeak, Square, Energy, Abs16;
    for i := 0 to |samples|
      invariant energy == Energy(samples[..i])
      invariant IsPeak(samples[..i], peak)
    {
      var sample := samples[i];
      OneMoreSample(samples, i, peak);
      energy := energy + Square(sample);
      if Abs16(sample) > peak {
        peak := Abs16(sample);
      }
    }
    assert samples[..|samples|] == samples;
    var bands: seq<i16> := seq(BANDS, i => 0);
    if |samples| >= BANDS {
      bands := Envelope(samples);
    }
    frame := Frame(|samples| % U32_BOUND, energy, peak, bands);
  }

  lemma NothingYet()
    ensures IsPeak([], 0) && Energy([]) == 0
  {
  }

  /** One turn of either loop. */
  lemma OneMoreSample(samples: seq<i16>, i: nat, peak: int)
    requires i < |samples| && IsPeak(samples[..i], peak)
    ensures Energy(samples[..i + 1]) == Energy(samples[..i]) + Square(samples[i])
    ensures IsPeak(samples[..i + 1], if Abs16(samples[i]) > peak then Abs16(samples[i]) else peak)
  {
    assert samples[..i + 1] == samples[..i] + [samples[i]];
    assert samples[..i + 1][..i] == samples[..i];
    PeakStep(samples[..i], samples[i], peak);
    hide IsPeak, Abs16, Square;
  }

  /** Band i of a block of n samples lies within it. */
  predicate BandFits(n: nat, i: nat)
  {
    (i + 1) * (n / BANDS) <= n
  }

  lemma MulMonotone(a: nat, b: nat, c: nat)
    ensures a <= b ==> a * c <= b * c
  {
  }

  lemma OneMore(n: nat, c: nat)
    ensures (n + 1) * c == n * c + c
  {
  }

  lemma BandWithin(n: nat, i: nat)
    requires i < BANDS
    ensures BandFits(n, i)
  {
    MulMonotone(i + 1, BANDS, n / BANDS);
  }

  /** The second half of ncl_process_pcm_frame. */
  method Envelope(samples: seq<i16>) returns (bands: seq<i16>)
    requires |samples| >= BANDS
    ensures IsEnvelope(samples, bands)
  {
    var stride := |samples| / BANDS;
    bands := [];
    hide IsPeak, Band;
    for i := 0 to BANDS
      invariant |bands| == i
      invariant forall b :: 0 <= b < i ==> BandFits(|samples|, b) && IsPeak(Band(samples, stride, b), bands[b])
    {
      BandWithin(|samples|, i);
      var peak := BandPeak(samples, stride, i);
      bands := bands + [peak];
    }
  }

  /** One pass of its inner loop. */
  method BandPeak(samples: seq<i16>, stride: nat, i: nat) returns (peak: i16)
    requires (i + 1) * stride <= |samples|
    ensures IsPeak(Band(samples, stride, i), peak)
  {
    ghost var band := Band(samples, stride, i);
    OneMore(i, stride);
    peak := 0;
    NothingYet();
    assert band[..0] == [] && |band| == stride;
    assert forall j :: 0 <= j < stride ==> band[j] == samples[i * stride + j];
    hide IsPeak, Band, Energy, Abs16, Square;
    for j := 0 to stride
      invariant IsPeak(band[..j], peak)
    {
      var sample := samples[i * stride + j];
      OneMoreSample(band, j, peak);
      if Abs16(sample) > peak {
        peak := Abs16(sample);
      }
    }
    assert band[..stride] == band;
  }

  lemma PeakStep(samples: seq<i16>, sample: i16, peak: int)
    requires IsPeak(samples, peak)
    ensures IsPeak(samples + [sample], if Abs16(sample) > peak then Abs16(sample) else peak)
  {
    var more := samples + [sample];
    if Abs16(sample) > peak {
      assert Abs16(more[|samples|]) == Abs16(sample);
    } else if peak > 0 {
      var k :| 0 <= k < |samples| && Abs16(samples[k]) == peak;
      assert Abs16(more[k]) == peak;
    }
  }

  // ---- The envelope against the peak ----

  /** No band exceeds the block's peak, on any block. */
  lemma BandAtMostPeak(samples: seq<i16>, peak: int, stride: nat, i: nat, band: int)
    requires IsPeak(samples, peak)
    requires (i + 1) * stride <= |samples| && IsPeak(Band(samples, stride, i), band)
    ensures band <= peak
  {
    if band > 0 {
      var k :| 0 <= k < stride && Abs16(Band(samples, stride, i)[k]) == band;
      assert Band(samples, stride, i)[k] == samples[i * stride + k];
    }
  }

  lemma BandOf(samples: seq<i16>, k: nat) returns (i: nat)
    requires k < BANDS * (|samples| / BANDS)
    ensures i < BANDS && BandFits(|samples|, i)
    ensures i * (|samples| / BANDS) <= k < (i + 1) * (|samples| / BANDS)
  {
    var stride := |samples| / BANDS;
    i := k / stride;
    assert k == i * stride + k % stride;
    MulMonotone(BANDS, i, stride);
    BandWithin(|samples|, i);
  }

  /** The bands of a block, each with its own peak. */
  ghost predicate IsEnvelope(samples: seq<i16>, bands: seq<int>)
  {
    && |bands| == 32
    && forall i :: 0 <= i < 32 ==> BandFits(|samples|, i) && IsPeak(Band(samples, |samples| / 32, i), bands[i])
  }

  ghost predicate Contains(bands: seq<int>, peak: int)
  {
    exists i :: 0 <= i < |bands| && bands[i] == peak
  }

  /** A sample at the peak lies before the remainder that the bands leave out. */
  ghost predicate PeakIsCovered(samples: seq<i16>, peak: int)
  {
    exists k :: 0 <= k < BANDS * (|samples| / BANDS) && Abs16(samples[k]) == peak
  }

  lemma CoveredPeakShows(samples: seq<i16>, peak: int, bands: seq<int>)
    requires IsEnvelope(samples, bands) && IsPeak(samples, peak)
    requires PeakIsCovered(samples, peak)
    ensures Contains(bands, peak)
  {
    var stride := |samples| / BANDS;
    var k :| 0 <= k < BANDS * stride && Abs16(samples[k]) == peak;
    var i := BandOf(samples, k);
    assert Band(samples, stride, i)[k - i * stride] == samples[k];
    BandAtMostPeak(samples, peak, stride, i, bands[i]);
    assert bands[i] == peak;
  }

  lemma BandSample(samples: seq<i16>, i: nat, j: nat) returns (k: nat)
    requires i < BANDS && j < |samples| / BANDS
    ensures BandFits(|samples|, i)
    ensures k < BANDS * (|samples| / BANDS) <= |samples|
    ensures Band(samples, |samples| / BANDS, i)[j] == samples[k]
  {
    var stride := |samples| / BANDS;
    OneMore(i, stride);
    MulMonotone(i + 1, BANDS, stride);
    k := i * stride + j;
  }

  lemma PeakAttained(samples: seq<i16>, peak: int) returns (k: nat)
    requires IsPeak(samples, peak) && peak > 0
    ensures k < |samples| && Abs16(samples[k]) == peak
  {
    k :| 0 <= k < |samples| && Abs16(samples[k]) == peak;
  }

  lemma BandLength(samples: seq<i16>, stride: nat, i: nat)
    requires (i + 1) * stride <= |samples|
    ensures |Band(samples, stride, i)| == stride
  {
    OneMore(i, stride);
  }

  lemma ShownPeakIsCovered(samples: seq<i16>, peak: int, bands: seq<int>)
    requires IsEnvelope(samples, bands) && peak > 0
    requires Contains(bands, peak)
    ensures PeakIsCovered(samples, peak)
  {
    var i :| 0 <= i < BANDS && bands[i] == peak;
    assert BandFits(|samples|, i) && IsPeak(Band(samples, |samples| / BANDS, i), peak);
    hide IsPeak, IsEnvelope, Band, Abs16, Contains;
    BandLength(samples, |samples| / BANDS, i);
    var j := PeakAttained(Band(samples, |samples| / BANDS, i), peak);
    var k := BandSample(samples, i, j);
    assert Abs16(samples[k]) == peak;
  }

  /** On every block of at least 32 samples, the loudest band shows the peak exactly when the bands cover it. */
  lemma EnvelopeShowsPeakIff(samples: seq<i16>, peak: int, bands: seq<int>)
    requires |samples| >= BANDS && IsEnvelope(samples, bands) && IsPeak(samples, peak)
    ensures Contains(bands, peak) <==> peak == 0 || PeakIsCovered(samples, peak)
  {
    if peak == 0 {
      BandAtMostPeak(samples, peak, |samples| / BANDS, 0, bands[0]);
      assert bands[0] == peak;
    } else {
      hide IsPeak, IsEnvelope, Contains, PeakIsCovered;
      if Contains(bands, peak) {
        ShownPeakIsCovered(samples, peak, bands);
      }
      if PeakIsCovered(samples, peak) {
        CoveredPeakShows(samples, peak, bands);
      }
    }
  }

  /** So it always does when 32 divides the sample count. */
  lemma WholeBlockShowsPeak(samples: seq<i16>, peak: int, bands: seq<int>)
    requires |samples| >= BANDS && |samples| % BANDS == 0
    requires IsEnvelope(samples, bands) && IsPeak(samples, peak)
    ensures Contains(bands, peak)
  {
    hide Contains, IsEnvelope;
    assert BANDS * (|samples| / BANDS) == |samples|;
    assert peak == 0 || PeakIsCovered(samples, peak);
    EnvelopeShowsPeakIff(samples, peak, bands);
  }

  // ---- The energy against the peak ----

  /** The loudest sample, without the 16-bit wrap. */
  ghost predicate IsLoudest(samples: seq<i16>, loudest: int)
  {
    && 0 <= loudest
    && (forall k :: 0 <= k < |samples| ==> Magnitude(samples[k]) <= loudest)
    && (loudest == 0 || exists k :: 0 <= k < |samples| && Magnitude(samples[k]) == loudest)
  }

  /** The reported peak is the loudest sample exactly when no sample is -32768. */
  lemma PeakIsLoudestIff(samples: seq<i16>, peak: int, loudest: int)
    requires IsPeak(samples, peak) && IsLoudest(samples, loudest)
    ensures peak == loudest <==> forall k :: 0 <= k < |samples| ==> samples[k] != -0x8000
  {
    if k :| 0 <= k < |samples| && samples[k] == -0x8000 {
      assert Magnitude(samples[k]) == 0x8000;
      if peak > 0 {
        var j :| 0 <= j < |samples| && Abs16(samples[j]) == peak;
      }
    } else {
      if peak > 0 {
        var j :| 0 <= j < |samples| && Abs16(samples[j]) == peak;
        assert Magnitude(samples[j]) == peak;
      }
      if loudest > 0 {
        var j :| 0 <= j < |samples| && Magnitude(samples[j]) == loudest;
        assert Abs16(samples[j]) == loudest;
      }
    }
  }

  lemma {:induction false} EnergyAtMost(samples: seq<i16>, bound: nat)
    requires forall k :: 0 <= k < |samples| ==> Magnitude(samples[k]) <= bound
    ensures Energy(samples) <= |samples| * (bound * bound)
  {
    if samples != [] {
      var n := |samples| - 1;
      EnergyAtMost(samples[..n], bound);
      SquareMonotone(Magnitude(samples[n]), bound);
      OneMore(n, bound * bound);
    }
  }

  lemma SquareMonotone(a: nat, b: nat)
    requires a <= b
    ensures a * a <= b * b
  {
    assert a * a <= a * b <= b * b;
  }

  lemma {:induction false} EnergyAtLeast(samples: seq<i16>, k: nat)
    requires k < |samples|
    ensures Energy(samples) >= Square(samples[k])
  {
    var n := |samples| - 1;
    if k < n {
      EnergyAtLeast(samples[..n], k);
    }
  }

  /** The energy lies between one and all samples at the loudest level, on every block. */
  lemma EnergyBounds(samples: seq<i16>, loudest: nat)
    requires IsLoudest(samples, loudest)
    ensures loudest * loudest <= Energy(samples) <= |samples| * (loudest * loudest)
  {
    EnergyAtMost(samples, loudest);
    if loudest > 0 {
      var k :| 0 <= k < |samples| && Magnitude(samples[k]) == loudest;
      EnergyAtLeast(samples, k);
    }
  }

  /** The square of rms_amplitude. */
  function MeanSquare(samples: seq<i16>): real
  {
    if samples == [] then 0.0 else Energy(samples) as real / (1073741824.0 * |samples| as real)
  }

  function PeakAmplitude(peak: i16): real
  {
    peak as real / 32768.0
  }

  /** RMS at most peak, and peak below 1: whenever no sample is -32768. */
  lemma RmsAtMostPeak(samples: seq<i16>, peak: i16)
    requires IsPeak(samples, peak)
    requires forall k :: 0 <= k < |samples| ==> samples[k] != -0x8000
    ensures MeanSquare(samples) <= PeakAmplitude(peak) * PeakAmplitude(peak)
    ensures PeakAmplitude(peak) < 1.0
  {
    forall k | 0 <= k < |samples| ensures Magnitude(samples[k]) <= peak {
      assert Abs16(samples[k]) <= peak;
    }
    EnergyAtMost(samples, peak);
    hide Energy, IsPeak;
    if samples != [] {
      MeanBelow(Energy(samples), |samples|, peak);
    }
  }

  lemma MeanBelow(energy: nat, n: nat, peak: nat)
    requires n > 0 && energy <= n * (peak * peak)
    ensures energy as real / (1073741824.0 * n as real) <= (peak as real / 32768.0) * (peak as real / 32768.0)
  {
    var p := peak as real;
    assert energy as real <= n as real * (p * p) by {
      assert (n * (peak * peak)) as real == n as real * (p * p);
    }
    assert (p / 32768.0) * (p / 32768.0) == p * p / 1073741824.0;
    assert (p * p / 1073741824.0) * (1073741824.0 * n as real) == n as real * (p * p);
  }

  /** A block at full negative scale reports a silent peak beside the largest energy there is. */
  lemma FullScaleReportsSilence(samples: seq<i16>, peak: int)
    requires samples != [] && IsPeak(samples, peak)
    requires forall k :: 0 <= k < |samples| ==> samples[k] == -0x8000
    ensures peak == 0 && MeanSquare(samples) == 1.0
  {
    FullScaleEnergy(samples);
    hide Energy;
    var n := |samples| as real;
    assert Energy(samples) as real == 1073741824.0 * n;
    assert (1073741824.0 * n) / (1073741824.0 * n) == 1.0;
  }

  lemma {:induction false} FullScaleEnergy(samples: seq<i16>)
    requires forall k :: 0 <= k < |samples| ==> samples[k] == -0x8000
    ensures Energy(samples) == 1073741824 * |samples|
  {
    if samples != [] {
      FullScaleEnergy(samples[..|samples| - 1]);
    }
  }
}
