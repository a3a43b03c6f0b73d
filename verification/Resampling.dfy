/**
 * The linear-interpolation resampler, over real arithmetic, and what it means at the live
 * rates (48 kHz to 24 kHz).
 */
module Resampling {
  import opened Sequences

  // ----- One output sample -----

  /** The input position output sample `i` is read from. */
  function Position(ratio: real, i: nat): real
    requires ratio > 0.0
  {
    i as real / ratio
  }

  lemma PositionNonNegative(ratio: real, i: nat)
    requires ratio > 0.0
    ensures Position(ratio, i) >= 0.0
  {
  }

  /** The weighted mean of two neighbouring samples. */
  function Blend(left: real, right: real, frac: real): real {
    left * (1.0 - frac) + right * frac
  }

  /** The sample at a position: the last one past the end, a blend of two neighbours before it. */
  function Interpolate(input: seq<real>, pos: real): real
    requires input != [] && pos >= 0.0
  {
    var idx := pos.Floor;
    if idx >= |input| - 1 then input[|input| - 1]
    else Blend(input[idx], input[idx + 1], pos - idx as real)
  }

  function OutputAt(input: seq<real>, ratio: real, i: nat): real
    requires input != [] && ratio > 0.0
  {
    PositionNonNegative(ratio, i);
    Interpolate(input, Position(ratio, i))
  }

  /** The code's output length: the length times the ratio, cut to an integer. */
  function OutputSize(n: nat, ratio: real): nat
    requires ratio > 0.0
  {
    (n as real * ratio).Floor
  }

  function Resampled(input: seq<real>, ratio: real): (output: seq<real>)
    requires ratio > 0.0
  {
    if input == [] then []
    else seq(OutputSize(|input|, ratio), i requires 0 <= i => OutputAt(input, ratio, i))
  }

  class Resampler {
    const ratio: real

    constructor (inputRate: int, outputRate: int)
      requires inputRate > 0 && outputRate > 0
      ensures ratio == outputRate as real / inputRate as real
      ensures ratio > 0.0
    {
      ratio := outputRate as real / inputRate as real;
    }

    method Resample(input: array<real>) returns (output: array<real>)
      requires ratio > 0.0
      ensures fresh(output)
      ensures output[..] == Resampled(input[..], ratio)
    {
      if input.Length == 0 {
        output := new real[0];
        return;
      }
      var outputSize := (input.Length as real * ratio).Floor;
      output := new real[outputSize];
      ghost var samples := input[..];
      for i := 0 to outputSize
        invariant forall k :: 0 <= k < i ==> output[k] == OutputAt(samples, ratio, k)
      {
        output[i] := SampleAt(input, i);
      }
    }

    /** The body of the interpolation loop. */
    method SampleAt(input: array<real>, i: nat) returns (sample: real)
      requires ratio > 0.0 && input.Length > 0
      ensures sample == OutputAt(input[..], ratio, i)
    {
      var pos := i as real / ratio;
      PositionNonNegative(ratio, i);
      var idx := pos.Floor;
      if idx >= input.Length - 1 {
        return input[input.Length - 1];
      }
      var frac := pos - idx as real;
      sample := input[idx] * (1.0 - frac) + input[idx + 1] * frac;
    }
  }

  // ----- Any positive rates -----

  /** The output length is floor(n * out / in), computed in integers. */
  lemma OutputLength(input: seq<real>, inputRate: int, outputRate: int)
    requires inputRate > 0 && outputRate > 0
    ensures |Resampled(input, outputRate as real / inputRate as real)| == |input| * outputRate / inputRate
  {
    if input == [] {
      assert 0 * outputRate / inputRate == 0;
    } else {
      OutputFloor(|input|, inputRate, outputRate);
    }
  }

  lemma OutputFloor(n: nat, inputRate: int, outputRate: int)
    requires inputRate > 0 && outputRate > 0
    ensures OutputSize(n, outputRate as real / inputRate as real) == n * outputRate / inputRate
  {
    var q := n * outputRate / inputRate;
    var x := n as real * (outputRate as real / inputRate as real);
    assert q * inputRate <= n * outputRate < (q + 1) * inputRate;
    assert x * inputRate as real == (n * outputRate) as real;
    assert q as real * inputRate as real == (q * inputRate) as real;
    assert (q + 1) as real * inputRate as real == ((q + 1) * inputRate) as real;
    CancelFactor(q as real, x, inputRate as real);
    CancelFactor((q + 1) as real, x, inputRate as real);
  }

  lemma CancelFactor(a: real, b: real, c: real)
    requires c > 0.0
    ensures a * c <= b * c <==> a <= b
  {
  }

  lemma ProductNonNegative(a: real, b: real)
    requires a >= 0.0 && b >= 0.0
    ensures a * b >= 0.0
  {
  }

  lemma BlendWithin(a: real, b: real, frac: real, lo: real, hi: real)
    requires lo <= a <= hi && lo <= b <= hi && 0.0 <= frac <= 1.0
    ensures lo <= Blend(a, b, frac) <= hi
  {
    ProductNonNegative(a - lo, 1.0 - frac);
    ProductNonNegative(b - lo, frac);
    ProductNonNegative(hi - a, 1.0 - frac);
    ProductNonNegative(hi - b, frac);
  }

  lemma BlendMonotone(a: real, b: real, f: real, g: real)
    requires a <= b && f <= g
    ensures Blend(a, b, f) <= Blend(a, b, g)
  {
    ProductNonNegative(b - a, g - f);
  }

  lemma BlendAffine(base: real, slope: real, frac: real)
    ensures Blend(base, base + slope, frac) == base + slope * frac
  {
  }

  ghost predicate Within(samples: seq<real>, lo: real, hi: real) {
    forall i :: 0 <= i < |samples| ==> lo <= samples[i] <= hi
  }

  lemma InterpolateWithin(input: seq<real>, pos: real, lo: real, hi: real)
    requires input != [] && pos >= 0.0 && Within(input, lo, hi)
    ensures lo <= Interpolate(input, pos) <= hi
  {
    var idx := pos.Floor;
    if idx < |input| - 1 {
      BlendWithin(input[idx], input[idx + 1], pos - idx as real, lo, hi);
    }
  }

  /** Resampling never leaves the range of its input. */
  lemma ResampledWithin(input: seq<real>, ratio: real, lo: real, hi: real)
    requires ratio > 0.0 && Within(input, lo, hi)
    ensures Within(Resampled(input, ratio), lo, hi)
  {
    forall i | 0 <= i < |Resampled(input, ratio)| ensures lo <= Resampled(input, ratio)[i] <= hi {
      PositionNonNegative(ratio, i);
      InterpolateWithin(input, Position(ratio, i), lo, hi);
    }
  }

  ghost predicate NonDecreasing(samples: seq<real>) {
    forall i, j :: 0 <= i < j < |samples| ==> samples[i] <= samples[j]
  }

  lemma InterpolateMonotone(input: seq<real>, p: real, q: real)
    requires input != [] && NonDecreasing(input) && 0.0 <= p <= q
    ensures Interpolate(input, p) <= Interpolate(input, q)
  {
    var i, j, last := p.Floor, q.Floor, |input| - 1;
    if i < last {
      var f := p - i as real;
      BlendWithin(input[i], input[i + 1], f, input[i], input[i + 1]);
      if i == j {
        BlendMonotone(input[i], input[i + 1], f, q - i as real);
      } else if j < last {
        BlendWithin(input[j], input[j + 1], q - j as real, input[j], input[j + 1]);
        assert i + 1 == j || input[i + 1] <= input[j];
      } else {
        assert i + 1 == last || input[i + 1] <= input[last];
      }
    }
  }

  lemma PositionMonotone(ratio: real, i: nat, j: nat)
    requires ratio > 0.0 && i <= j
    ensures 0.0 <= Position(ratio, i) <= Position(ratio, j)
  {
    var p, q := Position(ratio, i), Position(ratio, j);
    assert p * ratio == i as real && q * ratio == j as real;
    CancelFactor(p, q, ratio);
    PositionNonNegative(ratio, i);
  }

  /** A non-decreasing input gives a non-decreasing output. */
  lemma ResampledMonotone(input: seq<real>, ratio: real)
    requires ratio > 0.0 && NonDecreasing(input)
    ensures NonDecreasing(Resampled(input, ratio))
  {
    var output := Resampled(input, ratio);
    forall i, j | 0 <= i < j < |output| ensures output[i] <= output[j] {
      PositionMonotone(ratio, i, j);
      InterpolateMonotone(input, Position(ratio, i), Position(ratio, j));
    }
  }

  /**
   * Between two neighbouring input samples the output rises from the one to the other in proportion to the
   * distance of its position, i divided by the ratio, from the first; after the last input position it is held.
   */
  lemma ResampledBetween(input: seq<real>, ratio: real, i: nat, pos: real, k: nat)
    requires ratio > 0.0 && pos == i as real / ratio
    requires i < |Resampled(input, ratio)| && k < |input|
    ensures k + 1 < |input| && k as real <= pos <= (k + 1) as real ==>
              Resampled(input, ratio)[i] - input[k] == (pos - k as real) * (input[k + 1] - input[k])
    ensures pos >= (|input| - 1) as real ==> Resampled(input, ratio)[i] == input[|input| - 1]
  {
    ResampledIsInterpolated(input, ratio, i);
    if k + 1 < |input| && k as real <= pos <= (k + 1) as real {
      InterpolateBetween(input, pos, k);
    }
    if pos >= (|input| - 1) as real {
      InterpolatePast(input, pos);
    }
  }

  lemma ResampledIsInterpolated(input: seq<real>, ratio: real, i: nat)
    requires ratio > 0.0 && i < |Resampled(input, ratio)|
    ensures input != [] && i as real / ratio >= 0.0
    ensures Resampled(input, ratio)[i] == Interpolate(input, i as real / ratio)
  {
    PositionNonNegative(ratio, i);
  }

  lemma InterpolateBetween(input: seq<real>, pos: real, k: nat)
    requires k + 1 < |input| && k as real <= pos <= (k + 1) as real
    ensures Interpolate(input, pos) - input[k] == (pos - k as real) * (input[k + 1] - input[k])
  {
    if pos < (k + 1) as real {
      InterpolateBefore(input, pos, k);
    } else {
      InterpolateAt(input, k + 1);
      assert pos - k as real == 1.0;
    }
  }

  lemma InterpolatePast(input: seq<real>, pos: real)
    requires input != [] && pos >= 0.0 && pos >= (|input| - 1) as real
    ensures Interpolate(input, pos) == input[|input| - 1]
  {
  }

  lemma InterpolateAt(input: seq<real>, k: nat)
    requires k < |input|
    ensures Interpolate(input, k as real) == input[k]
  {
    assert (k as real).Floor == k;
    if k + 1 < |input| {
      BlendOffset(input[k], input[k + 1], 0.0);
    }
  }

  lemma InterpolateBefore(input: seq<real>, pos: real, k: nat)
    requires k + 1 < |input| && k as real <= pos < (k + 1) as real
    ensures Interpolate(input, pos) - input[k] == (pos - k as real) * (input[k + 1] - input[k])
  {
    assert pos.Floor == k;
    BlendOffset(input[k], input[k + 1], pos - k as real);
  }

  lemma BlendOffset(left: real, right: real, frac: real)
    ensures Blend(left, right, frac) - left == frac * (right - left)
  {
  }

  function LineAt(slope: real, offset: real, x: real): real {
    slope * x + offset
  }

  ghost predicate OnLine(samples: seq<real>, slope: real, offset: real) {
    forall k :: 0 <= k < |samples| ==> samples[k] == LineAt(slope, offset, k as real)
  }

  lemma LineSplits(slope: real, idx: int, frac: real)
    ensures slope * (idx as real + frac) == slope * idx as real + slope * frac
  {
  }

  lemma InterpolateAffine(input: seq<real>, pos: real, slope: real, offset: real)
    requires input != [] && OnLine(input, slope, offset)
    requires 0.0 <= pos < (|input| - 1) as real
    ensures Interpolate(input, pos) == LineAt(slope, offset, pos)
  {
    var idx := pos.Floor;
    var frac := pos - idx as real;
    var base := input[idx];
    LineSplits(slope, idx, 1.0);
    LineSplits(slope, idx, frac);
    assert input[idx + 1] == base + slope;
    BlendAffine(base, slope, frac);
  }

  /** A straight line is reproduced exactly up to the last input position, and held at its end after it. */
  lemma ResampledAffine(input: seq<real>, ratio: real, slope: real, offset: real, i: nat)
    requires ratio > 0.0 && OnLine(input, slope, offset)
    requires i < |Resampled(input, ratio)|
    ensures var last := (|input| - 1) as real;
            var pos := i as real / ratio;
            Resampled(input, ratio)[i] == LineAt(slope, offset, if pos <= last then pos else last)
  {
    var pos, last := Position(ratio, i), |input| - 1;
    PositionNonNegative(ratio, i);
    assert Resampled(input, ratio)[i] == Interpolate(input, pos);
    if pos < last as real {
      InterpolateAffine(input, pos, slope, offset);
    } else {
      assert Interpolate(input, pos) == input[last] == LineAt(slope, offset, last as real);
    }
  }

  /** At equal rates the resampler is the identity, so skipping it changes nothing. */
  lemma ResampledIdentity(input: seq<real>)
    ensures Resampled(input, 1.0) == input
  {
    if input != [] {
      assert OutputSize(|input|, 1.0) == |input|;
      forall i | 0 <= i < |input| ensures Resampled(input, 1.0)[i] == input[i] {
        assert Position(1.0, i) == i as real;
        assert (i as real).Floor == i;
        assert input[i] * (1.0 - 0.0) == input[i];
        if i < |input| - 1 {
          assert input[i + 1] * 0.0 == 0.0;
        }
      }
    }
  }

  // ----- The live rates -----

  const INPUT_RATE: int := 48000
  const OUTPUT_RATE: int := 24000
  const LIVE_RATIO: real := OUTPUT_RATE as real / INPUT_RATE as real

  /** Every second sample, the first one included; a trailing unpaired sample is lost. */
  function Decimate(samples: seq<real>): (r: seq<real>)
    ensures |r| == |samples| / 2
  {
    seq(|samples| / 2, i requires 0 <= i < |samples| / 2 => samples[2 * i])
  }

  /** At 48 kHz to 24 kHz resampling picks every second sample exactly; the clamp at the end never fires. */
  lemma LiveResamplingDecimates(input: seq<real>)
    ensures Resampled(input, LIVE_RATIO) == Decimate(input)
    ensures forall i :: 0 <= i < |Resampled(input, LIVE_RATIO)| ==> Position(LIVE_RATIO, i).Floor < |input| - 1
  {
    assert LIVE_RATIO == 0.5;
    if input != [] {
      assert OutputSize(|input|, LIVE_RATIO) == |input| / 2;
      forall i | 0 <= i < |input| / 2
        ensures Position(LIVE_RATIO, i) == (2 * i) as real
        ensures Resampled(input, LIVE_RATIO)[i] == input[2 * i]
        ensures Position(LIVE_RATIO, i).Floor < |input| - 1
      {
        assert Position(LIVE_RATIO, i) == (2 * i) as real;
        assert input[2 * i] * (1.0 - 0.0) == input[2 * i];
        assert input[2 * i + 1] * 0.0 == 0.0;
      }
    }
  }

  /** The public entry point: an empty frame stays empty, equal rates pass through, others resample. */
  method ProcessFrame(inputRate: int, outputRate: int, frame: array<real>) returns (processed: array<real>)
    requires inputRate > 0 && outputRate > 0
    ensures processed[..] == Resampled(frame[..], outputRate as real / inputRate as real)
    ensures frame[..] == old(frame[..])
    ensures if inputRate == outputRate && frame.Length > 0 then processed == frame else fresh(processed)
  {
    if frame.Length == 0 {
      processed := new real[0];
      return;
    }
    if inputRate == outputRate {
      assert outputRate as real / inputRate as real == 1.0;
      ResampledIdentity(frame[..]);
      return frame;
    }
    var resampler := new Resampler(inputRate, outputRate);
    processed := resampler.Resample(frame);
  }

  // ----- Frame by frame against the whole stream -----

  lemma DecimateConcat(a: seq<real>, b: seq<real>)
    requires |a| % 2 == 0
    ensures Decimate(a + b) == Decimate(a) + Decimate(b)
  {
  }

  /** Frames of lengths m and n can be resampled apart, whatever they hold, iff m is even or n is zero. */
  lemma SplitResamplingExact(m: nat, n: nat)
    ensures (forall a: seq<real>, b: seq<real> | |a| == m && |b| == n ::
               Resampled(a + b, LIVE_RATIO) == Resampled(a, LIVE_RATIO) + Resampled(b, LIVE_RATIO))
            <==> (m % 2 == 0 || n == 0)
  {
    if m % 2 == 0 || n == 0 {
      forall a: seq<real>, b: seq<real> | |a| == m && |b| == n
        ensures Resampled(a + b, LIVE_RATIO) == Resampled(a, LIVE_RATIO) + Resampled(b, LIVE_RATIO)
      {
        LiveResamplingDecimates(a);
        LiveResamplingDecimates(b);
        LiveResamplingDecimates(a + b);
        if n == 0 {
          assert a + b == a;
        } else {
          DecimateConcat(a, b);
        }
      }
    } else {
      var a, b := seq(m, _ => 0.0), seq(n, _ => 1.0);
      LiveResamplingDecimates(a);
      LiveResamplingDecimates(b);
      LiveResamplingDecimates(a + b);
      if n % 2 == 0 {
        assert Decimate(a + b)[m / 2] == a[m - 1];
        assert (Decimate(a) + Decimate(b))[m / 2] == Decimate(b)[0] == b[0];
      } else {
        assert |Decimate(a + b)| == (m + n) / 2 != m / 2 + n / 2;
      }
      assert Resampled(a + b, LIVE_RATIO) != Resampled(a, LIVE_RATIO) + Resampled(b, LIVE_RATIO);
    }
  }

  /** Each frame resampled on its own. */
  function DecimateEach(frames: seq<seq<real>>): seq<seq<real>> {
    if frames == [] then []
    else DecimateEach(frames[..|frames| - 1]) + [Decimate(frames[|frames| - 1])]
  }

  function OddFrames(frames: seq<seq<real>>): nat {
    if frames == [] then 0 else |frames[0]| % 2 + OddFrames(frames[1..])
  }

  lemma {:induction false} OddFramesSnoc(front: seq<seq<real>>, last: seq<real>)
    ensures OddFrames(front + [last]) == OddFrames(front) + |last| % 2
  {
    if front == [] {
      assert (front + [last])[1..] == [];
    } else {
      OddFramesSnoc(front[1..], last);
      assert (front + [last])[1..] == front[1..] + [last];
    }
  }

  /** Over any frames, resampling frame by frame loses exactly half a sample per odd frame, rounded down. */
  lemma {:induction false} FramingShortfall(frames: seq<seq<real>>)
    ensures |Decimate(Flatten(frames))| - |Flatten(DecimateEach(frames))| == OddFrames(frames) / 2
    ensures |Flatten(frames)| == 2 * |Flatten(DecimateEach(frames))| + OddFrames(frames)
  {
    if frames == [] {
    } else {
      var front, last := frames[..|frames| - 1], frames[|frames| - 1];
      assert frames == front + [last];
      FramingShortfall(front);
      FlattenSnoc(front, last);
      FlattenSnoc(DecimateEach(front), Decimate(last));
      OddFramesSnoc(front, last);
    }
  }

  ghost predicate AllEven(frames: seq<seq<real>>) {
    forall i :: 0 <= i < |frames| ==> |frames[i]| % 2 == 0
  }

  /** When every frame has even length, framing does not matter at all. */
  lemma {:induction false} EvenFramesDecimate(frames: seq<seq<real>>)
    requires AllEven(frames)
    ensures |Flatten(frames)| % 2 == 0
    ensures Flatten(DecimateEach(frames)) == Decimate(Flatten(frames))
  {
    if frames == [] {
    } else {
      var front, last := frames[..|frames| - 1], frames[|frames| - 1];
      assert frames == front + [last];
      EvenFramesDecimate(front);
      FlattenSnoc(front, last);
      FlattenSnoc(DecimateEach(front), Decimate(last));
      DecimateConcat(Flatten(front), last);
    }
  }
}
