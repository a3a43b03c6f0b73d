/** What happens to one decoded Opus packet: clamp in place, downmix to mono, deliver. */
module Decoding {
  import opened Resampling

  function Clamp(x: real): real {
    if x > 1.0 then 1.0 else if x < -1.0 then -1.0 else x
  }

  function Distance(x: real, y: real): real {
    if x >= y then x - y else y - x
  }

  /** Clamping yields the point of [-1, 1] nearest to its argument. */
  lemma ClampNearest(x: real, y: real)
    requires -1.0 <= y <= 1.0
    ensures -1.0 <= Clamp(x) <= 1.0
    ensures Distance(Clamp(x), x) <= Distance(y, x)
    ensures Distance(y, x) == Distance(Clamp(x), x) ==> y == Clamp(x)
  {
  }

  function Sum(samples: seq<real>): real {
    if samples == [] then 0.0 else Sum(samples[..|samples| - 1]) + samples[|samples| - 1]
  }

  lemma {:induction false} MultipleMonotone(a: nat, b: nat, c: nat)
    requires a <= b
    ensures a * c <= b * c
  {
    if a == b {
    } else {
      MultipleMonotone(a, b - 1, c);
      assert b * c == (b - 1) * c + c;
    }
  }

  lemma InstantInRange(i: nat, n: nat, channels: nat)
    requires i < n
    ensures 0 <= i * channels <= i * channels + channels <= n * channels
  {
    MultipleMonotone(0, i, channels);
    MultipleMonotone(i + 1, n, channels);
    assert (i + 1) * channels == i * channels + channels;
  }

  /** The samples of all channels at one of the n instants of a packet; channels are interleaved. */
  function Instant(packet: seq<real>, n: nat, channels: nat, i: nat): (window: seq<real>)
    requires |packet| == n * channels && i < n
    ensures |window| == channels
  {
    InstantInRange(i, n, channels);
    packet[i * channels..i * channels + channels]
  }

  /** The mean of the channels at one instant. */
  function MonoAt(packet: seq<real>, n: nat, channels: nat, i: nat): real
    requires channels > 0 && |packet| == n * channels && i < n
  {
    Sum(Instant(packet, n, channels, i)) / channels as real
  }

  lemma {:induction false} SumWithin(samples: seq<real>)
    requires Within(samples, -1.0, 1.0)
    ensures -(|samples| as real) <= Sum(samples) <= |samples| as real
  {
    if samples == [] {
    } else {
      SumWithin(samples[..|samples| - 1]);
    }
  }

  lemma MeanWithin(sum: real, count: real)
    requires count > 0.0 && -count <= sum <= count
    ensures -1.0 <= sum / count <= 1.0
  {
    var mean := sum / count;
    assert mean * count == sum;
    CancelFactor(mean, 1.0, count);
    CancelFactor(-1.0, mean, count);
  }

  lemma MonoWithin(packet: seq<real>, n: nat, channels: nat, i: nat)
    requires channels > 0 && |packet| == n * channels && i < n
    requires Within(packet, -1.0, 1.0)
    ensures -1.0 <= MonoAt(packet, n, channels, i) <= 1.0
  {
    InstantInRange(i, n, channels);
    var window := Instant(packet, n, channels, i);
    SumWithin(window);
    MeanWithin(Sum(window), channels as real);
  }

  /** A packet with every sample clamped. */
  function Clamped(packet: seq<real>): (clamped: seq<real>)
    ensures |clamped| == |packet| && Within(clamped, -1.0, 1.0)
  {
    seq(|packet|, i requires 0 <= i < |packet| => Clamp(packet[i]))
  }

  /** What is delivered for a packet of n instants: the mean of the clamped channels at each of them. */
  function Delivered(packet: seq<real>, n: nat, channels: nat): (mono: seq<real>)
    requires channels > 0 && |packet| == n * channels
  {
    seq(n, i requires 0 <= i < n => MonoAt(Clamped(packet), n, channels, i))
  }

  lemma DeliveredWithin(packet: seq<real>, n: nat, channels: nat)
    requires channels > 0 && |packet| == n * channels
    ensures Within(Delivered(packet, n, channels), -1.0, 1.0)
  {
    forall i | 0 <= i < n ensures -1.0 <= Delivered(packet, n, channels)[i] <= 1.0 {
      MonoWithin(Clamped(packet), n, channels, i);
    }
  }

  /** The mono sample at an instant is the running sum of the channels there, divided by their number. */
  lemma {:induction false} RunningSum(window: seq<real>, sums: seq<real>)
    requires |sums| == |window| + 1 && sums[0] == 0.0
    requires forall k :: 0 <= k < |window| ==> sums[k + 1] == sums[k] + window[k]
    ensures Sum(window) == sums[|window|]
  {
    if window == [] {
    } else {
      RunningSum(window[..|window| - 1], sums[..|window|]);
    }
  }

  lemma MonoIsMean(packet: seq<real>, n: nat, channels: nat, i: nat, sums: seq<real>)
    requires channels > 0 && |packet| == n * channels && i < n
    requires 0 <= i * channels <= i * channels + channels <= |packet|
    requires |sums| == channels + 1 && sums[0] == 0.0
    requires forall k :: 0 <= k < channels ==> sums[k + 1] == sums[k] + packet[i * channels + k]
    ensures MonoAt(packet, n, channels, i) == sums[channels] / channels as real
  {
    RunningSum(Instant(packet, n, channels, i), sums);
  }

  /** For a stereo packet: half the sum of left and right, which come in turn. */
  lemma StereoMean(packet: seq<real>, n: nat, i: nat)
    requires |packet| == n * 2 && i < n
    ensures MonoAt(packet, n, 2, i) == (packet[2 * i] + packet[2 * i + 1]) / 2.0
  {
    var left, right := packet[2 * i], packet[2 * i + 1];
    MonoIsMean(packet, n, 2, i, [0.0, left, left + right]);
  }

  lemma MonoOfOneChannel(packet: seq<real>, n: nat, i: nat)
    requires |packet| == n * 1 && i < n
    ensures MonoAt(packet, n, 1, i) == packet[i]
  {
    var window := Instant(packet, n, 1, i);
    assert window == [packet[i]] && window[..0] == [];
    assert Sum(window) == packet[i];
  }

  /**
   * Clamps the first n * channels samples of the decoder's buffer in place and returns n mono samples, each
   * the mean of its clamped channels. Whatever the decoder wrote, every delivered sample lies in [-1, 1].
   */
  method ClampAndDownmix(pcmBuf: array<real>, n: nat, channels: nat) returns (mono: array<real>)
    requires channels >= 1 && n * channels <= pcmBuf.Length
    modifies pcmBuf
    ensures fresh(mono) && mono.Length == n
    ensures forall k :: 0 <= k < pcmBuf.Length ==>
              pcmBuf[k] == if k < n * channels then Clamp(old(pcmBuf[k])) else old(pcmBuf[k])
    ensures forall i :: 0 <= i < n ==> mono[i] == MonoAt(pcmBuf[..n * channels], n, channels, i)
    ensures mono[..] == Delivered(old(pcmBuf[..n * channels]), n, channels)
    ensures Within(mono[..], -1.0, 1.0)
  {
    ghost var packet := pcmBuf[..n * channels];
    ClampPrefix(pcmBuf, n * channels);
    mono := Downmix(pcmBuf, n, channels);
    assert pcmBuf[..n * channels] == Clamped(packet);
    DeliveredWithin(packet, n, channels);
  }

  /** One channel is copied, several are averaged. */
  method Downmix(pcmBuf: array<real>, n: nat, channels: nat) returns (mono: array<real>)
    requires channels >= 1 && n * channels <= pcmBuf.Length
    ensures fresh(mono) && mono.Length == n
    ensures forall i :: 0 <= i < n ==> mono[i] == MonoAt(pcmBuf[..n * channels], n, channels, i)
  {
    if channels == 1 {
      mono := CopyOneChannel(pcmBuf, n);
    } else {
      mono := AverageChannels(pcmBuf, n, channels);
    }
  }

  method CopyOneChannel(pcmBuf: array<real>, n: nat) returns (mono: array<real>)
    requires n * 1 <= pcmBuf.Length
    ensures fresh(mono) && mono.Length == n
    ensures forall i :: 0 <= i < n ==> mono[i] == MonoAt(pcmBuf[..n * 1], n, 1, i)
  {
    mono := new real[n](_ => 0.0);
    for i := 0 to n
      invariant forall k :: 0 <= k < i ==> mono[k] == pcmBuf[k]
    {
      mono[i] := pcmBuf[i];
    }
    forall i | 0 <= i < n ensures mono[i] == MonoAt(pcmBuf[..n * 1], n, 1, i) {
      MonoOfOneChannel(pcmBuf[..n * 1], n, i);
    }
  }

  method AverageChannels(pcmBuf: array<real>, n: nat, channels: nat) returns (mono: array<real>)
    requires channels >= 1 && n * channels <= pcmBuf.Length
    ensures fresh(mono) && mono.Length == n
    ensures forall i :: 0 <= i < n ==> mono[i] == MonoAt(pcmBuf[..n * channels], n, channels, i)
  {
    ghost var packet := pcmBuf[..n * channels];
    mono := new real[n](_ => 0.0);
    for i := 0 to n
      invariant forall k :: 0 <= k < i ==> mono[k] == MonoAt(packet, n, channels, k)
    {
      InstantInRange(i, n, channels);
      var sum := SumRange(pcmBuf, i * channels, channels);
      assert pcmBuf[i * channels..i * channels + channels] == Instant(packet, n, channels, i);
      mono[i] := sum / channels as real;
    }
  }

  /** The clamping loop. */
  method ClampPrefix(pcmBuf: array<real>, total: nat)
    requires total <= pcmBuf.Length
    modifies pcmBuf
    ensures forall k :: 0 <= k < pcmBuf.Length ==>
              pcmBuf[k] == if k < total then Clamp(old(pcmBuf[k])) else old(pcmBuf[k])
  {
    for i := 0 to total
      invariant forall k :: 0 <= k < pcmBuf.Length ==>
                  pcmBuf[k] == if k < i then Clamp(old(pcmBuf[k])) else old(pcmBuf[k])
    {
      if pcmBuf[i] > 1.0 {
        pcmBuf[i] := 1.0;
      } else if pcmBuf[i] < -1.0 {
        pcmBuf[i] := -1.0;
      }
    }
  }

  /** The inner loop of the downmix. */
  method SumRange(pcmBuf: array<real>, from: nat, count: nat) returns (sum: real)
    requires from + count <= pcmBuf.Length
    ensures sum == Sum(pcmBuf[from..from + count])
  {
    sum := 0.0;
    for ch := 0 to count
      invariant sum == Sum(pcmBuf[from..from + ch])
    {
      assert pcmBuf[from..from + ch + 1][..ch] == pcmBuf[from..from + ch];
      sum := sum + pcmBuf[from + ch];
    }
  }
}
