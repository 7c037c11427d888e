/**
 The two resamplers: `normalize_track` of the bridge, a loop that holds source frames, and
 the benchmark's rendering of a bridge reference, a hold to 48 kHz followed by an
 interpolation down to 16 kHz. Samples are exact reals.
 */
module Resampling {
  import opened Prelude
  import opened Arithmetic
  import opened PcmCodec

  const INTERNAL_RATE: nat := 48_000
  const LOOPBACK_RATE: nat := 16_000

  function SaturatingMul(a: nat, b: nat): nat {
    if a * b <= USIZE_MAX then a * b else USIZE_MAX
  }

  // ----- normalize_track -----

  function Scaled(sample: int16): real {
    sample as int as real / 32767.0
  }

  /** Interleaved stereo: a mono sample is doubled, of more channels the first two are kept. */
  function ToStereo(samples: seq<int16>, channels: nat): (stereo: seq<real>)
    requires channels > 0
    ensures |stereo| % 2 == 0
  {
    if |samples| < channels then []
    else
      [Scaled(samples[0]), Scaled(samples[if channels == 1 then 0 else 1])] + ToStereo(samples[channels..], channels)
  }

  /** Frame k of interleaved samples starts at `at`. */
  ghost predicate FrameStarts(at: int, k: nat, channels: nat) {
    at == k * channels
  }

  lemma FrameBefore(at: int, k: nat, channels: nat)
    requires FrameStarts(at, k, channels)
    ensures if k == 0 then at == 0 else at >= channels && FrameStarts(at - channels, k - 1, channels)
  {
    if k > 0 {
      MulMonotone(0, k - 1, channels);
      assert (k - 1) * channels == k * channels - channels;
    }
  }

  lemma FrameBounds(k: nat, channels: nat)
    ensures 0 <= k * channels && (k + 1) * channels == k * channels + channels
    ensures FrameStarts(k * channels, k, channels)
  {
    MulMonotone(0, k, channels);
  }

  lemma ScaledTimes(sample: int16)
    ensures Scaled(sample) * 32767.0 == sample as int as real
  {
  }

  /** The right sample of the frame that starts at `at`. */
  function RightOf(at: nat, channels: nat): nat {
    if channels == 1 then at else at + 1
  }

  lemma StereoCons(samples: seq<int16>, channels: nat)
    requires 0 < channels <= |samples|
    ensures ToStereo(samples, channels)
            == [Scaled(samples[0]), Scaled(samples[RightOf(0, channels)])] + ToStereo(samples[channels..], channels)
  {
  }

  /** The frame that starts at a multiple of the channel count. */
  lemma {:induction false} StereoAt(samples: seq<int16>, channels: nat, k: nat, at: nat)
    requires channels > 0 && FrameStarts(at, k, channels) && at + channels <= |samples|
    ensures RightOf(at, channels) < |samples| && 2 * k + 1 < |ToStereo(samples, channels)|
    ensures ToStereo(samples, channels)[2 * k] == Scaled(samples[at])
    ensures ToStereo(samples, channels)[2 * k + 1] == Scaled(samples[RightOf(at, channels)])
  {
    hide FrameStarts, Scaled, ToStereo;
    FrameBefore(at, k, channels);
    StereoCons(samples, channels);
    if k > 0 {
      StereoAt(samples[channels..], channels, k - 1, at - channels);
    }
  }

  /** Frame k keeps its first two channels, left first, as fractions of the largest sample. */
  lemma StereoIs(samples: seq<int16>, channels: nat, k: nat)
    requires channels > 0 && (k + 1) * channels <= |samples|
    ensures 0 <= k * channels && k * channels + (if channels == 1 then 0 else 1) < |samples|
    ensures var stereo := ToStereo(samples, channels);
            && 2 * k + 1 < |stereo|
            && stereo[2 * k] * 32767.0 == samples[k * channels] as int as real
            && stereo[2 * k + 1] * 32767.0
               == samples[k * channels + if channels == 1 then 0 else 1] as int as real
  {
    hide ToStereo, Scaled, FrameStarts;
    FrameBounds(k, channels);
    var at := k * channels;
    StereoAt(samples, channels, k, at);
    ScaledTimes(samples[at]);
    ScaledTimes(samples[RightOf(at, channels)]);
  }

  lemma NoFrame(samples: seq<int16>, channels: nat)
    requires |samples| < channels
    ensures ToStereo(samples, channels) == []
  {
  }

  /** Whole frames only. */
  lemma {:induction false} StereoLength(samples: seq<int16>, channels: nat)
    requires channels > 0
    ensures |ToStereo(samples, channels)| == 2 * (|samples| / channels)
  {
    hide Scaled, ToStereo;
    if |samples| < channels {
      NoFrame(samples, channels);
      DivIs(|samples|, channels, 0);
    } else {
      StereoCons(samples, channels);
      StereoLength(samples[channels..], channels);
      DivAddOne(|samples|, channels);
    }
  }

  /** Target frame k falls into source frame floor(k * rate / 48000), which exists. */
  lemma HeldFrameExists(frames: nat, rate: nat, k: nat)
    requires rate > 0 && k < SaturatingMul(frames, INTERNAL_RATE) / rate
    ensures SaturatingMul(k, rate) == k * rate
    ensures k * rate / INTERNAL_RATE < frames
  {
    var span := SaturatingMul(frames, INTERNAL_RATE);
    DivBounds(span, rate);
    MulMonotone(k + 1, span / rate, rate);
    assert (k + 1) * rate == k * rate + rate;
    DivBelow(k * rate, INTERNAL_RATE, frames);
  }

  /** The k-th target frame is the source frame playing at its instant. */
  ghost predicate HoldsFrame(output: seq<real>, stereo: seq<real>, rate: nat, k: nat) {
    var source := k * rate / INTERNAL_RATE;
    && 0 <= source && 2 * source + 1 < |stereo| && 2 * k + 1 < |output|
    && output[2 * k] == stereo[2 * source] && output[2 * k + 1] == stereo[2 * source + 1]
  }

  ghost predicate IsHold(output: seq<real>, stereo: seq<real>, rate: nat) {
    && |output| % 2 == 0
    && forall k :: 0 <= k < |output| / 2 ==> HoldsFrame(output, stereo, rate, k)
  }

  lemma HoldExtends(output: seq<real>, stereo: seq<real>, rate: nat, source: nat)
    requires IsHold(output, stereo, rate) && |stereo| % 2 == 0
    requires source == |output| / 2 * rate / INTERNAL_RATE && source < |stereo| / 2
    ensures IsHold(output + [stereo[2 * source], stereo[2 * source + 1]], stereo, rate)
  {
    var n, longer := |output| / 2, output + [stereo[2 * source], stereo[2 * source + 1]];
    assert HoldsFrame(longer, stereo, rate, n);
    forall k | 0 <= k < n ensures HoldsFrame(longer, stereo, rate, k) {
      assert HoldsFrame(output, stereo, rate, k);
    }
  }

  /** Converts a track to 48 kHz stereo by holding frames; every index is in range unclamped. */
  method NormalizeTrack(samples: seq<int16>, rate: nat, channels: nat) returns (output: seq<real>)
    ensures samples == [] || rate == 0 || channels == 0 ==> output == []
    ensures samples != [] && channels > 0 && rate == INTERNAL_RATE ==> output == ToStereo(samples, channels)
    ensures samples != [] && channels > 0 && rate > 0 && rate != INTERNAL_RATE ==>
              var stereo := ToStereo(samples, channels);
              |output| == 2 * (SaturatingMul(|stereo| / 2, INTERNAL_RATE) / rate) && IsHold(output, stereo, rate)
  {
    if samples == [] || rate == 0 || channels == 0 {
      return [];
    }
    var stereo := ToStereo(samples, channels);
    if rate == INTERNAL_RATE {
      return stereo;
    }
    var sourceFrames := |stereo| / 2;
    var targetFrames := SaturatingMul(sourceFrames, INTERNAL_RATE) / rate;
    DivAtLeast(SaturatingMul(sourceFrames, INTERNAL_RATE), rate, 0);
    output := [];
    for target := 0 to targetFrames
      invariant |output| == 2 * target && IsHold(output, stereo, rate)
    {
      HeldFrameExists(sourceFrames, rate, target);
      var source := SaturatingMul(target, rate) / INTERNAL_RATE;
      var start := Min(source, Max(sourceFrames - 1, 0)) * 2;
      HoldExtends(output, stereo, rate, source);
      output := output + [stereo[start], stereo[start + 1]];
    }
  }

  // ----- render_bridge_reference_to_loopback -----

  datatype Rendered = Waveform(samples: seq<real>) | InvalidFormat | NoFrames

  function Sum(frame: seq<int16>): real {
    if frame == [] then 0.0 else Sum(frame[..|frame| - 1]) + frame[|frame| - 1] as int as real / 32768.0
  }

  function FrameMean(frame: seq<int16>, channels: nat): real
    requires channels > 0
  {
    Sum(frame) / channels as real
  }

  /** The mean of each interleaved frame. */
  function Mono(interleaved: seq<int16>, channels: nat): (mono: seq<real>)
    requires channels > 0
    ensures |mono| == |interleaved| / channels
  {
    if |interleaved| < channels then
      DivIs(|interleaved|, channels, 0);
      []
    else
      DivAddOne(|interleaved|, channels);
      [FrameMean(interleaved[..channels], channels)] + Mono(interleaved[channels..], channels)
  }

  lemma SumOfOne(sample: int16)
    ensures Sum([sample]) * 32768.0 == sample as int as real
  {
    assert [sample][..0] == [];
  }

  lemma {:induction false} SumAdds(a: seq<int16>, b: seq<int16>)
    ensures Sum(a + b) == Sum(a) + Sum(b)
  {
    if b == [] {
      assert a + b == a;
    } else {
      SumAdds(a, b[..|b| - 1]);
      assert (a + b)[..|a + b| - 1] == a + b[..|b| - 1];
    }
  }

  /** Mono frame k is the mean over the channels of interleaved frame k. */
  lemma {:induction false} MonoIs(interleaved: seq<int16>, channels: nat, k: nat)
    requires channels > 0 && (k + 1) * channels <= |interleaved|
    ensures 0 <= k * channels <= (k + 1) * channels && k < |Mono(interleaved, channels)|
    ensures Mono(interleaved, channels)[k] * channels as real
            == Sum(interleaved[k * channels..(k + 1) * channels])
  {
    hide Sum, Mono;
    FrameBounds(k, channels);
    MonoAt(interleaved, channels, k, k * channels);
    QuotientTimes(Sum(interleaved[k * channels..(k + 1) * channels]), channels as real);
  }

  lemma {:induction false} MonoAt(interleaved: seq<int16>, channels: nat, k: nat, at: nat)
    requires channels > 0 && FrameStarts(at, k, channels) && at + channels <= |interleaved|
    ensures k < |Mono(interleaved, channels)|
    ensures Mono(interleaved, channels)[k] == FrameMean(interleaved[at..at + channels], channels)
  {
    hide FrameMean, FrameStarts;
    FrameBefore(at, k, channels);
    if k == 0 {
      assert interleaved[at..at + channels] == interleaved[..channels];
    } else {
      var rest := interleaved[channels..];
      MonoAt(rest, channels, k - 1, at - channels);
      assert rest[at - channels..at] == interleaved[at..at + channels];
    }
  }

  lemma QuotientTimes(x: real, y: real)
    requires y != 0.0
    ensures x / y * y == x
  {
  }

  function BridgeLength(frames: nat, rate: nat): nat
    requires rate > 0
  {
    DivAtLeast(frames * INTERNAL_RATE, rate, 0);
    Max(frames * INTERNAL_RATE / rate, 1)
  }

  function Bridge(mono: seq<real>, rate: nat): (bridge: seq<real>)
    requires rate > 0 && mono != []
    ensures |bridge| == BridgeLength(|mono|, rate)
  {
    seq(BridgeLength(|mono|, rate), i requires i >= 0 => mono[Min(i * rate / INTERNAL_RATE, |mono| - 1)])
  }

  function OutputLength(bridgeLength: nat): nat {
    Max(bridgeLength * LOOPBACK_RATE / INTERNAL_RATE, 1)
  }

  /** Linear interpolation of `bridge` at output sample i, with both neighbours clamped. */
  function Interpolated(bridge: seq<real>, i: nat): real
    requires bridge != []
  {
    var position := i as real * INTERNAL_RATE as real / LOOPBACK_RATE as real;
    var left := Min(position.Floor, |bridge| - 1);
    var right := Min(left + 1, |bridge| - 1);
    if left < 0 then 0.0
    else bridge[left] + (bridge[right] - bridge[left]) * (position - left as real)
  }

  function RenderBridgeReferenceToLoopback(interleaved: seq<int16>, channels: nat, rate: nat): Rendered {
    if channels == 0 || |interleaved| % channels != 0 || rate == 0 then InvalidFormat
    else
      var mono := Mono(interleaved, channels);
      if mono == [] then NoFrames
      else
        var bridge := Bridge(mono, rate);
        Waveform(seq(OutputLength(|bridge|), i requires i >= 0 => Interpolated(bridge, i)))
  }

  /** The clamp of the hold never bites: every bridge sample falls into an existing frame. */
  lemma HoldClampIsDead(frames: nat, rate: nat, i: nat)
    requires rate > 0 && frames > 0 && i < BridgeLength(frames, rate)
    ensures i * rate / INTERNAL_RATE < frames
  {
    if i == 0 {
      assert i * rate == 0;
    } else {
      var span := frames * INTERNAL_RATE;
      DivBounds(span, rate);
      MulMonotone(i + 1, span / rate, rate);
      assert (i + 1) * rate == i * rate + rate;
      DivBelow(i * rate, INTERNAL_RATE, frames);
    }
  }

  lemma ThirdOfLength(bridgeLength: nat)
    ensures OutputLength(bridgeLength) == Max(bridgeLength / 3, 1)
  {
    DivBounds(bridgeLength, 3);
    DivIs(bridgeLength * LOOPBACK_RATE, INTERNAL_RATE, bridgeLength / 3);
  }

  /** The left neighbour is never clamped; the right one is exactly when the bridge has one sample. */
  lemma NeighbourClamps(bridgeLength: nat)
    requires bridgeLength > 0
    ensures forall i :: 0 <= i < OutputLength(bridgeLength) ==> 3 * i <= bridgeLength - 1
    ensures (forall i :: 0 <= i < OutputLength(bridgeLength) ==> 3 * i + 1 <= bridgeLength - 1) <==> bridgeLength > 1
  {
    ThirdOfLength(bridgeLength);
    DivBounds(bridgeLength, 3);
    if bridgeLength == 1 {
      assert 3 * 0 + 1 > bridgeLength - 1;
    }
  }

  /** In terms of the track: some right neighbour is clamped exactly if it lasts less than two frames of 48 kHz. */
  lemma RightClampBitesExactlyWhen(frames: nat, rate: nat)
    requires frames > 0 && rate > 0
    ensures var b := BridgeLength(frames, rate);
            (exists i :: 0 <= i < OutputLength(b) && 3 * i + 1 > b - 1) <==> frames * INTERNAL_RATE < 2 * rate
  {
    var b, span := BridgeLength(frames, rate), frames * INTERNAL_RATE;
    NeighbourClamps(b);
    if span < 2 * rate {
      DivBelow(span, rate, 2);
    } else {
      DivAtLeast(span, rate, 2);
    }
  }

  /** One frame at 48 kHz is clamped. */
  lemma OneFrameIsClamped()
    ensures BridgeLength(1, INTERNAL_RATE) == 1 && OutputLength(1) == 1 && 3 * 0 + 1 > 1 - 1
  {
    DivIs(INTERNAL_RATE, INTERNAL_RATE, 1);
  }

  /** Positions are whole, so the interpolation picks every third bridge sample. */
  lemma InterpolationPicks(bridge: seq<real>, i: nat)
    requires bridge != [] && 3 * i < |bridge|
    ensures Interpolated(bridge, i) == bridge[3 * i]
  {
    var position := i as real * INTERNAL_RATE as real / LOOPBACK_RATE as real;
    assert position == (3 * i) as real;
  }

  lemma QuotientOfThirds(x: nat, d: nat)
    requires d > 0
    ensures 3 * x / d / 3 == x / d
  {
    var q := x / d;
    DivBounds(x, d);
    assert (3 * q) * d == 3 * (q * d) && (3 * q + 3) * d == 3 * ((q + 1) * d);
    DivAtLeast(3 * x, d, 3 * q);
    DivBelow(3 * x, d, 3 * q + 3);
    DivIs(3 * x / d, 3, q);
  }

  /** The length of the two steps together is that of one direct step. */
  lemma DirectLength(frames: nat, rate: nat)
    requires rate > 0
    ensures OutputLength(BridgeLength(frames, rate)) == Max(LOOPBACK_RATE * frames / rate, 1)
  {
    ThirdOfLength(BridgeLength(frames, rate));
    QuotientOfThirds(LOOPBACK_RATE * frames, rate);
    assert 3 * (LOOPBACK_RATE * frames) == frames * INTERNAL_RATE;
    DivAtLeast(LOOPBACK_RATE * frames, rate, 0);
  }

  /** Every third bridge sample falls into the frame of the direct step. */
  lemma SameInstant(i: nat, rate: nat)
    ensures (3 * i) * rate / INTERNAL_RATE == i * rate / LOOPBACK_RATE
  {
    var x := i * rate;
    assert (3 * i) * rate == 3 * x;
    DivBounds(x, LOOPBACK_RATE);
    DivIs(3 * x, INTERNAL_RATE, x / LOOPBACK_RATE);
  }

  lemma BridgeSample(mono: seq<real>, rate: nat, j: nat)
    requires rate > 0 && mono != [] && j < BridgeLength(|mono|, rate)
    ensures 0 <= j * rate / INTERNAL_RATE < |mono|
    ensures Bridge(mono, rate)[j] == mono[j * rate / INTERNAL_RATE]
  {
    HoldClampIsDead(|mono|, rate, j);
    DivAtLeast(j * rate, INTERNAL_RATE, 0);
  }

  lemma RenderedSample(mono: seq<real>, rate: nat, i: nat)
    requires rate > 0 && mono != [] && i < OutputLength(BridgeLength(|mono|, rate))
    ensures 0 <= i * rate / LOOPBACK_RATE < |mono|
    ensures Interpolated(Bridge(mono, rate), i) == mono[i * rate / LOOPBACK_RATE]
  {
    NeighbourClamps(BridgeLength(|mono|, rate));
    InterpolationPicks(Bridge(mono, rate), i);
    BridgeSample(mono, rate, 3 * i);
    SameInstant(i, rate);
  }

  lemma MonoLength(interleaved: seq<int16>, channels: nat)
    requires channels > 0 && |interleaved| % channels == 0
    ensures |Mono(interleaved, channels)| * channels == |interleaved|
  {
    assert |interleaved| == |interleaved| / channels * channels + |interleaved| % channels;
  }

  /**
   Rendering through 48 kHz equals one direct hold from the source to 16 kHz: output sample i
   is the mono frame in which its instant i / 16000 falls, for every rate, length and channel count.
   */
  lemma RenderingIsDirect(interleaved: seq<int16>, channels: nat, rate: nat)
    ensures var r := RenderBridgeReferenceToLoopback(interleaved, channels, rate);
            && (r.Waveform? <==> channels > 0 && rate > 0 && |interleaved| % channels == 0 && interleaved != [])
            && (r.Waveform? ==>
                  var mono := Mono(interleaved, channels);
                  && |mono| * channels == |interleaved|
                  && |r.samples| == Max(LOOPBACK_RATE * |mono| / rate, 1)
                  && forall i :: 0 <= i < |r.samples| ==>
                       0 <= i * rate / LOOPBACK_RATE < |mono| && r.samples[i] == mono[i * rate / LOOPBACK_RATE])
  {
    if channels > 0 && rate > 0 && |interleaved| % channels == 0 {
      var mono := Mono(interleaved, channels);
      MonoLength(interleaved, channels);
      if mono != [] {
        var bridge := Bridge(mono, rate);
        var output := seq(OutputLength(|bridge|), i requires i >= 0 => Interpolated(bridge, i));
        DirectLength(|mono|, rate);
        forall i | 0 <= i < |output|
          ensures 0 <= i * rate / LOOPBACK_RATE < |mono| && output[i] == mono[i * rate / LOOPBACK_RATE]
        {
          RenderedSample(mono, rate, i);
        }
      }
    }
  }
}
