/** PCM16 little-endian payloads: decoding, encoding, and their being inverse to each other. */
module PcmCodec {
  import opened Prelude

  newtype int16 = x: int | -0x8000 <= x < 0x8000

  datatype Decoded = Samples(samples: seq<int16>) | OddLength

  /** `i16::from_le_bytes`: two's complement, low byte first. */
  function FromLeBytes(low: byte, high: byte): int16 {
    var word := low as int + 256 * high as int;
    (if word >= 0x8000 then word - 0x1_0000 else word) as int16
  }

  /** `i16::to_le_bytes`. */
  function ToLeBytes(sample: int16): Bytes {
    var word := if sample < 0 then sample as int + 0x1_0000 else sample as int;
    [(word % 256) as byte, (word / 256) as byte]
  }

  function DecodePairs(bytes: Bytes): (samples: seq<int16>)
    requires |bytes| % 2 == 0
  {
    if bytes == [] then [] else [FromLeBytes(bytes[0], bytes[1])] + DecodePairs(bytes[2..])
  }

  function DecodePcm16Le(bytes: Bytes): Decoded {
    if |bytes| % 2 != 0 then OddLength else Samples(DecodePairs(bytes))
  }

  /** The bytes of `samples`, one pair each. */
  function Encoded(samples: seq<int16>): Bytes {
    if samples == [] then [] else Encoded(samples[..|samples| - 1]) + ToLeBytes(samples[|samples| - 1])
  }

  method EncodePcm16Le(samples: seq<int16>) returns (bytes: Bytes)
    ensures bytes == Encoded(samples)
    ensures DecodePcm16Le(bytes) == Samples(samples)
  {
    bytes := [];
    for k := 0 to |samples|
      invariant bytes == Encoded(samples[..k])
    {
      bytes := bytes + ToLeBytes(samples[k]);
      assert samples[..k + 1][..k] == samples[..k];
    }
    assert samples[..|samples|] == samples;
    DecodeEncoded(samples);
  }

  lemma SampleRoundTrip(sample: int16)
    ensures var pair := ToLeBytes(sample); FromLeBytes(pair[0], pair[1]) == sample
  {
  }

  lemma PairRoundTrip(low: byte, high: byte)
    ensures ToLeBytes(FromLeBytes(low, high)) == [low, high]
  {
    var word := low as int + 256 * high as int;
    assert word / 256 == high as int && word % 256 == low as int;
  }

  /** The two bytes are the residue of the sample modulo 2^16, low byte first. */
  lemma LowByteFirst(sample: int16)
    ensures var pair := ToLeBytes(sample);
            |pair| == 2 && (pair[0] as int + 256 * pair[1] as int - sample as int) in {0, 0x1_0000}
  {
    var word := if sample < 0 then sample as int + 0x1_0000 else sample as int;
    assert word == 256 * (word / 256) + word % 256;
  }

  /** Sample k is read from bytes 2k and 2k + 1. */
  lemma {:induction false} DecodedAt(bytes: Bytes, k: nat)
    requires |bytes| % 2 == 0 && 2 * k < |bytes|
    ensures |DecodePairs(bytes)| == |bytes| / 2
    ensures (bytes[2 * k] as int + 256 * bytes[2 * k + 1] as int - DecodePairs(bytes)[k] as int) in {0, 0x1_0000}
  {
    EncodeDecoded(bytes);
    if k > 0 {
      DecodedAt(bytes[2..], k - 1);
    }
  }

  lemma {:induction false} DecodeAppend(a: Bytes, b: Bytes)
    requires |a| % 2 == 0 && |b| % 2 == 0
    ensures DecodePairs(a + b) == DecodePairs(a) + DecodePairs(b)
  {
    hide FromLeBytes;
    if a == [] {
      assert a + b == b;
    } else {
      DecodeAppend(a[2..], b);
      assert (a + b)[2..] == a[2..] + b;
    }
  }

  lemma {:induction false} DecodeEncoded(samples: seq<int16>)
    ensures |Encoded(samples)| == 2 * |samples|
    ensures DecodePcm16Le(Encoded(samples)) == Samples(samples)
  {
    if samples != [] {
      var init, last := samples[..|samples| - 1], samples[|samples| - 1];
      DecodeEncoded(init);
      DecodeAppend(Encoded(init), ToLeBytes(last));
      SampleRoundTrip(last);
      assert DecodePairs(ToLeBytes(last)) == [last];
      assert samples == init + [last];
    }
  }

  /** A payload is rejected exactly when its length is odd; otherwise encoding gives it back. */
  lemma {:induction false} EncodeDecoded(bytes: Bytes)
    ensures DecodePcm16Le(bytes) == OddLength <==> |bytes| % 2 == 1
    ensures |bytes| % 2 == 0 ==>
              |DecodePairs(bytes)| == |bytes| / 2 && Encoded(DecodePairs(bytes)) == bytes
  {
    if |bytes| % 2 == 0 && bytes != [] {
      var init, tail := bytes[..|bytes| - 2], bytes[|bytes| - 2..];
      EncodeDecoded(init);
      DecodeAppend(init, tail);
      assert bytes == init + tail;
      PairRoundTrip(tail[0], tail[1]);
      var sample := FromLeBytes(tail[0], tail[1]);
      assert DecodePairs(tail) == [sample] && tail == [tail[0], tail[1]];
      assert DecodePairs(bytes)[..|DecodePairs(init)|] == DecodePairs(init);
    }
  }
}
