/**
 * The encode loop of `generate_wave_impl`: every sample's four little-endian
 * bytes (`f32::to_le_bytes`, the bytes of its bit pattern), appended in sample
 * order. `Deserialize` is its partner: it reads the bytes back four at a time.
 */
module Encoding {
  import opened Bytes

  /** The encoded buffer of a sample sequence. */
  function Serialize(samples: seq<u32>): (bs: seq<byte>)
    ensures |bs| == 4 * |samples|
  {
    if samples == [] then []
    else Serialize(samples[..|samples| - 1]) + LeBytes(samples[|samples| - 1], 4)
  }

  /** Byte 4i + j of the buffer is byte j of sample i. */
  lemma {:induction false} SerializeAt(samples: seq<u32>, i: nat, j: nat)
    requires i < |samples| && j < 4
    ensures Serialize(samples)[4 * i + j] == LeBytes(samples[i], 4)[j]
  {
    var n := |samples| - 1;
    if i < n {
      SerializeAt(samples[..n], i, j);
    }
  }

  /** Bytes 4i .. 4i+3 of the buffer are sample i's little-endian bytes. */
  lemma SerializeGroup(samples: seq<u32>, i: nat)
    requires i < |samples|
    ensures Serialize(samples)[4 * i .. 4 * i + 4] == LeBytes(samples[i], 4)
  {
    var bs, word := Serialize(samples), LeBytes(samples[i], 4);
    forall j | 0 <= j < 4
      ensures bs[4 * i + j] == word[j]
    {
      SerializeAt(samples, i, j);
    }
    SliceOfWord(bs, i, word);
  }

  lemma SliceOfWord(bs: seq<byte>, i: nat, word: seq<byte>)
    requires |word| == 4 && 4 * i + 4 <= |bs|
    requires forall j :: 0 <= j < 4 ==> bs[4 * i + j] == word[j]
    ensures bs[4 * i .. 4 * i + 4] == word
  {
  }

  /** Encoding a longer sequence leaves the bytes of its prefix as they were. */
  lemma {:induction false} SerializePrefix(samples: seq<u32>, k: nat)
    requires k <= |samples|
    ensures Serialize(samples)[..4 * k] == Serialize(samples[..k])
    decreases |samples|
  {
    if k < |samples| {
      var n := |samples| - 1;
      assert samples[..n][..k] == samples[..k];
      SerializePrefix(samples[..n], k);
    } else {
      assert samples[..k] == samples;
    }
  }

  /** Reads a buffer back as 32-bit little-endian words, in order. */
  function Deserialize(bs: seq<byte>): (samples: seq<u32>)
    requires |bs| % 4 == 0
    ensures |samples| == |bs| / 4
  {
    seq(|bs| / 4, i requires 0 <= i < |bs| / 4 => U32FromLe(bs[4 * i .. 4 * i + 4]))
  }

  lemma DeserializeAt(bs: seq<byte>, i: nat)
    requires |bs| % 4 == 0 && i < |bs| / 4
    ensures Deserialize(bs)[i] == U32FromLe(bs[4 * i .. 4 * i + 4])
  {
  }

  /** Decoding the encoded buffer gives back exactly the sample bit patterns. */
  lemma DeserializeSerialize(samples: seq<u32>)
    ensures Deserialize(Serialize(samples)) == samples
  {
    var bs := Serialize(samples);
    var back := Deserialize(bs);
    assert |back| == |samples|;
    forall i | 0 <= i < |samples|
      ensures back[i] == samples[i]
    {
      DeserializeAt(bs, i);
      SerializeGroup(samples, i);
      U32RoundTrip(samples[i]);
    }
  }

  /** Every buffer whose length is a multiple of four is the encoding of its decoding. */
  lemma SerializeDeserialize(bs: seq<byte>)
    requires |bs| % 4 == 0
    ensures Serialize(Deserialize(bs)) == bs
  {
    var samples := Deserialize(bs);
    forall k | 0 <= k < |bs|
      ensures Serialize(samples)[k] == bs[k]
    {
      var i, j := k / 4, k % 4;
      assert k == 4 * i + j;
      assert Serialize(samples)[4 * i + j] == LeBytes(samples[i], 4)[j] by {
        SerializeAt(samples, i, j);
      }
      assert LeBytes(samples[i], 4) == bs[4 * i .. 4 * i + 4] by {
        DeserializeAt(bs, i);
      }
    }
  }

  /** The encode loop: extends the buffer by one sample's four bytes per iteration. */
  method EncodeSamples(samples: seq<u32>) returns (encoded: seq<byte>)
    ensures encoded == Serialize(samples)
  {
    encoded := [];
    for i := 0 to |samples|
      invariant encoded == Serialize(samples[..i])
    {
      assert samples[..i + 1][..i] == samples[..i];
      encoded := encoded + LeBytes(samples[i], 4);
    }
    assert samples[..|samples|] == samples;
  }
}
