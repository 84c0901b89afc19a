/**
 * `generate_wave_impl` and `sha256_hash`: seed -> oscillator bank -> sample
 * buffer -> encoded bytes -> SHA-256 digest -> 64-character lowercase hex CID.
 *
 * SHA-256 (the `sha2` crate) and the f32 operations are not modelled; a
 * `Platform` supplies them, so every property below holds for whatever
 * functions they are, and the pipeline is a function of the seed and the
 * platform alone.
 */
module Wave {
  import opened Bytes
  import opened Wrappers
  import Hex
  import opened Oscillator
  import opened Synthesis
  import opened Encoding

  type Digest = d: seq<byte> | |d| == 32 witness seq(32, i => 0)

  /** The SHA-256 hash function, uninterpreted. */
  type Sha256 = seq<byte> -> Digest

  datatype Platform<!F> = Platform(sha256: Sha256, float: FloatOps<F>)

  /** sha256_hash: hash the data and copy the result into a 32-byte array. */
  function Sha256Hash(sha256: Sha256, data: seq<byte>): (hash: seq<byte>)
    ensures |hash| == 32
  {
    sha256(data)
  }

  /** The encoded sample buffer for a seed. */
  function EncodedWave<F>(p: Platform<F>, seed: u64): (bs: seq<byte>)
    ensures |bs| == 4 * 88200
    ensures Deserialize(bs) == Waveform(p.float, InitialBank(p.float, seed))
  {
    var w := Waveform(p.float, InitialBank(p.float, seed));
    DeserializeSerialize(w);
    Serialize(w)
  }

  /** The first digest: SHA-256 of the encoded sample buffer, and of nothing else. */
  function WaveDigest<F>(p: Platform<F>, seed: u64): (d: seq<byte>)
    ensures |d| == 32
    ensures d == p.sha256(Serialize(Waveform(p.float, InitialBank(p.float, seed))))
  {
    Sha256Hash(p.sha256, EncodedWave(p, seed))
  }

  /** The content identifier: the hex rendering of the first digest. */
  function Cid<F>(p: Platform<F>, seed: u64): (cid: string)
    ensures |cid| == 64 && Hex.IsLowerHex(cid)
    ensures Hex.Decode(cid) == Some(WaveDigest(p, seed))
  {
    var d := WaveDigest(p, seed);
    Hex.DecodeEncode(d);
    Hex.Encode(d)
  }

  /** Character 2i of the CID is the high nibble of digest byte i, character 2i+1 its low nibble. */
  lemma CidAt<F>(p: Platform<F>, seed: u64, i: nat)
    requires i < 32
    ensures Cid(p, seed)[2 * i] == Hex.NibbleChar(WaveDigest(p, seed)[i] / 16)
    ensures Cid(p, seed)[2 * i + 1] == Hex.NibbleChar(WaveDigest(p, seed)[i] % 16)
  {
    Hex.EncodeAt(WaveDigest(p, seed), i);
  }

  /** generate_wave_impl, step by step as the source does it. */
  method GenerateWaveImpl<F>(p: Platform<F>, seed: u64) returns (cid: string)
    ensures cid == Cid(p, seed)
    ensures |cid| == 64 && Hex.IsLowerHex(cid)
  {
    var bank := InitialBank(p.float, seed);
    var samples := Synthesize(p.float, bank);
    var encoded := EncodeSamples(samples);
    assert |samples| == 88200;
    var hash := Sha256Hash(p.sha256, encoded);
    cid := Hex.Encode(hash);
  }
}
