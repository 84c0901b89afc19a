# RemixOnChain: seed-to-CID pipeline in Dafny

This project models the content-addressing core of the RemixOnChain Stylus
contract. `generate_wave_impl` turns a 64-bit seed into a content identifier
(CID) in five steps. It splits the seed into little-endian bytes and derives
three oscillator frequencies and two initial phases from them. It runs a fixed
88 200-step synthesis loop that pushes one sample per step. It encodes every
sample as four little-endian bytes. Last, it hashes the buffer with SHA-256 and
renders the digest as 64 lowercase hex characters. Three contract-facing pieces
wrap this: `generate_wave` returns the CID's bytes, `mint_if_valid` returns the
SHA-256 of those bytes, and `token_uri` builds the metadata URL of a token.

Layout, one module per component:

- `bytes.dfy` (`Bytes`): u16/u32/u64/u256 and little-endian conversion (`to_le_bytes`, `from_le_bytes`).
- `oscillator.dfy` (`Oscillator`): seed bytes, the sub-seeds `val1..3`, the frequencies `f1..3`, and the initial oscillator bank.
- `synthesis.dfy` (`Synthesis`): the synthesis loop.
- `encoding.dfy` (`Encoding`): the encode loop and its inverse.
- `hex.dfy` (`Hex`): `hex::encode` and its inverse.
- `decimal.dfy` (`Decimal`): the decimal printing of a U256 used by `token_uri`.
- `wave.dfy` (`Wave`): `sha256_hash` and `generate_wave_impl`.
- `contract.dfy` (`Contract`): `generate_wave`, `mint_if_valid`, `token_uri`.
- `wrappers.dfy` (`Wrappers`): `Option`.

Two things are outside Dafny's reach and are passed in as parameters, in a
`Platform<F>` value. One is SHA-256, a function from bytes to 32 bytes. The
other is the f32 arithmetic of the oscillators, over an abstract float type `F`:
`b / 255.0`, the constant `0.49`, `f / 44100.0`, `(phase + inc) % 1.0`, and the
mix of the three phases into one sample. A sample is represented by its 32-bit
pattern, which is what `f32::to_le_bytes` serialises. Every property below
holds for every choice of these functions. The whole pipeline is therefore a
function of the seed and the platform. Running it twice on the same seed gives
the same CID, and `GenerateWaveImpl`'s postcondition pins its result to that
function.

The frequencies are modelled exactly, as the integers `100 + v % 901`. A u16
converts to f32 without loss, because it fits in 24 bits. `%` on integral f32
values is exact, and so is the sum, since it is at most 1000.

The code, not a reading of the function names, decides the following points:

- The frequency band is the closed range [100, 1000]. A sub-seed of 900 gives
  exactly 1000 (`TopFrequencyReached`), so the top is included.
- `mint_if_valid` does not return the digest behind the CID. It returns the
  SHA-256 of the CID's 64 ASCII bytes, which is a second hash
  (`MintIsDoubleHash`). Hex-decoding `generate_wave`'s output gives the first
  digest (`WaveBytes`). So `mint_if_valid(seed)` is not, in general, the
  hex-decoding of `generate_wave(seed)`, as a reading of its purpose would
  suggest: `MintCanDiffer` shows that for every seed some hash function
  makes the two differ.
- `mint_if_valid` checks nothing and changes no storage (`MintIfValid`).

## Model

| member | source | states |
|---|---|---|
| Bytes.LeValueOfLeBytes | src/lib.rs:99 | reading back the low n little-endian bytes of x gives x mod 256^n; for n = 8 and a u64 this is the seed itself |
| Bytes.LeBytesOfLeValue | src/lib.rs:99 | every byte sequence is the little-endian representation of its value, so the representation is unique |
| Bytes.LeBytesAt | src/lib.rs:99 | byte i of `to_le_bytes` is digit i of the number in base 256 |
| Bytes.U16FromLe | src/lib.rs:102-104 | `u16::from_le_bytes([lo, hi])` is lo + 256 * hi |
| Bytes.U32RoundTrip | src/lib.rs:132 | a 32-bit pattern read back from its four little-endian bytes is the same pattern |
| Oscillator.SeedBytes | src/lib.rs:99 | `seed.to_le_bytes()` has 8 bytes and their little-endian sum, Σ byte[i]·256^i, is the seed |
| Oscillator.SeedBytesUnique | src/lib.rs:99 | no other 8 bytes have the seed as their little-endian value |
| Oscillator.SubSeed | src/lib.rs:102-104 | `valK` is byte[2K-2] + 256·byte[2K-1], for pairs (0,1), (2,3), (4,5) |
| Oscillator.SubSeedField | src/lib.rs:102-104 | sub-seed k is bits 16k to 16k+15 of the seed |
| Oscillator.SeedSplit | src/lib.rs:99-111 | the three sub-seeds and the two phase bytes together make up the whole seed: seed = val1 + 2^16·val2 + 2^32·val3 + 2^48·(byte6 + 256·byte7) |
| Oscillator.PhaseBytesField | src/lib.rs:110-111 | the phase bytes 6 and 7 are bits 48 to 55 and 56 to 63 of the seed |
| Oscillator.Frequency | src/lib.rs:105-107 | every frequency is an integer in the closed range [100, 1000] |
| Oscillator.TopFrequencyReached | src/lib.rs:105 | every seed whose low 16 bits are 900, seed 900 among them, gives the sine oscillator the frequency 1000, so the upper bound is reached |
| Oscillator.InitialBank | src/lib.rs:99-116 | in terms of the seed's bits: phase1 and phase2 come from bits 48-55 and 56-63 divided by 255, phase3 is the constant 0.49, and each increment is (100 + (16-bit digit k) % 901) / sample rate |
| Synthesis.TotalSamples | src/lib.rs:94-96 | the sample count is 88200 for every seed |
| Synthesis.Phase | src/lib.rs:124-126 | a phase after zero loop iterations is its starting value |
| Synthesis.PhaseShift | src/lib.rs:124-126 | every iteration applies the same update `(phase + inc) % 1.0`: one step and then n more is the phase after n + 1 steps |
| Synthesis.SampleAt | src/lib.rs:119-123 | the first sample pushed is the mix of the three starting phases |
| Synthesis.SampleShift | src/lib.rs:119-126 | sample i + 1 is sample i of the bank advanced by one iteration, so the loop computes the same thing at every step |
| Synthesis.Waveform | src/lib.rs:118-127 | the buffer has 88200 samples and sample i is the mix of the three phases after i advances |
| Synthesis.Synthesize | src/lib.rs:118-127 | the loop, updating three phases in place and pushing one sample per step, produces exactly that buffer |
| Encoding.Serialize | src/lib.rs:130-133 | the encoded buffer is 4 × samples.len() bytes long |
| Encoding.SerializeAt | src/lib.rs:130-133 | byte 4i+j of the buffer is byte j of sample i's little-endian bytes |
| Encoding.SerializeGroup | src/lib.rs:132 | bytes 4i..4i+3 are exactly sample i's `to_le_bytes` |
| Encoding.SerializePrefix | src/lib.rs:130-133 | the first 4k bytes are the encoding of the first k samples, so later iterations leave earlier bytes untouched |
| Encoding.DeserializeSerialize | src/lib.rs:130-133 | decoding the buffer four bytes at a time gives back exactly the sample bit patterns, in order |
| Encoding.SerializeDeserialize | src/lib.rs:130-133 | every buffer whose length is a multiple of 4 is the encoding of its decoding, so the encoding is one-to-one and onto such buffers |
| Encoding.EncodeSamples | src/lib.rs:130-133 | the encode loop, extending the buffer once per sample, produces that encoding |
| Hex.Encode | src/lib.rs:138 | `hex::encode` of n bytes gives 2n characters, all in `0-9a-f` |
| Hex.EncodeAt | src/lib.rs:138 | character 2i is the high nibble of byte i and character 2i+1 its low nibble |
| Hex.DecodeEncode | src/lib.rs:138 | hex-decoding the rendering recovers the bytes |
| Hex.EncodeDecode | src/lib.rs:138 | every lowercase hex string that decodes is the rendering of what it decodes to |
| Hex.EncodeInjective | src/lib.rs:138 | distinct digests have distinct renderings |
| Wave.Sha256Hash | src/lib.rs:14-21 | the copied digest is always 32 bytes, so `copy_from_slice` never fails |
| Wave.EncodedWave | src/lib.rs:118-133 | the hashed buffer is 352 800 bytes and decodes to the synthesised waveform |
| Wave.WaveDigest | src/lib.rs:136 | the first digest is 32 bytes, the SHA-256 of the serialisation of exactly the seed's synthesised waveform |
| Wave.Cid | src/lib.rs:93-140 | the CID is 64 lowercase hex characters and hex-decodes to the SHA-256 of the encoded waveform |
| Wave.CidAt | src/lib.rs:136-138 | CID characters 2i and 2i+1 are the high and low nibbles of digest byte i |
| Wave.GenerateWaveImpl | src/lib.rs:93-140 | the step-by-step pipeline returns that CID: 64 lowercase hex characters, determined by the seed |
| Contract.AsciiBytes | src/lib.rs:51 | `into_bytes` of ASCII text gives one byte per character |
| Contract.AsciiRoundTrip | src/lib.rs:57 | the bytes of an ASCII string read back as that string |
| Contract.WaveBytes | src/lib.rs:50-52 | `generate_wave` returns 64 bytes, and read as text they hex-decode to the first digest |
| Contract.MintDigest | src/lib.rs:55-64 | `mint_if_valid`'s digest is 32 bytes |
| Contract.MintIsDoubleHash | src/lib.rs:55-64 | the result is SHA-256(ascii(hex(SHA-256(encoded samples)))), the hash of `generate_wave`'s bytes, and those bytes read as text are the hex rendering of the first digest |
| Contract.MintCanDiffer | src/lib.rs:55-64 | for every seed there is a hash function under which `mint_if_valid`'s result differs from the digest `generate_wave`'s CID hex-decodes to |
| Contract.TokenUri | src/lib.rs:27-29 | the URI is "https://my-nft-metadata.com/", then canonical decimal digits whose value is the id, then ".json" |
| Contract.ParseTokenUriRoundTrip | src/lib.rs:27-29 | the token id can be read back from its URI |
| Contract.TokenUriInjective | src/lib.rs:27-29 | distinct token ids have distinct URIs |
| Decimal.Render | src/lib.rs:28 | the decimal printing of an id is digits only, with no leading zero except for 0 |
| Decimal.ValueRender | src/lib.rs:28 | parsing the printed digits gives back the number |
| Decimal.RenderValue | src/lib.rs:28 | every canonical digit string is the printing of its value |
| Contract.RemixOnChain.GenerateWave | src/lib.rs:50-52 | returns `Ok` of the CID's 64 bytes, all ASCII lowercase hex digits; never reverts |
| Contract.RemixOnChain.MintIfValid | src/lib.rs:53-78 | returns `Ok` of the 32-byte double hash; never reverts, validates nothing, and leaves `totalMinted` and the ERC-721 storage unchanged |

## Left out

- f32 oscillator arithmetic (src/lib.rs:110-126): `sin`, the `% 1.0` wrap-around, the division by 255.0, the constant 0.49 and the sample mix are parameters of the model (`FloatOps`), so no claim is made about phase values. A phase in [0, 1) cannot be stated, and it is false at the start when byte 6 or 7 is 255, because 255 / 255.0 is 1.0.
- SHA-256 internals (the `sha2` crate): the hash is an uninterpreted function to 32 bytes. Collision resistance is not assumed.
- The regression test that seeds 42 and 43 give different CIDs (src/lib.rs:147-159): it depends on the concrete float and hash computations.
- `burn` and `total_supply` (src/lib.rs:81-90): they pass straight through to the ERC-721 component, which is not part of this model.
- The ERC-721 storage: it is an abstract type parameter of `RemixOnChain`, and only its being left unchanged is stated.
- The `sol_storage!` layout, the entrypoint macros, `msg::sender()` and the commented-out event logging: host-runtime plumbing.
- `MyError` (src/lib.rs:31-34): declared but never used.
- The `NAME` and `SYMBOL` constants (src/lib.rs:24-25): plain data, used only by the ERC-721 component.
- UTF-8 encoding of non-ASCII text: `AsciiBytes` covers only ASCII, which is all the CID ever holds.
- Contract.AsciiBytes: is stated for ASCII strings only, because `into_bytes` of other characters produces multi-byte UTF-8 sequences that never arise here.
