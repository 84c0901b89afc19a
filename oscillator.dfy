/**
 * The oscillator bank of `generate_wave_impl`: the seed's eight little-endian
 * bytes, the three 16-bit sub-seeds taken from byte pairs (0,1), (2,3), (4,5),
 * the three frequencies derived from them, and the initial phases and phase
 * increments.
 *
 * The frequencies are integers: a u16 converts to f32 exactly (it fits in 24
 * bits), `%` of two integral f32 values is exact, and 100 plus at most 900 is
 * exact, so `100.0 + (v as f32 % 901.0)` is the integer 100 + v % 901. The
 * phases are f32 values; their arithmetic is not modelled and is supplied as
 * the operations of `FloatOps`, over an abstract float type F.
 */
module Oscillator {
  import opened Bytes

  /** The f32 operations the synthesis uses, left uninterpreted. */
  datatype FloatOps<!F> = FloatOps(
    /** (b as f32) / 255.0, the initial phase from a seed byte */
    byteRatio: byte -> F,
    /** the literal 0.49, the initial phase of the square oscillator */
    squareStart: F,
    /** f / sample_rate, the per-sample increment of an integral frequency */
    perSample: nat -> F,
    /** (phase + increment) % 1.0 */
    advance: (F, F) -> F,
    /** the bit pattern of (sin(2 pi p1) + (2 p2 - 1) + (if p3 < 0.5 then 1 else -1)) / 3.0 */
    mix: (F, F, F) -> u32)

  /** Phases and increments of the three oscillators: sine, sawtooth, square. */
  datatype Bank<F> = Bank(phase1: F, phase2: F, phase3: F, inc1: F, inc2: F, inc3: F)

  /** seed.to_le_bytes(). */
  function SeedBytes(seed: u64): (bs: seq<byte>)
    ensures |bs| == 8 && LeValue(bs) == seed
  {
    assert Pow256(8) == 0x1_0000_0000_0000_0000;
    LeValueOfLeBytes(seed, 8);
    LeBytes(seed, 8)
  }

  /** The eight bytes of a seed are the only eight bytes whose little-endian value is the seed. */
  lemma SeedBytesUnique(seed: u64, bs: seq<byte>)
    requires |bs| == 8 && LeValue(bs) == seed
    ensures bs == SeedBytes(seed)
  {
    LeBytesOfLeValue(bs);
  }

  /** val1, val2, val3: u16::from_le_bytes of byte pair (2k, 2k+1), for k = 0, 1, 2. */
  function SubSeed(seed: u64, k: nat): (v: u16)
    requires k < 3
    ensures v == SeedBytes(seed)[2 * k] as int + 256 * SeedBytes(seed)[2 * k + 1] as int
  {
    var bs := SeedBytes(seed);
    U16FromLe(bs[2 * k], bs[2 * k + 1])
  }

  /**
   * The sub-seeds are the seed's three low 16-bit digits: together with the
   * two phase bytes they make up the whole seed.
   */
  lemma {:induction false} SeedSplit(seed: u64)
    ensures var bs := SeedBytes(seed);
      seed == SubSeed(seed, 0) + 0x1_0000 * SubSeed(seed, 1) + 0x1_0000_0000 * SubSeed(seed, 2)
              + 0x1_0000_0000_0000 * (bs[6] as int + 256 * bs[7] as int)
  {
    var bs := SeedBytes(seed);
    var p0, p1, p2, p3 := bs[0..2], bs[2..4], bs[4..6], bs[6..8];
    assert bs == p0 + (p1 + (p2 + p3));
    Pow256Widths();
    LeValueAppend(p2, p3);
    LeValueAppend(p1, p2 + p3);
    LeValueAppend(p0, p1 + (p2 + p3));
    PairValue(p0);
    PairValue(p1);
    PairValue(p2);
    PairValue(p3);
  }

  lemma PairValue(p: seq<byte>)
    requires |p| == 2
    ensures LeValue(p) == p[0] as int + 256 * p[1] as int
  {
    assert p[1..][1..] == [];
  }

  /** Sub-seed k is the seed's 16-bit digit k: bits 16k to 16k+15. */
  lemma SubSeedField(seed: u64, k: nat)
    requires k < 3
    ensures SubSeed(seed, k) == (seed / Pow256(2 * k)) % 0x1_0000
  {
    var bs, p := SeedBytes(seed), Pow256(2 * k);
    var y := seed / p;
    LeBytesAt(seed, 8, 2 * k);
    LeBytesAt(seed, 8, 2 * k + 1);
    assert Pow256(2 * k + 1) == p * 256;
    DivDiv(seed, p, 256);
    ModSplit(y, 256);
    calc {
      SubSeed(seed, k);
      bs[2 * k] as int + 256 * bs[2 * k + 1] as int;
      y % 256 + 256 * ((y / 256) % 256);
      y % (256 * 256);
    }
  }

  lemma SubSeedDigits(seed: u64)
    ensures SubSeed(seed, 0) == seed % 0x1_0000
    ensures SubSeed(seed, 1) == (seed / 0x1_0000) % 0x1_0000
    ensures SubSeed(seed, 2) == (seed / 0x1_0000_0000) % 0x1_0000
  {
    SubSeedField(seed, 0);
    SubSeedField(seed, 1);
    SubSeedField(seed, 2);
    Pow256Widths();
  }

  /** Bytes 6 and 7, the phase bytes, are bits 48 to 55 and 56 to 63 of the seed. */
  lemma PhaseBytesField(seed: u64)
    ensures SeedBytes(seed)[6] == (seed / 0x1_0000_0000_0000) % 256
    ensures SeedBytes(seed)[7] == (seed / 0x100_0000_0000_0000) % 256
  {
    Pow256Widths();
    assert Pow256(6) == 0x1_0000_0000_0000 && Pow256(7) == 0x100_0000_0000_0000;
    LeBytesAt(seed, 8, 6);
    LeBytesAt(seed, 8, 7);
  }

  /** f1, f2, f3: 100.0 + (v as f32 % 901.0), exact in f32. */
  function Frequency(v: u16): (f: nat)
    ensures 100 <= f <= 1000
  {
    100 + v % 901
  }

  /**
   * A seed whose low 16 bits are 900 (seed 900, for one) gets the top
   * frequency 1000 for its sine oscillator: the band is closed at 1000.
   */
  lemma TopFrequencyReached(seed: u64)
    requires seed % 0x1_0000 == 900
    ensures Frequency(SubSeed(seed, 0)) == 1000
  {
    SubSeedDigits(seed);
  }

  /** The oscillator bank at the start of the synthesis loop. */
  function InitialBank<F>(ops: FloatOps<F>, seed: u64): (b: Bank<F>)
    ensures b.phase1 == ops.byteRatio((seed / 0x1_0000_0000_0000) % 256)
    ensures b.phase2 == ops.byteRatio((seed / 0x100_0000_0000_0000) % 256)
    ensures b.phase3 == ops.squareStart
    ensures b.inc1 == ops.perSample(100 + (seed % 0x1_0000) % 901)
    ensures b.inc2 == ops.perSample(100 + ((seed / 0x1_0000) % 0x1_0000) % 901)
    ensures b.inc3 == ops.perSample(100 + ((seed / 0x1_0000_0000) % 0x1_0000) % 901)
  {
    var bs := SeedBytes(seed);
    PhaseBytesField(seed);
    SubSeedDigits(seed);
    var f1, f2, f3 := Frequency(SubSeed(seed, 0)), Frequency(SubSeed(seed, 1)), Frequency(SubSeed(seed, 2));
    Bank(ops.byteRatio(bs[6]), ops.byteRatio(bs[7]), ops.squareStart,
         ops.perSample(f1), ops.perSample(f2), ops.perSample(f3))
  }
}
