/**
 * The synthesis loop of `generate_wave_impl`: a fixed number of steps, each
 * pushing one sample mixed from the three phases and then advancing every
 * phase by its increment. A sample is represented by its 32-bit pattern.
 */
module Synthesis {
  import opened Bytes
  import opened Oscillator

  const SAMPLE_RATE: nat := 44100
  const DURATION_SECS: nat := 2

  /** (sample_rate * duration_secs) as usize: both factors are exact in f32. */
  function TotalSamples(): (n: nat)
    ensures n == 88200
  {
    SAMPLE_RATE * DURATION_SECS
  }

  /** A phase after n steps of `advance` by the same increment. */
  function Phase<F>(advance: (F, F) -> F, start: F, inc: F, n: nat): (p: F)
    ensures n == 0 ==> p == start
  {
    if n == 0 then start else advance(Phase(advance, start, inc, n - 1), inc)
  }

  /** Every step applies the same update: one step and then n more is n + 1 steps. */
  lemma {:induction false} PhaseShift<F>(advance: (F, F) -> F, start: F, inc: F, n: nat)
    ensures Phase(advance, advance(start, inc), inc, n) == Phase(advance, start, inc, n + 1)
  {
    if n > 0 {
      PhaseShift(advance, start, inc, n - 1);
    }
  }

  /** The bank after one step: every phase advanced by its increment. */
  function Advance<F>(ops: FloatOps<F>, bank: Bank<F>): Bank<F>
  {
    bank.(phase1 := ops.advance(bank.phase1, bank.inc1),
          phase2 := ops.advance(bank.phase2, bank.inc2),
          phase3 := ops.advance(bank.phase3, bank.inc3))
  }

  /** The sample pushed at step i: the mix of the three phases after i steps. */
  function SampleAt<F>(ops: FloatOps<F>, bank: Bank<F>, i: nat): (s: u32)
    ensures i == 0 ==> s == ops.mix(bank.phase1, bank.phase2, bank.phase3)
  {
    ops.mix(Phase(ops.advance, bank.phase1, bank.inc1, i),
            Phase(ops.advance, bank.phase2, bank.inc2, i),
            Phase(ops.advance, bank.phase3, bank.inc3, i))
  }

  /** Sample i + 1 of a bank is sample i of the bank one step on. */
  lemma SampleShift<F>(ops: FloatOps<F>, bank: Bank<F>, i: nat)
    ensures SampleAt(ops, bank, i + 1) == SampleAt(ops, Advance(ops, bank), i)
  {
    PhaseShift(ops.advance, bank.phase1, bank.inc1, i);
    PhaseShift(ops.advance, bank.phase2, bank.inc2, i);
    PhaseShift(ops.advance, bank.phase3, bank.inc3, i);
  }

  /** The whole sample buffer: one sample per step, in step order. */
  function Waveform<F>(ops: FloatOps<F>, bank: Bank<F>): (w: seq<u32>)
    ensures |w| == TotalSamples()
    ensures forall i :: 0 <= i < |w| ==> w[i] == SampleAt(ops, bank, i)
  {
    seq(TotalSamples(), i requires 0 <= i => SampleAt(ops, bank, i))
  }

  /** The loop: updates the three phases in place and pushes one sample per step. */
  method Synthesize<F>(ops: FloatOps<F>, bank: Bank<F>) returns (samples: seq<u32>)
    ensures samples == Waveform(ops, bank)
  {
    var totalSamples := SAMPLE_RATE * DURATION_SECS;
    samples := [];
    var phase1, phase2, phase3 := bank.phase1, bank.phase2, bank.phase3;
    for step := 0 to totalSamples
      invariant |samples| == step
      invariant forall i :: 0 <= i < step ==> samples[i] == SampleAt(ops, bank, i)
      invariant phase1 == Phase(ops.advance, bank.phase1, bank.inc1, step)
      invariant phase2 == Phase(ops.advance, bank.phase2, bank.inc2, step)
      invariant phase3 == Phase(ops.advance, bank.phase3, bank.inc3, step)
    {
      var sample := ops.mix(phase1, phase2, phase3);
      samples := samples + [sample];
      phase1 := ops.advance(phase1, bank.inc1);
      phase2 := ops.advance(phase2, bank.inc2);
      phase3 := ops.advance(phase3, bank.inc3);
    }
  }
}
