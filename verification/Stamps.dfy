/** The record an instrumented thread publishes: what its packed event word holds. */
module Stamps {
  const BEGIN_STEP: nat := 0x00
  const END_STEP: nat := 0xFF
  const VALUE_STEP: nat := 0xFE
  const MAX_SEQ: nat := 0x00FF_FFFF

  /** A stamp, or a value sample whose `timestamp` is the value itself. */
  datatype Sample = Sample(timestamp: nat, point: nat, event: nat)

  function MakeEvent(step: nat, sq: nat): nat {
    sq % (MAX_SEQ + 1) * 256 + step
  }

  function StepOf(event: nat): nat {
    event % 256
  }

  function SeqOf(event: nat): nat {
    event / 256
  }

  predicate IsValue(s: Sample) {
    StepOf(s.event) == VALUE_STEP
  }

  /** Step and sequence number survive the packing; only the sequence's low 24 bits do. */
  lemma EventRoundTrip(step: nat, sq: nat)
    requires step < 256
    ensures StepOf(MakeEvent(step, sq)) == step
    ensures SeqOf(MakeEvent(step, sq)) == sq % (MAX_SEQ + 1)
    ensures MakeEvent(step, sq) < 0x1_0000_0000
  {
  }
}
