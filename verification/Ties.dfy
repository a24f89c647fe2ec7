/** What preferring a stamp that pairs cleanly achieves on a timestamp tie, and what it does not. */
module Ties {
  import opened Stamps
  import opened Anomalies
  import opened PairingSpec
  import opened PairingRuns

  /** A begin re-opens a span, or an end or step is an orphan, exactly when the stamp does not pair
      cleanly: what a clean begin counts is at most the eviction of some other span. */
  lemma CleanMeansQuiet(st: State, s: Sample, c: Choice)
    requires SpansOk(st.spans) && Allowed(st, Event(s, c)) && !IsValue(s)
    ensures var st' := Step(st, Event(s, c));
      && (StepOf(s.event) == BEGIN_STEP && PairsCleanly(st.spans, s) ==>
            st'.log == st.log
            || (st'.log == st.log + [(PairKeys.SpanPoint(c.key), Abandoned)] && c.key in st.spans && c.key != KeyOf(s)))
      && (StepOf(s.event) == BEGIN_STEP && !PairsCleanly(st.spans, s) ==>
            st'.log == st.log + [(s.point, Abandoned)] && |st'.spans| == |st.spans|)
      && (StepOf(s.event) != BEGIN_STEP ==>
            TallyAll(st'.log, Orphan) == TallyAll(st.log, Orphan) + if PairsCleanly(st.spans, s) then 0 else 1)
  {
    var key := KeyOf(s);
    if StepOf(s.event) == BEGIN_STEP {
      if key in st.spans {
        Put(st.spans, key, Fresh(s));
      }
    } else if key !in st.spans {
      TallyOne(st.log, s.point, Orphan, Orphan);
    } else if s.timestamp < st.spans[key].last {
      TallyOne(st.log, s.point, Invalid, Orphan);
    } else {
      assert Ordered(st.spans[key]);
      RecordingIsQuiet(st, Measured(s, st.spans[key]));
    }
  }

  /** The rule looks one stamp ahead only. Of a step and an end of one open span on the same tick, both
      pair cleanly; the step first leaves the end clean, the end first orphans the step. */
  lemma OneStampAhead(st: State, step: Sample, end: Sample, c: Choice)
    requires SpansOk(st.spans) && KeyOf(step) == KeyOf(end) && KeyOf(end) in st.spans && step.timestamp == end.timestamp
    requires StepOf(end.event) == END_STEP && StepOf(step.event) !in {BEGIN_STEP, END_STEP, VALUE_STEP}
    requires st.spans[KeyOf(end)].last <= end.timestamp
    ensures PairsCleanly(st.spans, step) && PairsCleanly(st.spans, end)
    ensures PairsCleanly(Step(st, Event(step, c)).spans, end)
    ensures !PairsCleanly(Step(st, Event(end, c)).spans, step)
  {
  }
}
