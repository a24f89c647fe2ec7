/** What each input does to the pairer's tables, told from the stamps themselves: for an open span, those
    since it began. */
module PairingEffects {
  import opened Stamps
  import opened PairKeys
  import opened Anomalies
  import opened OpenMaps
  import opened PairingSpec
  import opened PairingRuns

  // ---- The stamps of an open span -----------------------------------------

  /** The stamps of one span since it was last begun, as a history of inputs has them. */
  function StampsOf(history: seq<Input>, key: nat): seq<Sample> {
    if history == [] then []
    else
      var before, inp := StampsOf(history[..|history| - 1], key), history[|history| - 1];
      if !inp.Event? || IsValue(inp.s) || KeyOf(inp.s) != key then before
      else if StepOf(inp.s.event) == BEGIN_STEP then [inp.s]
      else before + [inp.s]
  }

  function Last(stamps: seq<Sample>): Sample
    requires stamps != []
  {
    stamps[|stamps| - 1]
  }

  /** The span is what its stamps make it: a begin, then steps in time order. */
  ghost predicate MadeBy(sp: OpenSpan, stamps: seq<Sample>) {
    && stamps != [] && StepOf(stamps[0].event) == BEGIN_STEP
    && (forall i :: 0 < i < |stamps| ==> StepOf(stamps[i].event) !in {BEGIN_STEP, END_STEP, VALUE_STEP})
    && (forall i, j :: 0 <= i < j < |stamps| ==> stamps[i].timestamp <= stamps[j].timestamp)
    && sp.start == stamps[0].timestamp && sp.last == sp.seen == Last(stamps).timestamp
    && sp.lastStep == StepOf(Last(stamps).event) && sp.transitions == |stamps| - 1
  }

  ghost predicate AllMade(spans: map<nat, OpenSpan>, history: seq<Input>) {
    forall k :: k in spans ==> MadeBy(spans[k], StampsOf(history, k))
  }

  lemma StampsOneMore(history: seq<Input>, inp: Input, key: nat)
    ensures StampsOf(history + [inp], key) ==
            if !inp.Event? || IsValue(inp.s) || KeyOf(inp.s) != key then StampsOf(history, key)
            else if StepOf(inp.s.event) == BEGIN_STEP then [inp.s]
            else StampsOf(history, key) + [inp.s]
  {
    assert (history + [inp])[..|history|] == history;
  }

  lemma StepMakes(st: State, inp: Input, history: seq<Input>)
    requires SpansOk(st.spans) && AllMade(st.spans, history)
    ensures AllMade(Step(st, inp).spans, history + [inp])
  {
    var st' := Step(st, inp);
    forall k | k in st'.spans
      ensures MadeBy(st'.spans[k], StampsOf(history + [inp], k))
    {
      StampsOneMore(history, inp, k);
      if inp.Event? {
        EventMakes(st, inp.s, inp.choice, StampsOf(history, k), k);
      }
    }
  }

  lemma EventMakes(st: State, s: Sample, c: Choice, stamps: seq<Sample>, k: nat)
    requires SpansOk(st.spans) && k in OnEvent(st, s, c).spans && (k in st.spans ==> MadeBy(st.spans[k], stamps))
    ensures MadeBy(OnEvent(st, s, c).spans[k],
                   if IsValue(s) || KeyOf(s) != k then stamps
                   else if StepOf(s.event) == BEGIN_STEP then [s] else stamps + [s])
  {
    EventSpans(st, s, c);
    if !IsValue(s) && KeyOf(s) == k && StepOf(s.event) != BEGIN_STEP {
      TouchMakes(st.spans[k], stamps, s);
    }
  }

  lemma TouchMakes(sp: OpenSpan, stamps: seq<Sample>, s: Sample)
    requires MadeBy(sp, stamps) && StepOf(s.event) !in {BEGIN_STEP, END_STEP, VALUE_STEP} && sp.last <= s.timestamp
    ensures MadeBy(Touched(s, sp), stamps + [s])
  {
    var more := stamps + [s];
    assert Last(more) == s && more[0] == stamps[0];
    forall i, j | 0 <= i < j < |more|
      ensures more[i].timestamp <= more[j].timestamp
    {
      assert i < |stamps| - 1 ==> stamps[i].timestamp <= Last(stamps).timestamp;
    }
  }

  /** What is left of the open spans once an event is paired. */
  lemma EventSpans(st: State, s: Sample, c: Choice)
    requires SpansOk(st.spans)
    ensures var key, step, spans := KeyOf(s), StepOf(s.event), OnEvent(st, s, c).spans;
      && (step == VALUE_STEP ==> spans == st.spans)
      && (step == BEGIN_STEP && key in spans ==> spans[key] == Fresh(s))
      && (forall k :: k in spans && k != key ==> k in st.spans && spans[k] == st.spans[k])
      && (step !in {BEGIN_STEP, VALUE_STEP} && key in spans ==>
            && key in st.spans && st.spans[key].last <= s.timestamp && step != END_STEP
            && spans[key] == Touched(s, st.spans[key]))
  {
    if StepOf(s.event) !in {BEGIN_STEP, VALUE_STEP} && KeyOf(s) in st.spans
       && st.spans[KeyOf(s)].last <= s.timestamp {
      assert Ordered(st.spans[KeyOf(s)]);
    }
  }

  /** In every run, each open span is what the stamps since its begin make it. */
  lemma SpansAreMade(st: State, inputs: seq<Input>, end: State, l: Ledger)
    requires Init(st) && (InitOk(st); Reaches(st, EMPTY, inputs, end, l))
    ensures AllMade(end.spans, inputs)
  {
    InitOk(st);
    MadeThrough(st, EMPTY, inputs, end, l, []);
    assert [] + inputs == inputs;
  }

  lemma {:induction false} MadeThrough(st: State, l: Ledger, inputs: seq<Input>, end: State, endL: Ledger,
                                       history: seq<Input>)
    requires LedgerOk(st, l) && Reaches(st, l, inputs, end, endL) && AllMade(st.spans, history)
    ensures AllMade(end.spans, history + inputs)
    decreases |inputs|
  {
    if inputs == [] {
      assert history + inputs == history;
    } else {
      StepKeepsLedger(st, l, inputs[0]);
      StepMakes(st, inputs[0], history);
      MadeThrough(Step(st, inputs[0]), Account(st, l, inputs[0]), inputs[1..], end, endL, history + [inputs[0]]);
      HistoryOn(history, inputs);
    }
  }

  lemma HistoryOn(history: seq<Input>, inputs: seq<Input>)
    requires inputs != []
    ensures history + [inputs[0]] + inputs[1..] == history + inputs
  {
  }

  // ---- What an event does -------------------------------------------------

  /** One anomaly of this kind more at this point, and nothing else. */
  ghost predicate CountsOne(was: Log, now: Log, p: nat, k: Kind) {
    forall q, j :: Tally(now, q, j) == Tally(was, q, j) + if q == p && j == k then 1 else 0
  }

  ghost predicate CountsNone(was: Log, now: Log) {
    forall q, j :: Tally(now, q, j) == Tally(was, q, j)
  }

  lemma OneCounted(log: Log, p: nat, k: Kind)
    ensures CountsOne(log, log + [(p, k)], p, k)
  {
    assert (log + [(p, k)])[..|log|] == log;
  }

  /** Of two states of the stage table: the one stage has one value more, at the end of its interval, and no
      other is changed; or it is not there, there is no room for it, and that is counted instead. */
  ghost predicate Gains(was: State, now: State, p: nat, from: nat, to: nat, value: nat) {
    var key := StageKey(p, from, to);
    if key in was.stages then
      now.stages == was.stages[key := was.stages[key].(interval := was.stages[key].interval + [value])]
      && CountsNone(was.log, now.log)
    else if |was.stages| < was.maxStages then
      now.stages == was.stages[key := Stage(p, from, to, [value], [])] && CountsNone(was.log, now.log)
    else now.stages == was.stages && CountsOne(was.log, now.log, p, OutOfRange)
  }

  lemma RecordGains(st: State, r: Rec, cost: nat)
    requires cost == st.overhead * r.transitions
    ensures Gains(st, Record(st, r), r.point, r.from, r.to, if r.cycles > cost then r.cycles - cost else 0)
    ensures Record(st, r).overhead == st.overhead
  {
    OneCounted(st.log, r.point, OutOfRange);
    var key := StageKey(r.point, r.from, r.to);
    var value := if r.cycles > cost then r.cycles - cost else 0;
    if key !in st.stages && |st.stages| < st.maxStages {
      var empty, some := Stage(r.point, r.from, r.to, [], []), Stage(r.point, r.from, r.to, [value], []);
      assert empty.interval + [value] == [value];
      assert st.stages[key := empty][key := some] == st.stages[key := some];
    }
  }

  /** A value joins its own stage as it is. */
  lemma ValueDoes(st: State, s: Sample, c: Choice)
    requires SpansOk(st.spans) && StepOf(s.event) == VALUE_STEP
    ensures var st' := Step(st, Event(s, c));
      Gains(st, st', s.point, VALUE_STEP, VALUE_STEP, s.timestamp) && st'.spans == st.spans && st'.peak == st.peak
  {
    RecordGains(st, Rec(s.point, VALUE_STEP, VALUE_STEP, s.timestamp, 0), 0);
  }

  /** A begin opens its span; one still open counts as abandoned, and so does the one a full table gives up. */
  lemma BeginDoes(st: State, s: Sample, c: Choice)
    requires Inv(st) && StepOf(s.event) == BEGIN_STEP && Allowed(st, Event(s, c))
    ensures var key, started := KeyOf(s), OpenSpan(s.timestamp, s.timestamp, s.timestamp, 0, BEGIN_STEP);
      var st' := Step(st, Event(s, c));
      && st'.stages == st.stages
      && (key in st.spans ==> st'.spans == st.spans[key := started] && CountsOne(st.log, st'.log, s.point, Abandoned))
      && (key !in st.spans && |st.spans| < st.maxSpans ==>
            st'.spans == st.spans[key := started] && CountsNone(st.log, st'.log))
      && (key !in st.spans && |st.spans| >= st.maxSpans ==>
            && c.key in st.spans && st'.spans == (st.spans - {c.key})[key := started]
            && CountsOne(st.log, st'.log, SpanPoint(c.key), Abandoned))
      && st'.peak == if key !in st.spans && |st'.spans| > st.peak then |st'.spans| else st.peak
  {
    OneCounted(st.log, s.point, Abandoned);
    if NeedsRoom(st, s) {
      EvictionFreesASlot(st, c);
      OneCounted(st.log, SpanPoint(c.key), Abandoned);
    }
  }

  /** Any other stamp with no span open is an orphan; one that goes back in time drops its span. */
  lemma StrayDoes(st: State, s: Sample, c: Choice)
    requires SpansOk(st.spans) && !IsValue(s) && StepOf(s.event) != BEGIN_STEP
    requires KeyOf(s) !in st.spans || s.timestamp < st.spans[KeyOf(s)].last
    ensures var st' := Step(st, Event(s, c));
      && st'.stages == st.stages && st'.peak == st.peak
      && (KeyOf(s) !in st.spans ==> st'.spans == st.spans && CountsOne(st.log, st'.log, s.point, Orphan))
      && (KeyOf(s) in st.spans ==>
            st'.spans == st.spans - {KeyOf(s)} && CountsOne(st.log, st'.log, s.point, Invalid))
  {
    OneCounted(st.log, s.point, Orphan);
    OneCounted(st.log, s.point, Invalid);
  }

  /** A step joins its transition, from the step stamped before, less the cost of one stamp. */
  lemma StepDoes(st: State, s: Sample, c: Choice, stamps: seq<Sample>)
    requires SpansOk(st.spans) && StepOf(s.event) !in {BEGIN_STEP, END_STEP, VALUE_STEP} && KeyOf(s) in st.spans
    requires MadeBy(st.spans[KeyOf(s)], stamps) && Last(stamps).timestamp <= s.timestamp
    ensures var raw, st' := s.timestamp - Last(stamps).timestamp, Step(st, Event(s, c));
      && Gains(st, st', s.point, StepOf(Last(stamps).event), StepOf(s.event),
               if raw > st.overhead then raw - st.overhead else 0)
      && st'.peak == st.peak
      && st'.spans == st.spans[KeyOf(s) := OpenSpan(stamps[0].timestamp, s.timestamp, s.timestamp, |stamps|,
                                                    StepOf(s.event))]
  {
    var sp := st.spans[KeyOf(s)];
    assert Ordered(sp);
    var r := Rec(s.point, sp.lastStep, StepOf(s.event), s.timestamp - sp.last, 1);
    assert RecordAll(st, [r]) == Record(st, r);
    RecordGains(st, r, st.overhead);
    RecordingIsQuiet(st, [r]);
  }

  /** An end joins its last transition, unless that is the whole span, and then the total: the time since
      the begin, less the cost of as many stamps as the span had transitions. */
  lemma EndDoes(st: State, s: Sample, c: Choice, stamps: seq<Sample>) returns (mid: State)
    requires SpansOk(st.spans) && StepOf(s.event) == END_STEP && KeyOf(s) in st.spans
    requires MadeBy(st.spans[KeyOf(s)], stamps) && Last(stamps).timestamp <= s.timestamp
    ensures var part := s.timestamp - Last(stamps).timestamp;
      if |stamps| == 1 then mid == st
      else Gains(st, mid, s.point, StepOf(Last(stamps).event), END_STEP,
                 if part > st.overhead then part - st.overhead else 0)
    ensures stamps[0].timestamp <= s.timestamp
    ensures var raw, cost := s.timestamp - stamps[0].timestamp, st.overhead * |stamps|;
      Gains(mid, Step(st, Event(s, c)), s.point, BEGIN_STEP, BEGIN_STEP, if raw > cost then raw - cost else 0)
    ensures var st' := Step(st, Event(s, c)); st'.spans == st.spans - {KeyOf(s)} && st'.peak == st.peak
  {
    var sp := st.spans[KeyOf(s)];
    EndStep(st, s, c);
    EndMeasures(s, sp, stamps);
    mid := EndRecords(st, s, sp, stamps);
    RecordingIsQuiet(st, Measured(s, sp));
    var raw, cost := s.timestamp - stamps[0].timestamp, st.overhead * |stamps|;
    GainsOnly(mid, RecordAll(st, Measured(s, sp)), Step(st, Event(s, c)), s.point, BEGIN_STEP, BEGIN_STEP,
              if raw > cost then raw - cost else 0);
  }

  /** What an end measures, as the stamps have it. */
  lemma EndMeasures(s: Sample, sp: OpenSpan, stamps: seq<Sample>)
    requires MadeBy(sp, stamps)
    ensures sp.transitions + 1 == |stamps| && (sp.lastStep == BEGIN_STEP <==> |stamps| == 1)
    ensures sp.start == stamps[0].timestamp <= Last(stamps).timestamp == sp.last
    ensures sp.lastStep == StepOf(Last(stamps).event)
  {
    assert |stamps| > 1 ==> StepOf(stamps[|stamps| - 1].event) != BEGIN_STEP;
  }

  lemma EndRecords(st: State, s: Sample, sp: OpenSpan, stamps: seq<Sample>) returns (mid: State)
    requires StepOf(s.event) == END_STEP && sp.start <= sp.last <= s.timestamp
    requires sp.transitions + 1 == |stamps| && (sp.lastStep == BEGIN_STEP <==> |stamps| == 1)
    ensures var part := s.timestamp - sp.last;
      if |stamps| == 1 then mid == st
      else Gains(st, mid, s.point, sp.lastStep, END_STEP, if part > st.overhead then part - st.overhead else 0)
    ensures var raw, cost := s.timestamp - sp.start, st.overhead * |stamps|;
      Gains(mid, RecordAll(st, Measured(s, sp)), s.point, BEGIN_STEP, BEGIN_STEP, if raw > cost then raw - cost else 0)
  {
    MeasuredInOrder(st, s, sp);
    var last := Rec(s.point, sp.lastStep, END_STEP, s.timestamp - sp.last, 1);
    var total := Rec(s.point, BEGIN_STEP, BEGIN_STEP, s.timestamp - sp.start, sp.transitions + 1);
    mid := PartThenTotal(st, |stamps| > 1, last, total, st.overhead * |stamps|);
    assert RecordAll(st, Measured(s, sp)) == Record(mid, total);
  }

  lemma PartThenTotal(st: State, parted: bool, last: Rec, total: Rec, cost: nat) returns (mid: State)
    requires last.transitions == 1 && cost == st.overhead * total.transitions
    ensures if !parted then mid == st
      else mid == Record(st, last)
           && Gains(st, mid, last.point, last.from, last.to,
                    if last.cycles > st.overhead then last.cycles - st.overhead else 0)
    ensures Gains(mid, Record(mid, total), total.point, total.from, total.to,
                  if total.cycles > cost then total.cycles - cost else 0)
  {
    RecordGains(st, last, st.overhead);
    mid := if parted then Record(st, last) else st;
    RecordGains(mid, total, cost);
  }

  /** Only the stages and the counters matter to what was gained. */
  lemma GainsOnly(was: State, now: State, later: State, p: nat, from: nat, to: nat, value: nat)
    requires Gains(was, now, p, from, to, value) && later.stages == now.stages && later.log == now.log
    ensures Gains(was, later, p, from, to, value)
  {
  }

  /** Over any run: what the next step or end of an open span adds is told by the stamps since its begin. */
  lemma PairedDoes(st: State, inputs: seq<Input>, end: State, l: Ledger, s: Sample, c: Choice)
    returns (stamps: seq<Sample>, mid: State)
    requires Init(st) && (InitOk(st); Reaches(st, EMPTY, inputs, end, l))
    requires !IsValue(s) && StepOf(s.event) != BEGIN_STEP && KeyOf(s) in end.spans
    requires end.spans[KeyOf(s)].last <= s.timestamp
    ensures stamps == StampsOf(inputs, KeyOf(s)) && MadeBy(end.spans[KeyOf(s)], stamps) && SpansOk(end.spans)
    ensures var last := Last(stamps);
      var part, raw, cost := s.timestamp - last.timestamp, s.timestamp - stamps[0].timestamp,
                             end.overhead * |stamps|;
      var next := Step(end, Event(s, c));
      && stamps[0].timestamp <= last.timestamp <= s.timestamp
      && (if StepOf(s.event) == END_STEP && |stamps| == 1 then mid == end
          else Gains(end, mid, s.point, StepOf(last.event), StepOf(s.event),
                     if part > end.overhead then part - end.overhead else 0))
      && (if StepOf(s.event) != END_STEP then mid == next
          else Gains(mid, next, s.point, BEGIN_STEP, BEGIN_STEP, if raw > cost then raw - cost else 0))
  {
    InitOk(st);
    LedgerAfter(st, EMPTY, inputs, end, l);
    SpansAreMade(st, inputs, end, l);
    stamps := StampsOf(inputs, KeyOf(s));
    if StepOf(s.event) == END_STEP {
      mid := EndDoes(end, s, c, stamps);
    } else {
      StepDoes(end, s, c, stamps);
      mid := Step(end, Event(s, c));
    }
  }

  // ---- What a sweep does --------------------------------------------------

  /** The spans of a point among these. */
  function AtPoint(keys: set<nat>, p: nat): set<nat> {
    set k | k in keys && SpanPoint(k) == p
  }

  /** The spans gone, each counted as abandoned against its point, and nothing else. */
  ghost predicate CountsGone(was: State, now: State) {
    && now.stages == was.stages
    && (forall k :: k in now.spans ==> k in was.spans && now.spans[k] == was.spans[k])
    && (forall q, j :: Tally(now.log, q, j) ==
          Tally(was.log, q, j) + if j == Abandoned then |AtPoint(was.spans.Keys - now.spans.Keys, q)| else 0)
    && (forall j :: TallyAll(now.log, j) ==
          TallyAll(was.log, j) + if j == Abandoned then |was.spans.Keys - now.spans.Keys| else 0)
  }

  /** The same, of the counters kept: a point with an entry has its own there, and none gets lost. */
  ghost predicate CountersGone(was: Table, now: Table, gone: set<nat>) {
    && (forall q, j :: q in now.points ==>
          now.Of(q).Of(j) == was.Of(q).Of(j) + if j == Abandoned then |AtPoint(gone, q)| else 0)
    && (forall j :: TableTotal(now.points, j) + now.overflow.Of(j) ==
          TableTotal(was.points, j) + was.overflow.Of(j) + if j == Abandoned then |gone| else 0)
  }

  lemma CountersFollow(was: State, now: State)
    requires CountsGone(was, now) && was.log <= now.log && now.maxStages == was.maxStages
    ensures CountersGone(was.Counters(), now.Counters(), was.spans.Keys - now.spans.Keys)
  {
    forall q, j | q in now.Counters().points
      ensures now.Counters().Of(q).Of(j) ==
              was.Counters().Of(q).Of(j) + if j == Abandoned then |AtPoint(was.spans.Keys - now.spans.Keys, q)| else 0
    {
      OwnCounter(was.maxStages, was.log, now.log, q, j);
    }
    forall j
      ensures TableTotal(now.Counters().points, j) + now.Counters().overflow.Of(j) ==
              TableTotal(was.Counters().points, j) + was.Counters().overflow.Of(j)
              + if j == Abandoned then |was.spans.Keys - now.spans.Keys| else 0
    {
      NothingLost(was.maxStages, was.log, j);
      NothingLost(was.maxStages, now.log, j);
    }
  }

  /** A sweep with no limit drops nothing; otherwise the spans untouched for longer than that are gone. */
  ghost predicate SweptOut(was: State, now: State, at: nat, maxAge: nat) {
    && CountsGone(was, now)
    && (maxAge == 0 ==> now.spans == was.spans)
    && (maxAge > 0 ==> forall k :: k in was.spans ==> (k in now.spans <==> at <= was.spans[k].seen + maxAge))
  }

  lemma {:induction false} EachCounted(log: Log, order: seq<nat>, keys: set<nat>, q: nat, j: Kind)
    requires Enumerates(order, keys)
    ensures Tally(log + AbandonEach(order), q, j) ==
            Tally(log, q, j) + if j == Abandoned then |AtPoint(keys, q)| else 0
  {
    if order == [] {
      assert log + AbandonEach(order) == log && keys == {} && AtPoint(keys, q) == {};
    } else {
      var n := |order| - 1;
      var k, rest := order[n], keys - {order[n]};
      forall x | x in rest ensures x in order[..n] {
      }
      EachCounted(log, order[..n], rest, q, j);
      var before := log + AbandonEach(order[..n]);
      assert log + AbandonEach(order) == before + [(SpanPoint(k), Abandoned)];
      OneCounted(before, SpanPoint(k), Abandoned);
      assert AtPoint(keys, q) == AtPoint(rest, q) + if SpanPoint(k) == q then {k} else {};
    }
  }

  lemma DroppedCounted(was: State, now: State, gone: set<nat>, order: seq<nat>)
    requires Enumerates(order, gone) && gone <= was.spans.Keys && now.stages == was.stages
    requires now.spans == was.spans - gone && now.log == was.log + AbandonEach(order)
    ensures CountsGone(was, now)
  {
    assert was.spans.Keys - now.spans.Keys == gone;
    forall q, j
      ensures Tally(now.log, q, j) == Tally(was.log, q, j) + if j == Abandoned then |AtPoint(gone, q)| else 0
    {
      EachCounted(was.log, order, gone, q, j);
    }
    EnumeratesCount(order, gone);
    forall j
      ensures TallyAll(now.log, j) == TallyAll(was.log, j) + if j == Abandoned then |gone| else 0
    {
      TallyEach(was.log, order, j);
    }
  }

  lemma SweepDoes(st: State, now: nat, maxAge: nat, order: seq<nat>)
    requires SpansOk(st.spans) && Allowed(st, Sweep(now, maxAge, order))
    ensures SweptOut(st, Step(st, Sweep(now, maxAge, order)), now, maxAge)
  {
    var st' := Step(st, Sweep(now, maxAge, order));
    DroppedCounted(st, st', ExpiredKeys(st.spans, now, maxAge), order);
    if maxAge == 0 {
      assert ExpiredKeys(st.spans, now, maxAge) == {};
      assert st'.spans == st.spans;
    }
  }

  lemma AbandonAllDoes(st: State, order: seq<nat>)
    requires SpansOk(st.spans) && Allowed(st, AbandonAll(order))
    ensures CountsGone(st, Step(st, AbandonAll(order))) && Step(st, AbandonAll(order)).spans == map[]
  {
    assert st.spans - st.spans.Keys == map[];
    DroppedCounted(st, Step(st, AbandonAll(order)), st.spans.Keys, order);
  }
}
