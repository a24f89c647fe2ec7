/** What holds over every run of the pairer. */
module PairingRuns {
  import opened Stamps
  import opened PairKeys
  import opened Anomalies
  import opened OpenMaps
  import opened Options
  import opened PairingSpec

  // ---- Bookkeeping over logs and recordings -------------------------------

  lemma TallyOne(log: Log, p: nat, kind: Kind, k: Kind)
    ensures TallyAll(log + [(p, kind)], k) == TallyAll(log, k) + if kind == k then 1 else 0
  {
    assert (log + [(p, kind)])[..|log|] == log;
  }

  lemma {:induction false} TallyEach(log: Log, order: seq<nat>, k: Kind)
    ensures TallyAll(log + AbandonEach(order), k) == TallyAll(log, k) + if k == Abandoned then |order| else 0
  {
    if order == [] {
      assert log + AbandonEach(order) == log;
    } else {
      var n := |order| - 1;
      TallyEach(log, order[..n], k);
      assert log + AbandonEach(order) == (log + AbandonEach(order[..n])) + [(SpanPoint(order[n]), Abandoned)];
      TallyOne(log + AbandonEach(order[..n]), SpanPoint(order[n]), Abandoned, k);
    }
  }

  lemma {:induction false} EnumeratesCount(order: seq<nat>, keys: set<nat>)
    requires Enumerates(order, keys)
    ensures |order| == |keys|
  {
    if order == [] {
      assert keys == {};
    } else {
      var n := |order| - 1;
      forall k | k in keys - {order[n]} ensures k in order[..n] {
      }
      EnumeratesCount(order[..n], keys - {order[n]});
    }
  }

  /** Recording touches only the stages and, when they are full, the out-of-range counter. */
  lemma {:induction false} RecordOnlyStages(st: State, rs: seq<Rec>, k: Kind)
    requires k != OutOfRange
    ensures var st' := RecordAll(st, rs);
      && TallyAll(st'.log, k) == TallyAll(st.log, k)
      && st' == st.(stages := st'.stages, log := st'.log)
      && (|st.stages| <= st.maxStages ==> |st'.stages| <= st'.maxStages)
  {
    if rs == [] {
    } else {
      var n := |rs| - 1;
      RecordOnlyStages(st, rs[..n], k);
      TallyOne(RecordAll(st, rs[..n]).log, rs[n].point, OutOfRange, k);
      RecordRoom(RecordAll(st, rs[..n]), rs[n]);
    }
  }

  lemma RecordRoom(st: State, r: Rec)
    ensures |st.stages| <= st.maxStages ==> |Record(st, r).stages| <= st.maxStages
  {
    var key := StageKey(r.point, r.from, r.to);
    var stages := Inserted(st.stages, st.maxStages, key, Stage(r.point, r.from, r.to, [], []));
    if key in stages {
      assert Record(st, r).stages.Keys == stages.Keys;
      assert |Record(st, r).stages.Keys| == |Record(st, r).stages| && |stages.Keys| == |stages|;
    }
  }

  // ---- The ledger of a run ------------------------------------------------

  /** A completed span: the raw duration of each of its transitions, and the total it recorded. */
  datatype Done = Done(parts: seq<nat>, total: Rec)

  /** What a run has seen so far, kept apart from the pairer's own counters. */
  datatype Ledger = Ledger(
    begins: nat, others: nat, paired: nat, completed: nat, parts: map<nat, seq<nat>>, done: seq<Done>)

  function Total(parts: seq<nat>): nat {
    if parts == [] then 0 else Total(parts[..|parts| - 1]) + parts[|parts| - 1]
  }

  lemma TotalAppend(parts: seq<nat>, d: nat)
    ensures Total(parts + [d]) == Total(parts) + d
  {
    assert (parts + [d])[..|parts|] == parts;
  }

  ghost function Account(st: State, l: Ledger, inp: Input): Ledger
    requires SpansOk(st.spans) && (forall k :: k in st.spans ==> k in l.parts)
  {
    if !inp.Event? || IsValue(inp.s) then l
    else
      var s, key := inp.s, KeyOf(inp.s);
      if StepOf(s.event) == BEGIN_STEP then l.(begins := l.begins + 1, parts := l.parts[key := []])
      else if key !in st.spans || s.timestamp < st.spans[key].last then l.(others := l.others + 1)
      else
        assert Ordered(st.spans[key]);
        var l' := l.(others := l.others + 1, paired := l.paired + 1);
        var parts := l.parts[key] + [s.timestamp - st.spans[key].last];
        if StepOf(s.event) == END_STEP then
          var recs := Measured(s, st.spans[key]);
          l'.(completed := l.completed + 1, done := l.done + [Done(parts, recs[|recs| - 1])])
        else l'.(parts := l.parts[key := parts])
  }

  /** The transitions of an open span add up to the time since it began. */
  ghost predicate PartsOk(st: State, l: Ledger) {
    forall k :: k in st.spans ==>
      && k in l.parts
      && Total(l.parts[k]) == st.spans[k].last - st.spans[k].start
      && |l.parts[k]| == st.spans[k].transitions
  }

  /** The transitions of a completed span add up to its recorded total, stamp intervals included. */
  ghost predicate DoneOk(l: Ledger) {
    forall i :: 0 <= i < |l.done| ==>
      && l.done[i].total.from == BEGIN_STEP && l.done[i].total.to == BEGIN_STEP
      && l.done[i].total.cycles == Total(l.done[i].parts)
      && l.done[i].total.transitions == |l.done[i].parts|
  }

  ghost predicate Balanced(st: State, l: Ledger) {
    && l.begins == l.completed + TallyAll(st.log, Abandoned) + TallyAll(st.log, Invalid) + |st.spans|
    && l.others == l.paired + TallyAll(st.log, Orphan) + TallyAll(st.log, Invalid)
  }

  ghost predicate LedgerOk(st: State, l: Ledger) {
    Inv(st) && PartsOk(st, l) && DoneOk(l) && Balanced(st, l)
  }

  // ---- One step -----------------------------------------------------------

  /** An eviction drops one open span, so the table has room again. */
  lemma EvictionFreesASlot(st: State, c: Choice)
    requires MayEvict(st, c)
    ensures c.key in st.spans && |Evicted(st, c).spans| == |st.spans| - 1
    ensures c.next <= |c.queue|
  {
    if i: nat :| FirstLive(st, i) && c == Choice(st.queue[i].key, st.queue, i + 1) {
    } else {
      assert Live(st.spans, c.queue[0]);
    }
    Drop(st.spans, c.key);
  }

  lemma Drop<V>(m: map<nat, V>, k: nat)
    ensures |m - {k}| == |m| - if k in m then 1 else 0
  {
    assert (m - {k}).Keys == m.Keys - {k};
    assert |m.Keys| == |m| && |(m - {k}).Keys| == |m - {k}|;
  }

  lemma Put<V>(m: map<nat, V>, k: nat, v: V)
    ensures |m[k := v]| == |m| + if k in m then 0 else 1
  {
    assert m[k := v].Keys == m.Keys + {k};
    assert |m.Keys| == |m| && |m[k := v].Keys| == |m[k := v]|;
  }

  lemma BeginKeeps(st: State, l: Ledger, s: Sample, c: Choice)
    requires LedgerOk(st, l) && Allowed(st, Event(s, c)) && StepOf(s.event) == BEGIN_STEP
    ensures LedgerOk(Step(st, Event(s, c)), Account(st, l, Event(s, c)))
  {
    if KeyOf(s) in st.spans {
      ReopenKeeps(st, l, s);
    } else if NeedsRoom(st, s) {
      EvictionFreesASlot(st, c);
      EvictKeeps(st, l, c);
      OpenKeeps(Evicted(st, c), l, KeyOf(s), Fresh(s));
    } else {
      OpenKeeps(st, l, KeyOf(s), Fresh(s));
    }
  }

  lemma ReopenKeeps(st: State, l: Ledger, s: Sample)
    requires LedgerOk(st, l) && KeyOf(s) in st.spans
    ensures LedgerOk(Anomaly(st, s.point, Abandoned).(spans := st.spans[KeyOf(s) := Fresh(s)]),
                     l.(begins := l.begins + 1, parts := l.parts[KeyOf(s) := []]))
  {
    Put(st.spans, KeyOf(s), Fresh(s));
    TallyOne(st.log, s.point, Abandoned, Abandoned);
    TallyOne(st.log, s.point, Abandoned, Invalid);
    TallyOne(st.log, s.point, Abandoned, Orphan);
  }

  lemma EvictKeeps(st: State, l: Ledger, c: Choice)
    requires LedgerOk(st, l) && MayEvict(st, c)
    ensures LedgerOk(Evicted(st, c), l)
  {
    EvictionFreesASlot(st, c);
    TallyOne(st.log, SpanPoint(c.key), Abandoned, Abandoned);
    TallyOne(st.log, SpanPoint(c.key), Abandoned, Invalid);
    TallyOne(st.log, SpanPoint(c.key), Abandoned, Orphan);
  }

  lemma OpenKeeps(st: State, l: Ledger, key: nat, sp: OpenSpan)
    requires LedgerOk(st, l) && key !in st.spans && |st.spans| < st.maxSpans
    requires Ordered(sp) && sp.last == sp.start && sp.transitions == 0
    ensures var spans := st.spans[key := sp];
      LedgerOk(st.(spans := spans, peak := if |spans| > st.peak then |spans| else st.peak),
               l.(begins := l.begins + 1, parts := l.parts[key := []]))
  {
    Put(st.spans, key, sp);
  }

  /** Recording leaves everything the ledger watches alone. */
  lemma RecordingIsQuiet(st: State, rs: seq<Rec>)
    ensures var st' := RecordAll(st, rs);
      && st' == st.(stages := st'.stages, log := st'.log)
      && (|st.stages| <= st.maxStages ==> |st'.stages| <= st'.maxStages)
      && TallyAll(st'.log, Abandoned) == TallyAll(st.log, Abandoned)
      && TallyAll(st'.log, Invalid) == TallyAll(st.log, Invalid)
      && TallyAll(st'.log, Orphan) == TallyAll(st.log, Orphan)
  {
    RecordOnlyStages(st, rs, Abandoned);
    RecordOnlyStages(st, rs, Invalid);
    RecordOnlyStages(st, rs, Orphan);
  }

  lemma OneThenAnother(st: State, a: Rec, b: Rec)
    ensures RecordAll(st, [a]) == Record(st, a)
    ensures RecordAll(st, [a, b]) == Record(Record(st, a), b)
  {
    assert [a, b][..1] == [a];
    assert RecordAll(st, [a]) == Record(st, a);
  }

  lemma MeasuredInOrder(st: State, s: Sample, sp: OpenSpan)
    requires sp.start <= sp.last <= s.timestamp
    ensures var last := Rec(s.point, sp.lastStep, StepOf(s.event), s.timestamp - sp.last, 1);
      var total := Rec(s.point, BEGIN_STEP, BEGIN_STEP, s.timestamp - sp.start, sp.transitions + 1);
      RecordAll(st, Measured(s, sp)) ==
        if StepOf(s.event) != END_STEP then Record(st, last)
        else if sp.lastStep != BEGIN_STEP then Record(Record(st, last), total)
        else Record(st, total)
  {
    var last := Rec(s.point, sp.lastStep, StepOf(s.event), s.timestamp - sp.last, 1);
    var total := Rec(s.point, BEGIN_STEP, BEGIN_STEP, s.timestamp - sp.start, sp.transitions + 1);
    MeasuredIs(s, sp, last, total);
    if StepOf(s.event) != END_STEP {
      OneThenAnother(st, last, last);
    } else if sp.lastStep != BEGIN_STEP {
      OneThenAnother(st, last, total);
    } else {
      OneThenAnother(st, total, total);
    }
  }

  lemma MeasuredIs(s: Sample, sp: OpenSpan, last: Rec, total: Rec)
    requires sp.start <= sp.last <= s.timestamp
    requires last == Rec(s.point, sp.lastStep, StepOf(s.event), s.timestamp - sp.last, 1)
    requires total == Rec(s.point, BEGIN_STEP, BEGIN_STEP, s.timestamp - sp.start, sp.transitions + 1)
    ensures Measured(s, sp) ==
            if StepOf(s.event) != END_STEP then [last] else if sp.lastStep != BEGIN_STEP then [last, total] else [total]
  {
  }

  /** What the end of an open span comes to, of the pairer and of the ledger. */
  lemma EndStep(st: State, s: Sample, c: Choice)
    requires SpansOk(st.spans) && StepOf(s.event) == END_STEP
    requires KeyOf(s) in st.spans && st.spans[KeyOf(s)].last <= s.timestamp
    ensures Ordered(st.spans[KeyOf(s)]) && Measured(s, st.spans[KeyOf(s)]) != []
    ensures Step(st, Event(s, c)) ==
            RecordAll(st, Measured(s, st.spans[KeyOf(s)])).(spans := st.spans - {KeyOf(s)})
  {
    assert Ordered(st.spans[KeyOf(s)]);
  }

  lemma EndAccount(st: State, l: Ledger, s: Sample, c: Choice)
    requires SpansOk(st.spans) && (forall k :: k in st.spans ==> k in l.parts) && StepOf(s.event) == END_STEP
    requires KeyOf(s) in st.spans && Ordered(st.spans[KeyOf(s)]) && st.spans[KeyOf(s)].last <= s.timestamp
    ensures var sp := st.spans[KeyOf(s)];
      var recs, parts := Measured(s, sp), l.parts[KeyOf(s)] + [s.timestamp - sp.last];
      && recs != []
      && Account(st, l, Event(s, c)) ==
         l.(others := l.others + 1, paired := l.paired + 1, completed := l.completed + 1,
            done := l.done + [Done(parts, recs[|recs| - 1])])
  {
  }

  lemma EndKeeps(st: State, l: Ledger, s: Sample, c: Choice)
    requires LedgerOk(st, l) && StepOf(s.event) == END_STEP
    requires KeyOf(s) in st.spans && st.spans[KeyOf(s)].last <= s.timestamp
    ensures LedgerOk(Step(st, Event(s, c)), Account(st, l, Event(s, c)))
  {
    EndStep(st, s, c);
    EndAccount(st, l, s, c);
    var sp := st.spans[KeyOf(s)];
    var recs := Measured(s, sp);
    RecordingIsQuiet(st, recs);
    TotalAppend(l.parts[KeyOf(s)], s.timestamp - sp.last);
    EndLedger(st, l, KeyOf(s), RecordAll(st, recs), l.parts[KeyOf(s)] + [s.timestamp - sp.last], recs[|recs| - 1]);
  }

  lemma EndLedger(st: State, l: Ledger, key: nat, recorded: State, parts: seq<nat>, total: Rec)
    requires LedgerOk(st, l) && key in st.spans
    requires recorded == st.(stages := recorded.stages, log := recorded.log) && |recorded.stages| <= recorded.maxStages
    requires TallyAll(recorded.log, Abandoned) == TallyAll(st.log, Abandoned)
    requires TallyAll(recorded.log, Invalid) == TallyAll(st.log, Invalid)
    requires TallyAll(recorded.log, Orphan) == TallyAll(st.log, Orphan)
    requires total.from == BEGIN_STEP && total.to == BEGIN_STEP
    requires total.cycles == Total(parts) && total.transitions == |parts|
    ensures LedgerOk(recorded.(spans := st.spans - {key}),
                     l.(others := l.others + 1, paired := l.paired + 1, completed := l.completed + 1,
                        done := l.done + [Done(parts, total)]))
  {
    Drop(st.spans, key);
    DoneOneMore(l, parts, total);
  }

  lemma DoneOneMore(l: Ledger, parts: seq<nat>, total: Rec)
    requires DoneOk(l) && total.from == BEGIN_STEP && total.to == BEGIN_STEP
    requires total.cycles == Total(parts) && total.transitions == |parts|
    ensures DoneOk(l.(done := l.done + [Done(parts, total)]))
  {
  }

  lemma TouchKeeps(st: State, l: Ledger, s: Sample, c: Choice)
    requires LedgerOk(st, l) && !IsValue(s) && StepOf(s.event) != BEGIN_STEP && StepOf(s.event) != END_STEP
    requires KeyOf(s) in st.spans && st.spans[KeyOf(s)].last <= s.timestamp
    ensures LedgerOk(Step(st, Event(s, c)), Account(st, l, Event(s, c)))
  {
    var sp := st.spans[KeyOf(s)];
    assert Ordered(sp);
    RecordingIsQuiet(st, Measured(s, sp));
    TotalAppend(l.parts[KeyOf(s)], s.timestamp - sp.last);
    Put(st.spans, KeyOf(s), Touched(s, sp));
  }

  lemma RejectKeeps(st: State, l: Ledger, s: Sample, c: Choice)
    requires LedgerOk(st, l) && !IsValue(s) && StepOf(s.event) != BEGIN_STEP
    requires KeyOf(s) !in st.spans || s.timestamp < st.spans[KeyOf(s)].last
    ensures LedgerOk(Step(st, Event(s, c)), Account(st, l, Event(s, c)))
  {
    if KeyOf(s) in st.spans {
      CountedOnly(st.log, s.point, Invalid);
      Drop(st.spans, KeyOf(s));
    } else {
      CountedOnly(st.log, s.point, Orphan);
    }
  }

  lemma CountedOnly(log: Log, p: nat, kind: Kind)
    ensures var now := log + [(p, kind)];
      && TallyAll(now, Abandoned) == TallyAll(log, Abandoned) + (if kind == Abandoned then 1 else 0)
      && TallyAll(now, Invalid) == TallyAll(log, Invalid) + (if kind == Invalid then 1 else 0)
      && TallyAll(now, Orphan) == TallyAll(log, Orphan) + (if kind == Orphan then 1 else 0)
  {
    TallyOne(log, p, kind, Abandoned);
    TallyOne(log, p, kind, Invalid);
    TallyOne(log, p, kind, Orphan);
  }

  lemma DropAllKeeps(st: State, l: Ledger, gone: set<nat>, order: seq<nat>, st': State)
    requires LedgerOk(st, l) && gone <= st.spans.Keys && Enumerates(order, gone)
    requires st' == st.(spans := st.spans - gone, log := st.log + AbandonEach(order), queue := st'.queue,
                        next := st'.next)
    requires st'.next <= |st'.queue|
    ensures LedgerOk(st', l)
  {
    EnumeratesCount(order, gone);
    TallyEach(st.log, order, Abandoned);
    TallyEach(st.log, order, Invalid);
    TallyEach(st.log, order, Orphan);
    DropAll(st.spans, gone);
    forall k | k in st'.spans
      ensures Ordered(st'.spans[k])
    {
      assert st'.spans[k] == st.spans[k];
    }
  }

  lemma DropAll<V>(m: map<nat, V>, gone: set<nat>)
    requires gone <= m.Keys
    ensures |m - gone| == |m| - |gone|
  {
    assert (m - gone).Keys == m.Keys - gone;
    assert |m.Keys| == |m| && |(m - gone).Keys| == |m - gone|;
  }

  lemma StepKeepsLedger(st: State, l: Ledger, inp: Input)
    requires LedgerOk(st, l) && Allowed(st, inp)
    ensures LedgerOk(Step(st, inp), Account(st, l, inp))
  {
    match inp
    case Event(s, c) =>
      if IsValue(s) {
        ValueKeeps(st, l, s, c);
      } else if StepOf(s.event) == BEGIN_STEP {
        BeginKeeps(st, l, s, c);
      } else if KeyOf(s) in st.spans && st.spans[KeyOf(s)].last <= s.timestamp {
        if StepOf(s.event) == END_STEP {
          EndKeeps(st, l, s, c);
        } else {
          TouchKeeps(st, l, s, c);
        }
      } else {
        RejectKeeps(st, l, s, c);
      }
    case Sweep(now, maxAge, order) =>
      DropAllKeeps(st, l, ExpiredKeys(st.spans, now, maxAge), order, Step(st, inp));
    case AbandonAll(order) =>
      assert st.spans - st.spans.Keys == map[];
      DropAllKeeps(st, l, st.spans.Keys, order, Step(st, inp));
    case ClearIntervals =>
      ClearKeeps(st, l);
  }

  lemma ValueKeeps(st: State, l: Ledger, s: Sample, c: Choice)
    requires LedgerOk(st, l) && IsValue(s)
    ensures LedgerOk(Step(st, Event(s, c)), Account(st, l, Event(s, c)))
  {
    var r := Rec(s.point, VALUE_STEP, VALUE_STEP, s.timestamp, 0);
    assert RecordAll(st, [r]) == Record(st, r);
    RecordingIsQuiet(st, [r]);
  }

  lemma ClearKeeps(st: State, l: Ledger)
    requires LedgerOk(st, l)
    ensures LedgerOk(Step(st, ClearIntervals), l)
  {
    var st' := Step(st, ClearIntervals);
    assert st'.stages.Keys == st.stages.Keys;
    assert |st.stages.Keys| == |st.stages| && |st'.stages.Keys| == |st'.stages|;
  }

  // ---- Whole runs ---------------------------------------------------------

  /** The inputs lead from one state and ledger to another. */
  ghost predicate Reaches(st: State, l: Ledger, inputs: seq<Input>, end: State, endL: Ledger)
    requires LedgerOk(st, l)
    decreases |inputs|
  {
    if inputs == [] then end == st && endL == l
    else
      && Allowed(st, inputs[0])
      && (StepKeepsLedger(st, l, inputs[0]);
          Reaches(Step(st, inputs[0]), Account(st, l, inputs[0]), inputs[1..], end, endL))
  }

  const EMPTY := Ledger(0, 0, 0, 0, map[], [])

  lemma InitOk(st: State)
    requires Init(st)
    ensures LedgerOk(st, EMPTY)
  {
  }

  lemma {:induction false} LedgerAfter(st: State, l: Ledger, inputs: seq<Input>, end: State, endL: Ledger)
    requires LedgerOk(st, l) && Reaches(st, l, inputs, end, endL)
    ensures LedgerOk(end, endL)
    decreases |inputs|
  {
    if inputs == [] {
    } else {
      StepKeepsLedger(st, l, inputs[0]);
      LedgerAfter(Step(st, inputs[0]), Account(st, l, inputs[0]), inputs[1..], end, endL);
    }
  }

  /** What the counters say of one kind, summed over the point table and the shared bucket. */
  ghost function Counted(st: State, k: Kind): nat {
    TableTotal(st.Counters().points, k) + st.Counters().overflow.Of(k)
  }

  /** Every span begun is completed, abandoned, invalid or still open, and every other stamp was
      paired, orphaned or invalid, over any run of events, sweeps, flushes and shutdowns. */
  lemma SpansConserved(st: State, inputs: seq<Input>, end: State, l: Ledger)
    requires Init(st) && (InitOk(st); Reaches(st, EMPTY, inputs, end, l))
    ensures l.begins == l.completed + Counted(end, Abandoned) + Counted(end, Invalid) + |end.spans|
    ensures l.others == l.paired + Counted(end, Orphan) + Counted(end, Invalid)
  {
    InitOk(st);
    LedgerAfter(st, EMPTY, inputs, end, l);
    NothingLost(end.maxStages, end.log, Abandoned);
    NothingLost(end.maxStages, end.log, Invalid);
    NothingLost(end.maxStages, end.log, Orphan);
  }

  // ---- Stages against totals ----------------------------------------------

  function CorrectedParts(overhead: nat, parts: seq<nat>): nat {
    if parts == [] then 0
    else CorrectedParts(overhead, parts[..|parts| - 1]) + Corrected(overhead, parts[|parts| - 1], 1)
  }

  /** The corrected total never exceeds the sum of the corrected transitions. They are equal exactly
      when the correction cuts into every transition or into none. */
  lemma TotalAgainstStages(overhead: nat, parts: seq<nat>)
    ensures Corrected(overhead, Total(parts), |parts|) <= CorrectedParts(overhead, parts)
    ensures Corrected(overhead, Total(parts), |parts|) == CorrectedParts(overhead, parts) <==>
            (forall i :: 0 <= i < |parts| ==> overhead <= parts[i])
            || (forall i :: 0 <= i < |parts| ==> parts[i] <= overhead)
  {
    Shortfall(overhead, parts);
    NoneUnpaid(overhead, parts);
    NoneLeft(overhead, parts);
  }

  /** How much of the overhead the transitions shorter than it cannot pay for. */
  function Unpaid(overhead: nat, parts: seq<nat>): nat {
    if parts == [] then 0
    else
      Unpaid(overhead, parts[..|parts| - 1])
      + if parts[|parts| - 1] < overhead then overhead - parts[|parts| - 1] else 0
  }

  lemma {:induction false} Shortfall(overhead: nat, parts: seq<nat>)
    ensures CorrectedParts(overhead, parts) - Unpaid(overhead, parts) == Total(parts) - overhead * |parts|
  {
    if parts == [] {
    } else {
      var n := |parts| - 1;
      Shortfall(overhead, parts[..n]);
      assert overhead * |parts| == overhead * n + overhead;
      assert Corrected(overhead, parts[n], 1) == if parts[n] > overhead then parts[n] - overhead else 0;
    }
  }

  lemma {:induction false} NoneUnpaid(overhead: nat, parts: seq<nat>)
    ensures Unpaid(overhead, parts) == 0 <==> forall i :: 0 <= i < |parts| ==> overhead <= parts[i]
  {
    if parts == [] {
    } else {
      var n := |parts| - 1;
      NoneUnpaid(overhead, parts[..n]);
      assert forall i :: 0 <= i < n ==> parts[..n][i] == parts[i];
    }
  }

  lemma {:induction false} NoneLeft(overhead: nat, parts: seq<nat>)
    ensures CorrectedParts(overhead, parts) == 0 <==> forall i :: 0 <= i < |parts| ==> parts[i] <= overhead
  {
    if parts == [] {
    } else {
      var n := |parts| - 1;
      NoneLeft(overhead, parts[..n]);
      assert overhead * 1 == overhead;
      assert forall i :: 0 <= i < n ==> parts[..n][i] == parts[i];
    }
  }

  /** For every span completed in any run, the recorded total is the sum of its raw transitions, and
      after correction it is at most the sum of the corrected ones. */
  lemma TotalsTelescope(st: State, inputs: seq<Input>, end: State, l: Ledger, i: nat)
    requires Init(st) && (InitOk(st); Reaches(st, EMPTY, inputs, end, l))
    requires i < |l.done|
    ensures l.done[i].total.cycles == Total(l.done[i].parts)
    ensures Corrected(end.overhead, l.done[i].total.cycles, l.done[i].total.transitions)
            <= CorrectedParts(end.overhead, l.done[i].parts)
  {
    InitOk(st);
    LedgerAfter(st, EMPTY, inputs, end, l);
    TotalAgainstStages(end.overhead, l.done[i].parts);
  }

  // ---- Eviction -----------------------------------------------------------

  /** A queued candidate is passed by an older open span only if that span is queued before it. */
  ghost predicate QueueOk(st: State, clock: nat) {
    && st.next <= |st.queue|
    && (forall k :: k in st.spans ==> st.spans[k].seen <= clock)
    && (forall i :: 0 <= i < |st.queue| ==> st.queue[i].seen <= clock)
    && (forall k, i :: k in st.spans && st.next <= i < |st.queue| && st.spans[k].seen < st.queue[i].seen
          ==> QueuedBefore(st, k, i))
  }

  ghost predicate QueuedBefore(st: State, k: nat, i: nat)
    requires k in st.spans && i <= |st.queue|
  {
    exists j :: st.next <= j < i && st.queue[j] == Candidate(k, st.spans[k].seen)
  }

  /** The span an eviction drops is the one longest untouched. */
  lemma EvictsOldest(st: State, clock: nat, c: Choice, k: nat)
    requires QueueOk(st, clock) && MayEvict(st, c) && k in st.spans
    ensures c.key in st.spans && st.spans[c.key].seen <= st.spans[k].seen
  {
    EvictionFreesASlot(st, c);
    if i: nat :| FirstLive(st, i) && c == Choice(st.queue[i].key, st.queue, i + 1) {
      assert !QueuedBefore(st, k, i);
    } else {
      assert Live(st.spans, c.queue[0]);
      if Candidate(k, st.spans[k].seen) in c.queue {
        var j :| 0 <= j < |c.queue| && c.queue[j] == Candidate(k, st.spans[k].seen);
      }
    }
  }

  lemma EvictKeepsQueue(st: State, clock: nat, c: Choice)
    requires QueueOk(st, clock) && MayEvict(st, c)
    ensures QueueOk(Evicted(st, c), clock)
  {
    if i: nat :| FirstLive(st, i) && c == Choice(st.queue[i].key, st.queue, i + 1) {
      PopKeepsQueue(st, clock, c, i);
    } else {
      RefillMakesQueue(st, clock, c);
    }
  }

  lemma PopKeepsQueue(st: State, clock: nat, c: Choice, i: nat)
    requires QueueOk(st, clock) && FirstLive(st, i) && c == Choice(st.queue[i].key, st.queue, i + 1)
    ensures QueueOk(Evicted(st, c), clock)
  {
    var st' := Evicted(st, c);
    forall k, m | k in st'.spans && i < m < |st.queue| && st'.spans[k].seen < st.queue[m].seen
      ensures QueuedBefore(st', k, m)
    {
      assert QueuedBefore(st, k, m);
      var j :| st.next <= j < m && st.queue[j] == Candidate(k, st.spans[k].seen);
      assert Live(st.spans, st.queue[j]);
      assert st'.queue[j] == Candidate(k, st'.spans[k].seen) && i < j;
    }
  }

  lemma RefillMakesQueue(st: State, clock: nat, c: Choice)
    requires QueueOk(st, clock) && Refilled(st.spans, st.batch, c.queue)
    requires c.queue != [] && c.key == c.queue[0].key && c.next == 1
    ensures QueueOk(Evicted(st, c), clock)
  {
    var st' := Evicted(st, c);
    forall i | 0 <= i < |c.queue| ensures c.queue[i].seen <= clock {
      assert Live(st.spans, c.queue[i]);
    }
    forall k, m | k in st'.spans && 1 <= m < |c.queue| && st'.spans[k].seen < c.queue[m].seen
      ensures QueuedBefore(st', k, m)
    {
      var j := QueuedEarlier(st, c, k, m);
      assert st'.queue[j] == Candidate(k, st'.spans[k].seen);
    }
  }

  /** In a fresh queue a span older than a candidate is queued before it. */
  lemma QueuedEarlier(st: State, c: Choice, k: nat, m: nat) returns (j: nat)
    requires Refilled(st.spans, st.batch, c.queue) && c.queue != [] && c.key == c.queue[0].key && k != c.key
    requires k in st.spans && m < |c.queue| && st.spans[k].seen < c.queue[m].seen
    ensures 1 <= j < m && c.queue[j] == Candidate(k, st.spans[k].seen)
  {
    assert Candidate(k, st.spans[k].seen) in c.queue;
    j :| 0 <= j < |c.queue| && c.queue[j] == Candidate(k, st.spans[k].seen);
  }

  /** New and touched spans are newer than anything queued; dropping spans only helps. */
  lemma NewerKeepsQueue(st: State, clock: nat, st': State, now: nat)
    requires QueueOk(st, clock) && clock <= now
    requires st'.queue == st.queue && st'.next == st.next
    requires forall k :: k in st'.spans ==>
      st'.spans[k].seen == now || (k in st.spans && st'.spans[k].seen == st.spans[k].seen)
    ensures QueueOk(st', now)
  {
    forall k, i | k in st'.spans && st'.next <= i < |st'.queue| && st'.spans[k].seen < st'.queue[i].seen
      ensures QueuedBefore(st', k, i)
    {
      assert QueuedBefore(st, k, i);
    }
  }

  /** The time of an input that carries one: a stamp, but not a value. */
  function ClockAfter(clock: nat, inp: Input): nat {
    if inp.Event? && !IsValue(inp.s) then inp.s.timestamp else clock
  }

  ghost predicate InOrder(clock: nat, inp: Input) {
    clock <= ClockAfter(clock, inp)
  }

  lemma TouchKeepsQueue(st: State, clock: nat, s: Sample, c: Choice)
    requires SpansOk(st.spans) && QueueOk(st, clock) && clock <= s.timestamp
    requires !IsValue(s) && StepOf(s.event) != BEGIN_STEP
    requires KeyOf(s) in st.spans && st.spans[KeyOf(s)].last <= s.timestamp
    ensures QueueOk(Step(st, Event(s, c)), s.timestamp)
  {
    assert Ordered(st.spans[KeyOf(s)]);
    RecordOnlyStages(st, Measured(s, st.spans[KeyOf(s)]), Abandoned);
    NewerKeepsQueue(st, clock, Step(st, Event(s, c)), s.timestamp);
  }

  lemma StepKeepsQueue(st: State, l: Ledger, clock: nat, inp: Input)
    requires LedgerOk(st, l) && QueueOk(st, clock) && Allowed(st, inp) && InOrder(clock, inp)
    ensures QueueOk(Step(st, inp), ClockAfter(clock, inp))
  {
    match inp
    case Event(s, c) => EventKeepsQueue(st, clock, s, c);
    case Sweep(_, _, _) => NewerKeepsQueue(st, clock, Step(st, inp), clock);
    case AbandonAll(_) =>
    case ClearIntervals => NewerKeepsQueue(st, clock, Step(st, inp), clock);
  }

  lemma EventKeepsQueue(st: State, clock: nat, s: Sample, c: Choice)
    requires SpansOk(st.spans) && QueueOk(st, clock) && Allowed(st, Event(s, c)) && InOrder(clock, Event(s, c))
    ensures QueueOk(Step(st, Event(s, c)), ClockAfter(clock, Event(s, c)))
  {
    var st' := Step(st, Event(s, c));
    if IsValue(s) {
      RecordOnlyStages(st, [Rec(s.point, VALUE_STEP, VALUE_STEP, s.timestamp, 0)], Abandoned);
      NewerKeepsQueue(st, clock, st', clock);
    } else if NeedsRoom(st, s) {
      EvictKeepsQueue(st, clock, c);
      NewerKeepsQueue(Evicted(st, c), clock, st', s.timestamp);
    } else if KeyOf(s) in st.spans && StepOf(s.event) != BEGIN_STEP && st.spans[KeyOf(s)].last <= s.timestamp {
      TouchKeepsQueue(st, clock, s, c);
    } else {
      NewerKeepsQueue(st, clock, st', s.timestamp);
    }
  }

  /** Stamps reach the pairer in time order; values carry no time. */
  ghost predicate AllInOrder(clock: nat, inputs: seq<Input>)
    decreases |inputs|
  {
    inputs == [] || (InOrder(clock, inputs[0]) && AllInOrder(ClockAfter(clock, inputs[0]), inputs[1..]))
  }

  /** A table that evicts by looking at every span: it drops one of those longest untouched. */
  ghost predicate DropsOldest(st: State, c: Choice) {
    c.key in st.spans && forall k :: k in st.spans ==> st.spans[c.key].seen <= st.spans[k].seen
  }

  /** The pairer's state as its reports see it, the eviction queue put aside. */
  function Visible(st: State): State {
    st.(queue := [], next := 0)
  }

  function VisibleInput(inp: Input): Input {
    match inp
    case Event(s, c) => Event(s, Choice(c.key, [], 0))
    case _ => inp
  }

  /** What the simple policy allows: the same, but for choosing by a look at every span. */
  ghost predicate SimplyAllowed(st: State, inp: Input) {
    match inp
    case Event(s, c) => NeedsRoom(st, s) ==> DropsOldest(st, c)
    case _ => Allowed(st, inp)
  }

  ghost predicate SimplyReaches(st: State, inputs: seq<Input>, end: State)
    decreases |inputs|
  {
    if inputs == [] then end == st
    else SpansOk(st.spans) && SimplyAllowed(st, inputs[0]) && SimplyReaches(Step(st, inputs[0]), inputs[1..], end)
  }

  lemma {:induction false} RecordVisible(st: State, rs: seq<Rec>)
    ensures RecordAll(Visible(st), rs) == Visible(RecordAll(st, rs))
  {
    if rs == [] {
    } else {
      RecordVisible(st, rs[..|rs| - 1]);
    }
  }

  lemma StepVisible(st: State, inp: Input)
    requires SpansOk(st.spans)
    ensures Step(Visible(st), VisibleInput(inp)) == Visible(Step(st, inp))
  {
    if inp.Event? && !IsValue(inp.s) && StepOf(inp.s.event) != BEGIN_STEP && KeyOf(inp.s) in st.spans
       && st.spans[KeyOf(inp.s)].last <= inp.s.timestamp {
      TouchVisible(st, inp);
    }
  }

  lemma TouchVisible(st: State, inp: Input)
    requires SpansOk(st.spans) && inp.Event? && !IsValue(inp.s) && StepOf(inp.s.event) != BEGIN_STEP
    requires KeyOf(inp.s) in st.spans && st.spans[KeyOf(inp.s)].last <= inp.s.timestamp
    ensures Step(Visible(st), VisibleInput(inp)) == Visible(Step(st, inp))
  {
    assert Ordered(st.spans[KeyOf(inp.s)]);
    RecordVisible(st, Measured(inp.s, st.spans[KeyOf(inp.s)]));
  }

  lemma StepIsSimple(st: State, clock: nat, inp: Input)
    requires QueueOk(st, clock) && Allowed(st, inp)
    ensures SimplyAllowed(Visible(st), VisibleInput(inp))
  {
    if inp.Event? && NeedsRoom(st, inp.s) {
      EvictionFreesASlot(st, inp.choice);
      forall k | k in st.spans ensures st.spans[inp.choice.key].seen <= st.spans[k].seen {
        EvictsOldest(st, clock, inp.choice, k);
      }
    }
  }

  function VisibleInputs(inputs: seq<Input>): seq<Input> {
    seq(|inputs|, i requires 0 <= i < |inputs| => VisibleInput(inputs[i]))
  }

  /** With stamps in time order, everything the batched queue does is what the simple policy would
      have done: the same spans open, the same stages, the same anomalies, after every input. */
  lemma {:induction false} BatchingIsExact(
    st: State, l: Ledger, clock: nat, inputs: seq<Input>, end: State, endL: Ledger)
    requires LedgerOk(st, l) && QueueOk(st, clock)
    requires Reaches(st, l, inputs, end, endL) && AllInOrder(clock, inputs)
    ensures SimplyReaches(Visible(st), VisibleInputs(inputs), Visible(end))
    decreases |inputs|
  {
    if inputs == [] {
    } else {
      var inp := inputs[0];
      StepKeepsLedger(st, l, inp);
      StepKeepsQueue(st, l, clock, inp);
      StepVisible(st, inp);
      StepIsSimple(st, clock, inp);
      assert VisibleInputs(inputs)[1..] == VisibleInputs(inputs[1..]);
      BatchingIsExact(Step(st, inp), Account(st, l, inp), ClockAfter(clock, inp), inputs[1..], end, endL);
    }
  }
}
