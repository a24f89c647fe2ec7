/** A session from its start, flush after flush: what all the rows it ever built add up to. */
module Intervals {
  import opened Options
  import opened Stamps
  import opened PairKeys
  import opened Anomalies
  import opened OpenMaps
  import opened PairingSpec
  import opened Reports
  import Pairing

  // ---- What the rows of one flush say -------------------------------------

  /** The delta a reader of the time series finds for a point: that on its rows, or none without one. */
  function PointDelta(rows: seq<Row>, p: nat): Counts {
    if rows == [] then ZERO
    else
      var r := rows[|rows| - 1];
      if r.point == p && !r.overflow && Selected(r) then r.delta else PointDelta(rows[..|rows| - 1], p)
  }

  function SharedDelta(rows: seq<Row>): Counts {
    if rows == [] then ZERO
    else
      var r := rows[|rows| - 1];
      if r.overflow && Selected(r) then r.delta else SharedDelta(rows[..|rows| - 1])
  }

  /** The samples all rows of one stage tell of. */
  function SamplesOn(rows: seq<Row>, key: nat): nat {
    if rows == [] then 0
    else
      var r := rows[|rows| - 1];
      SamplesOn(rows[..|rows| - 1], key) + if !r.overflow && StageKey(r.point, r.from, r.to) == key then r.count else 0
  }

  lemma {:induction false} PointDeltaFound(rows: seq<Row>, iv: Interval, p: nat)
    requires iv.Grows() && RowsOk(rows, iv)
    ensures PointDelta(rows, p) == if Carried(rows, p) then iv.Delta(p) else ZERO
  {
    if rows != [] {
      var n := |rows| - 1;
      PointDeltaFound(rows[..n], iv, p);
      assert RowOk(rows[n], iv);
      if a :| 0 <= a < |rows| && rows[a].point == p && !rows[a].overflow && Selected(rows[a]) {
        assert a < n ==> rows[..n][a] == rows[a];
      }
    }
  }

  lemma {:induction false} SharedDeltaFound(rows: seq<Row>, iv: Interval)
    requires iv.Grows() && RowsOk(rows, iv)
    ensures SharedDelta(rows) ==
            if exists a :: 0 <= a < |rows| && rows[a].overflow && Selected(rows[a])
            then iv.now.overflow.Since(iv.before.overflow) else ZERO
  {
    if rows != [] {
      var n := |rows| - 1;
      SharedDeltaFound(rows[..n], iv);
      assert RowOk(rows[n], iv);
      if a :| 0 <= a < |rows| && rows[a].overflow && Selected(rows[a]) {
        assert a < n ==> rows[..n][a] == rows[a];
      }
    }
  }

  /** Whether or not it has a row, a point's delta is what the interval brought. */
  lemma DeltasTold(rows: seq<Row>, iv: Interval, p: nat)
    requires iv.Grows() && TellsAll(rows, iv)
    ensures PointDelta(rows, p) == iv.Delta(p)
    ensures SharedDelta(rows) == iv.now.overflow.Since(iv.before.overflow)
  {
    PointDeltaFound(rows, iv, p);
    SharedDeltaFound(rows, iv);
  }

  /** Each stage is filed under its key. */
  ghost predicate Filed(stages: map<nat, Stage>) {
    forall k :: k in stages ==> StageKey(stages[k].point, stages[k].from, stages[k].to) == k
  }

  /** The rows up to n tell of the samples of the stages they are for. */
  lemma {:induction false} SamplesUpTo(rows: seq<Row>, stages: map<nat, Stage>, order: seq<nat>, key: nat, n: nat)
    requires Filed(stages) && Enumerates(order, stages.Keys) && RowsFollow(rows, stages, order) && n <= |rows|
    ensures SamplesOn(rows[..n], key) ==
            if exists j :: 0 <= j < n && j < |order| && order[j] == key then |stages[key].interval| else 0
  {
    if n > 0 {
      var m := n - 1;
      SamplesUpTo(rows, stages, order, key, m);
      assert rows[..n][..m] == rows[..m];
      if m < |order| {
        assert IsRowOf(rows[m], stages[order[m]]);
        assert order[m] == key ==> forall j :: 0 <= j < m ==> order[j] != key;
      }
    }
  }

  lemma SamplesTold(rows: seq<Row>, stages: map<nat, Stage>, key: nat)
    requires Filed(stages) && StagesOnce(rows, stages)
    ensures SamplesOn(rows, key) == if key in stages then |stages[key].interval| else 0
  {
    var order :| Enumerates(order, stages.Keys) && RowsFollow(rows, stages, order);
    SamplesUpTo(rows, stages, order, key, |rows|);
    assert rows[..|rows|] == rows;
    assert key in order <==> key in stages;
  }

  lemma RowOfStage(rows: seq<Row>, stages: map<nat, Stage>, key: nat) returns (a: nat)
    requires StagesOnce(rows, stages) && key in stages
    ensures a < |rows| && IsRowOf(rows[a], stages[key])
  {
    var order :| Enumerates(order, stages.Keys) && RowsFollow(rows, stages, order);
    a :| 0 <= a < |order| && order[a] == key;
  }

  // ---- Between flushes ----------------------------------------------------

  /** What the pairer does to its stages between flushes: more samples, and more stages. */
  ghost predicate StagesGrow(a: map<nat, Stage>, b: map<nat, Stage>) {
    && (forall k :: k in a ==> k in b && b[k] == a[k].(interval := b[k].interval) && a[k].interval <= b[k].interval)
    && (forall k :: k in b && k !in a ==>
          b[k].cumulative == [] && StageKey(b[k].point, b[k].from, b[k].to) == k)
  }

  lemma GrowOn(a: map<nat, Stage>, b: map<nat, Stage>, c: map<nat, Stage>)
    requires StagesGrow(a, b) && StagesGrow(b, c)
    ensures StagesGrow(a, c)
  {
    forall k | k in a
      ensures k in c && c[k] == a[k].(interval := c[k].interval) && a[k].interval <= c[k].interval
    {
      assert a[k].interval <= b[k].interval <= c[k].interval;
    }
    forall k | k in c && k !in a
      ensures c[k].cumulative == [] && StageKey(c[k].point, c[k].from, c[k].to) == k
    {
      assert k in b ==> c[k] == b[k].(interval := c[k].interval);
    }
  }

  /** Between flushes the pairer leaves the lifetime record of every stage alone, and only adds to its
      samples and to what has happened. */
  lemma StepGrows(st: State, inp: Input)
    requires SpansOk(st.spans) && inp != ClearIntervals
    ensures StagesGrow(st.stages, Step(st, inp).stages) && st.log <= Step(st, inp).log
  {
    if inp.Event? {
      var s := inp.s;
      if IsValue(s) {
        RecordGrows(st, Rec(s.point, VALUE_STEP, VALUE_STEP, s.timestamp, 0));
      } else if KeyOf(s) in st.spans && st.spans[KeyOf(s)].last <= s.timestamp && StepOf(s.event) != BEGIN_STEP {
        assert Ordered(st.spans[KeyOf(s)]);
        RecordingGrows(st, Measured(s, st.spans[KeyOf(s)]));
      }
    }
  }

  lemma {:induction false} RecordingGrows(st: State, rs: seq<Rec>)
    ensures StagesGrow(st.stages, RecordAll(st, rs).stages) && st.log <= RecordAll(st, rs).log
  {
    if rs != [] {
      var mid, r := RecordAll(st, rs[..|rs| - 1]), rs[|rs| - 1];
      RecordingGrows(st, rs[..|rs| - 1]);
      RecordGrows(mid, r);
      GrowOn(st.stages, mid.stages, Record(mid, r).stages);
    }
  }

  lemma RecordGrows(st: State, r: Rec)
    ensures StagesGrow(st.stages, Record(st, r).stages) && st.log <= Record(st, r).log
  {
  }

  // ---- Over many flushes --------------------------------------------------

  /** A flush as it was: the stages it found, and the counters it compared. */
  datatype Mark = Mark(stages: map<nat, Stage>, iv: Interval)

  /** The rows kept of every flush of a session, from its start: each reports on what it found, and compares
      with what the one before left. */
  ghost predicate Kept(told: seq<seq<Row>>, marks: seq<Mark>) {
    && |told| == |marks|
    && (forall i :: 0 <= i < |marks| ==>
          && marks[i].iv.Grows() && Filed(marks[i].stages)
          && ReportOk(told[i], marks[i].stages, marks[i].iv))
    && (marks != [] ==> Opens(marks[0]))
    && (forall i :: 0 < i < |marks| ==> Continues(marks[i - 1], marks[i]))
  }

  ghost predicate Opens(m: Mark) {
    && m.iv.before.overflow == ZERO && (forall p :: m.iv.before.Of(p) == ZERO)
    && forall k :: k in m.stages ==> m.stages[k].cumulative == []
  }

  ghost predicate Continues(was: Mark, m: Mark) {
    && m.iv.before.overflow == was.iv.now.overflow && (forall p :: m.iv.before.Of(p) == was.iv.now.Of(p))
    && StagesGrow(AllClosed(was.stages), m.stages)
  }

  /** One kind of a point's anomalies, added up over the rows of all flushes. */
  function PointTold(told: seq<seq<Row>>, p: nat, k: Kind): nat {
    if told == [] then 0
    else PointTold(told[..|told| - 1], p, k) + PointDelta(told[|told| - 1], p).Of(k)
  }

  function SharedTold(told: seq<seq<Row>>, k: Kind): nat {
    if told == [] then 0 else SharedTold(told[..|told| - 1], k) + SharedDelta(told[|told| - 1]).Of(k)
  }

  /** A stage's counts, added up over the rows of all flushes. */
  function CountsTold(told: seq<seq<Row>>, key: nat): nat {
    if told == [] then 0 else CountsTold(told[..|told| - 1], key) + SamplesOn(told[|told| - 1], key)
  }

  lemma KeptBefore(told: seq<seq<Row>>, marks: seq<Mark>)
    requires Kept(told, marks) && marks != []
    ensures Kept(told[..|told| - 1], marks[..|marks| - 1])
  {
    var n := |marks| - 1;
    forall i | 0 < i < n
      ensures Continues(marks[..n][i - 1], marks[..n][i])
    {
      assert Continues(marks[i - 1], marks[i]);
    }
  }

  /** The deltas on the rows add up to the lifetime counters, of every point and of the shared bucket. */
  lemma {:induction false} DeltasAddUp(told: seq<seq<Row>>, marks: seq<Mark>, p: nat, k: Kind)
    requires Kept(told, marks) && marks != []
    ensures var now := marks[|marks| - 1].iv.now;
      PointTold(told, p, k) == now.Of(p).Of(k) && SharedTold(told, k) == now.overflow.Of(k)
  {
    var n := |marks| - 1;
    if n > 0 {
      KeptBefore(told, marks);
      DeltasAddUp(told[..n], marks[..n], p, k);
      assert Continues(marks[n - 1], marks[n]);
    } else {
      assert told[..0] == [] && Opens(marks[n]);
    }
    FlushTold(told, marks[n], p, k);
  }

  /** One flush tells what is new on top of what all before it have. */
  lemma FlushTold(told: seq<seq<Row>>, m: Mark, p: nat, k: Kind)
    requires told != [] && m.iv.Grows() && TellsAll(told[|told| - 1], m.iv)
    requires PointTold(told[..|told| - 1], p, k) == m.iv.before.Of(p).Of(k)
    requires SharedTold(told[..|told| - 1], k) == m.iv.before.overflow.Of(k)
    ensures PointTold(told, p, k) == m.iv.now.Of(p).Of(k) && SharedTold(told, k) == m.iv.now.overflow.Of(k)
  {
    DeltasTold(told[|told| - 1], m.iv, p);
  }

  /** And the lifetime totals a row shows are those sums, over all flushes up to its own. */
  lemma TotalsAddUp(told: seq<seq<Row>>, marks: seq<Mark>, r: Row, k: Kind)
    requires Kept(told, marks) && marks != [] && r in told[|told| - 1]
    ensures r.total.Of(k) == if r.overflow then SharedTold(told, k) else PointTold(told, r.point, k)
  {
    var n := |marks| - 1;
    var a :| 0 <= a < |told[n]| && told[n][a] == r;
    assert RowOk(told[n][a], marks[n].iv);
    DeltasAddUp(told, marks, r.point, k);
  }

  /** The counts on a stage's rows add up to the samples of its lifetime record once the last flush is over;
      and that is what the stage's last row shows for it. */
  lemma {:induction false} CountsAddUp(told: seq<seq<Row>>, marks: seq<Mark>, key: nat)
    requires Kept(told, marks) && marks != []
    ensures var stages := marks[|marks| - 1].stages;
      && CountsTold(told, key) == (if key in stages then |Closed(stages[key]).cumulative| else 0)
      && (key in stages ==>
            exists r :: r in told[|told| - 1] && IsRowOf(r, stages[key]) && r.cumulative == CountsTold(told, key))
  {
    var n := |marks| - 1;
    var stages := marks[n].stages;
    SamplesTold(told[n], stages, key);
    if n > 0 {
      KeptBefore(told, marks);
      CountsAddUp(told[..n], marks[..n], key);
      assert Continues(marks[n - 1], marks[n]);
    } else {
      assert told[..0] == [] && Opens(marks[n]);
    }
    if key in stages {
      var a := RowOfStage(told[n], stages, key);
      assert told[n][a] in told[n];
    }
  }

  // ---- The session as it is run -------------------------------------------

  /** The pairer's work in one interval, and what the flush that ends it is given. */
  datatype Work = Work(batch: seq<Sample>, aged: bool, now: nat, age: nat, loss: nat, newlyStalled: nat)

  /** Pair a batch of samples. */
  method PairBatch(pairer: Pairing.Pairer, batch: seq<Sample>)
    requires pairer.Valid()
    modifies pairer
    ensures pairer.Valid() && pairer.maxStages == old(pairer.maxStages)
    ensures StagesGrow(old(pairer.stages), pairer.stages) && old(pairer.log) <= pairer.log
  {
    for i := 0 to |batch|
      invariant pairer.Valid() && pairer.maxStages == old(pairer.maxStages)
      invariant StagesGrow(old(pairer.stages), pairer.stages) && old(pairer.log) <= pairer.log
    {
      PairOne(pairer, batch[i], old(pairer.stages));
    }
  }

  method PairOne(pairer: Pairing.Pairer, s: Sample, ghost start: map<nat, Stage>)
    requires pairer.Valid() && StagesGrow(start, pairer.stages)
    modifies pairer
    ensures pairer.Valid() && pairer.maxStages == old(pairer.maxStages)
    ensures StagesGrow(start, pairer.stages) && old(pairer.log) <= pairer.log
  {
    ghost var st := pairer.View();
    ghost var c := pairer.OnEvent(s);
    StepGrows(st, Event(s, c));
    StepKeepsSizes(st, Event(s, c));
    GrowOn(start, st.stages, pairer.stages);
  }

  lemma StepKeepsSizes(st: State, inp: Input)
    requires SpansOk(st.spans)
    ensures Step(st, inp).maxStages == st.maxStages
  {
    if inp.Event? {
      var s := inp.s;
      if !IsValue(s) && KeyOf(s) in st.spans && st.spans[KeyOf(s)].last <= s.timestamp
         && StepOf(s.event) != BEGIN_STEP {
        assert Ordered(st.spans[KeyOf(s)]);
        RecordingKeepsSizes(st, Measured(s, st.spans[KeyOf(s)]));
      }
    }
  }

  lemma {:induction false} RecordingKeepsSizes(st: State, rs: seq<Rec>)
    ensures RecordAll(st, rs).maxStages == st.maxStages
  {
    if rs != [] {
      RecordingKeepsSizes(st, rs[..|rs| - 1]);
    }
  }

  /** The pairer and the reporter as the flushes so far have left them. */
  ghost predicate UpToDate(marks: seq<Mark>, stages: map<nat, Stage>, seen: Log, room: nat) {
    if marks == [] then stages == map[] && seen == []
    else stages == AllClosed(marks[|marks| - 1].stages) && marks[|marks| - 1].iv.now == After(room, seen)
  }

  /** A session: batches paired and flushes made, one after the other, and every flush's rows kept. Whatever
      was paired, the deltas on the rows add up to the counters of each point and of the shared bucket, and
      the counts to the samples recorded in each stage. */
  method RunSession(pairer: Pairing.Pairer, reporter: Reporter, work: seq<Work>)
    returns (told: seq<seq<Row>>, ghost marks: seq<Mark>)
    requires pairer.Valid() && Init(pairer.View()) && reporter.Valid() && reporter.room == pairer.maxStages
    requires reporter.seen == []
    modifies pairer, reporter
    ensures pairer.Valid() && |told| == |work| && Kept(told, marks)
    ensures forall p, k :: PointTold(told, p, k) == pairer.View().Counters().Of(p).Of(k)
    ensures forall k :: SharedTold(told, k) == pairer.View().Counters().overflow.Of(k)
    ensures forall key :: key in pairer.stages ==>
              CountsTold(told, key) == |pairer.stages[key].cumulative| && pairer.stages[key].interval == []
    ensures forall key :: key !in pairer.stages ==> CountsTold(told, key) == 0
    ensures told != [] ==> AllShown(told[|told| - 1], pairer.View().Counters())
  {
    told, marks := [], [];
    for i := 0 to |work|
      invariant pairer.Valid() && reporter.Valid() && reporter.room == pairer.maxStages
      invariant |told| == i && Kept(told, marks) && reporter.seen == pairer.log
      invariant UpToDate(marks, pairer.stages, reporter.seen, reporter.room)
    {
      told, marks := RunInterval(pairer, reporter, work[i], told, marks);
    }
    AllTold(told, marks, pairer.stages, pairer.log, pairer.maxStages);
  }

  /** Every point that ever had an anomaly has a row with its lifetime counters, and so has the shared
      bucket. */
  ghost predicate AllShown(rows: seq<Row>, now: Table) {
    && (forall p: nat :: now.Of(p).Any() ==>
          exists r :: r in rows && r.point == p && !r.overflow && r.total == now.Of(p))
    && (now.overflow.Any() ==> exists r :: r in rows && r.overflow && r.total == now.overflow)
  }

  lemma LifetimeShown(rows: seq<Row>, stages: map<nat, Stage>, iv: Interval)
    requires iv.Grows() && ReportOk(rows, stages, iv)
    ensures AllShown(rows, iv.now)
  {
    forall p: nat | iv.now.Of(p).Any()
      ensures exists r :: r in rows && r.point == p && !r.overflow && r.total == iv.now.Of(p)
    {
      assert Shows(rows, p, iv.now.Of(p));
      var a :| 0 <= a < |rows| && rows[a].point == p && !rows[a].overflow && rows[a].total == iv.now.Of(p);
      assert rows[a] in rows;
    }
    if iv.now.overflow.Any() {
      var a :| 0 <= a < |rows| && rows[a].overflow && rows[a].total == iv.now.overflow;
      assert rows[a] in rows;
    }
  }

  /** One interval of it. */
  method RunInterval(pairer: Pairing.Pairer, reporter: Reporter, w: Work, told: seq<seq<Row>>, ghost marks: seq<Mark>)
    returns (told': seq<seq<Row>>, ghost marks': seq<Mark>)
    requires pairer.Valid() && reporter.Valid() && reporter.room == pairer.maxStages
    requires Kept(told, marks) && reporter.seen == pairer.log
    requires UpToDate(marks, pairer.stages, reporter.seen, reporter.room)
    modifies pairer, reporter
    ensures pairer.Valid() && reporter.Valid() && reporter.room == pairer.maxStages
    ensures |told'| == |told| + 1 && Kept(told', marks') && reporter.seen == pairer.log
    ensures UpToDate(marks', pairer.stages, reporter.seen, reporter.room)
  {
    ghost var stages, seen := pairer.stages, reporter.seen;
    PairBatch(pairer, w.batch);
    ghost var found := pairer.stages;
    var stalled := reporter.reportedStalled + w.newlyStalled;
    var rows, lines, iv := reporter.Flush(pairer, w.aged, w.now, w.age, w.loss, stalled);
    ghost var m := Mark(found, iv);
    FlushKept(told, marks, stages, seen, reporter.room, rows, m);
    told', marks' := told + [rows], marks + [m];
  }

  lemma FlushKept(told: seq<seq<Row>>, marks: seq<Mark>, stages: map<nat, Stage>, seen: Log, room: nat,
                  rows: seq<Row>, m: Mark)
    requires Kept(told, marks) && UpToDate(marks, stages, seen, room) && StagesGrow(stages, m.stages)
    requires m.iv.Grows() && ReportOk(rows, m.stages, m.iv)
    requires m.iv.before.overflow == After(room, seen).overflow
    requires forall p :: m.iv.before.Of(p) == After(room, seen).Of(p)
    ensures Kept(told + [rows], marks + [m])
  {
    var n := |marks|;
    var told', marks' := told + [rows], marks + [m];
    if n > 0 {
      assert Continues(marks[n - 1], m);
      FiledStay(marks[n - 1].stages, m.stages);
    }
    forall i | 0 < i <= n
      ensures Continues(marks'[i - 1], marks'[i])
    {
      assert i < n ==> Continues(marks[i - 1], marks[i]);
    }
    forall i | 0 <= i <= n
      ensures marks'[i].iv.Grows() && Filed(marks'[i].stages)
      ensures ReportOk(told'[i], marks'[i].stages, marks'[i].iv)
    {
      assert i < n ==> marks'[i] == marks[i] && told'[i] == told[i];
    }
  }

  lemma FiledStay(was: map<nat, Stage>, now: map<nat, Stage>)
    requires Filed(was) && StagesGrow(AllClosed(was), now)
    ensures Filed(now)
  {
    forall k | k in now
      ensures StageKey(now[k].point, now[k].from, now[k].to) == k
    {
      assert k in was ==> AllClosed(was)[k] == Closed(was[k]) && now[k] == Closed(was[k]).(interval := now[k].interval);
    }
  }

  lemma AllTold(told: seq<seq<Row>>, marks: seq<Mark>, stages: map<nat, Stage>, log: Log, room: nat)
    requires Kept(told, marks) && UpToDate(marks, stages, log, room)
    ensures forall p, k :: PointTold(told, p, k) == After(room, log).Of(p).Of(k)
    ensures forall k :: SharedTold(told, k) == After(room, log).overflow.Of(k)
    ensures forall key :: key in stages ==>
              CountsTold(told, key) == |stages[key].cumulative| && stages[key].interval == []
    ensures forall key :: key !in stages ==> CountsTold(told, key) == 0
    ensures told != [] ==> AllShown(told[|told| - 1], After(room, log))
  {
    forall p, k
      ensures PointTold(told, p, k) == After(room, log).Of(p).Of(k)
    {
      DeltasKnown(told, marks, stages, log, room, p, k);
    }
    forall k
      ensures SharedTold(told, k) == After(room, log).overflow.Of(k)
    {
      DeltasKnown(told, marks, stages, log, room, 0, k);
    }
    CountsAllTold(told, marks, stages, log, room);
    if told != [] {
      LastShown(told, marks, stages, log, room);
    }
  }

  lemma DeltasKnown(told: seq<seq<Row>>, marks: seq<Mark>, stages: map<nat, Stage>, log: Log, room: nat, p: nat,
                    k: Kind)
    requires Kept(told, marks) && UpToDate(marks, stages, log, room)
    ensures PointTold(told, p, k) == After(room, log).Of(p).Of(k)
    ensures SharedTold(told, k) == After(room, log).overflow.Of(k)
  {
    if marks != [] {
      DeltasAddUp(told, marks, p, k);
    }
  }

  lemma LastShown(told: seq<seq<Row>>, marks: seq<Mark>, stages: map<nat, Stage>, log: Log, room: nat)
    requires Kept(told, marks) && UpToDate(marks, stages, log, room) && told != []
    ensures AllShown(told[|told| - 1], After(room, log))
  {
    var n := |marks| - 1;
    LifetimeShown(told[n], marks[n].stages, marks[n].iv);
  }

  lemma CountsAllTold(told: seq<seq<Row>>, marks: seq<Mark>, stages: map<nat, Stage>, log: Log, room: nat)
    requires Kept(told, marks) && UpToDate(marks, stages, log, room)
    ensures forall key :: key in stages ==>
              CountsTold(told, key) == |stages[key].cumulative| && stages[key].interval == []
    ensures forall key :: key !in stages ==> CountsTold(told, key) == 0
  {
    if marks != [] {
      forall key
        ensures CountsTold(told, key) == if key in stages then |stages[key].cumulative| else 0
      {
        CountsAddUp(told, marks, key);
      }
    }
  }
}
