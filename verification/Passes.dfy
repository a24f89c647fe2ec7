/** One merge pass after another, with the pairer's other work in between. */
module Passes {
  import opened Stamps
  import opened MergeSpec
  import opened PairingSpec
  import opened PairingRuns
  import opened Merging
  import Delivery

  /** A pass over thread rings, with watermark w and a stage, and the pairer before and after it; `idle` is
      what the pairer was given since the pass before: values from the shared ring, sweeps. */
  datatype Leg = Leg(m: Pass, before: seq<Sample>, w: nat, idle: seq<Input>, start: State, end: State)

  predicate IsStamp(inp: Input) {
    inp.Event? && !IsValue(inp.s)
  }

  predicate NoStamps(inputs: seq<Input>) {
    forall i :: 0 <= i < |inputs| ==> !IsStamp(inputs[i])
  }

  ghost predicate LegOk(g: Leg) {
    Passed(g.m, g.before, g.w) && g.m.InOrder() && |g.m.published| > 0 && NoStamps(g.idle)
  }

  /** No stamp below the watermark comes later than the pass could see: none lies at or past a ring's stop. */
  ghost predicate OnTime(g: Leg)
    requires LegOk(g)
  {
    forall r, k :: 0 <= r < |g.m.published| && g.m.stops[r] <= k && g.m.AtStamp(r, k) ==>
      g.w <= g.m.published[r][k].timestamp
  }

  /** The next pass goes on where this one left the cursors, and stages nothing from before the watermark. */
  ghost predicate Follows(g: Leg, next: Leg)
    requires LegOk(g) && LegOk(next)
  {
    && next.m.published == g.m.published && next.m.from == g.m.cursors && g.w <= next.w
    && forall i :: 0 <= i < |next.before| ==> g.w <= next.before[i].timestamp
  }

  ghost predicate Chain(legs: seq<Leg>) {
    && (forall i :: 0 <= i < |legs| ==> LegOk(legs[i]) && OnTime(legs[i]))
    && (forall i :: 0 < i < |legs| ==> FollowsOn(legs, i))
  }

  ghost predicate FollowsOn(legs: seq<Leg>, i: nat)
    requires 0 < i < |legs|
  {
    LegOk(legs[i - 1]) && LegOk(legs[i]) && Follows(legs[i - 1], legs[i])
  }

  ghost predicate FedFrom(fed: seq<Fed>, low: nat) {
    forall i :: 0 <= i < |fed| && !IsValue(fed[i].s) ==> low <= fed[i].s.timestamp
  }

  /** What a pass feeds is no earlier than the watermark of the pass before. */
  lemma NothingEarlier(g: Leg, next: Leg)
    requires LegOk(g) && OnTime(g) && LegOk(next) && Follows(g, next)
    ensures FedFrom(next.m.fed, g.w)
  {
    var fed, m := next.m.fed, next.m;
    forall i | 0 <= i < |fed| && !IsValue(fed[i].s)
      ensures g.w <= fed[i].s.timestamp
    {
      var r := fed[i].source;
      assert TrueSample(fed[i], m.published);
      if r < |m.published| {
        Delivery.OfHolds(fed, r, i);
        PastTheCursor(g, next, r, fed[i].index);
      }
    }
  }

  /** A stamp fed from a ring was not below the last watermark: that pass would have passed it. */
  lemma PastTheCursor(g: Leg, next: Leg, r: nat, k: nat)
    requires LegOk(g) && OnTime(g) && LegOk(next) && Follows(g, next) && r < |g.m.published|
    requires k in Of(next.m.fed, r) && g.m.AtStamp(r, k)
    ensures g.w <= g.m.published[r][k].timestamp
  {
    assert next.m.Finished(r, next.w) && g.m.Finished(r, g.w);
    assert g.m.cursors[r] <= k;
    if k < g.m.stops[r] && g.m.published[r][k].timestamp < g.w {
      Delivery.NothingLeftBehind(g.m, g.before, g.w, r, k);
    }
  }

  // ---- In order, across passes --------------------------------------------

  function LastClock(clock: nat, inputs: seq<Input>): nat
    decreases |inputs|
  {
    if inputs == [] then clock else LastClock(ClockAfter(clock, inputs[0]), inputs[1..])
  }

  /** Stamps that ascend between two times. */
  ghost predicate Ascends(inputs: seq<Input>, low: nat, high: nat) {
    && (forall i :: 0 <= i < |inputs| && IsStamp(inputs[i]) ==> low <= inputs[i].s.timestamp <= high)
    && (forall i, j :: 0 <= i < j < |inputs| && IsStamp(inputs[i]) && IsStamp(inputs[j]) ==>
          inputs[i].s.timestamp <= inputs[j].s.timestamp)
  }

  lemma {:induction false} AscendingIsInOrder(inputs: seq<Input>, low: nat, high: nat)
    requires Ascends(inputs, low, high) && low <= high
    ensures AllInOrder(low, inputs) && LastClock(low, inputs) <= high
    decreases |inputs|
  {
    if inputs != [] {
      var clock, rest := ClockAfter(low, inputs[0]), inputs[1..];
      forall i | 0 <= i < |rest| && IsStamp(rest[i])
        ensures clock <= rest[i].s.timestamp <= high
      {
        assert rest[i] == inputs[i + 1];
      }
      AscendingIsInOrder(rest, clock, high);
    }
  }

  lemma {:induction false} StillInOrder(a: seq<Input>, b: seq<Input>, clock: nat, next: nat)
    requires AllInOrder(clock, a) && LastClock(clock, a) <= next && AllInOrder(next, b)
    ensures AllInOrder(clock, a + b)
    decreases |a|
  {
    if a == [] {
      assert a + b == b;
      EarlierClock(b, clock, next);
    } else {
      assert (a + b)[1..] == a[1..] + b;
      StillInOrder(a[1..], b, ClockAfter(clock, a[0]), next);
    }
  }

  lemma {:induction false} EarlierClock(inputs: seq<Input>, clock: nat, later: nat)
    requires AllInOrder(later, inputs) && clock <= later
    ensures AllInOrder(clock, inputs)
    decreases |inputs|
  {
    if inputs != [] {
      EarlierClock(inputs[1..], ClockAfter(clock, inputs[0]), ClockAfter(later, inputs[0]));
    }
  }

  // ---- As a run of the pairer ---------------------------------------------

  ghost predicate Played(st: State, inputs: seq<Input>, end: State)
    decreases |inputs|
  {
    if inputs == [] then end == st
    else SpansOk(st.spans) && Allowed(st, inputs[0]) && Played(Step(st, inputs[0]), inputs[1..], end)
  }

  /** The pairer's state is handed on, from pass to pass. */
  ghost predicate Linked(st: State, legs: seq<Leg>, end: State)
    decreases |legs|
  {
    if legs == [] then end == st
    else
      && Played(st, legs[0].idle, legs[0].start) && Paired(legs[0].start, legs[0].m.fed, legs[0].end)
      && Linked(legs[0].end, legs[1..], end)
  }

  lemma {:induction false} PlayedIsARun(st: State, l: Ledger, inputs: seq<Input>, end: State) returns (endL: Ledger)
    requires LedgerOk(st, l) && Played(st, inputs, end)
    ensures Reaches(st, l, inputs, end, endL)
    decreases |inputs|
  {
    if inputs == [] {
      endL := l;
    } else {
      StepKeepsLedger(st, l, inputs[0]);
      endL := PlayedIsARun(Step(st, inputs[0]), Account(st, l, inputs[0]), inputs[1..], end);
    }
  }

  lemma {:induction false} ReachesOn(st: State, l: Ledger, a: seq<Input>, mid: State, midL: Ledger, b: seq<Input>,
                                     end: State, endL: Ledger)
    requires LedgerOk(st, l) && Reaches(st, l, a, mid, midL)
    requires LedgerOk(mid, midL) && Reaches(mid, midL, b, end, endL)
    ensures Reaches(st, l, a + b, end, endL)
    decreases |a|
  {
    if a == [] {
      assert a + b == b;
    } else {
      StepKeepsLedger(st, l, a[0]);
      assert (a + b)[1..] == a[1..] + b;
      ReachesOn(Step(st, a[0]), Account(st, l, a[0]), a[1..], mid, midL, b, end, endL);
    }
  }

  /** One leg: what was idle, then the pass. */
  lemma LegIsARun(st: State, l: Ledger, g: Leg, low: nat) returns (inputs: seq<Input>, endL: Ledger)
    requires LedgerOk(st, l) && LegOk(g) && Played(st, g.idle, g.start) && Paired(g.start, g.m.fed, g.end)
    requires FedFrom(g.m.fed, low) && low <= g.w
    ensures LedgerOk(g.end, endL) && Reaches(st, l, inputs, g.end, endL)
    ensures AllInOrder(low, inputs) && LastClock(low, inputs) <= g.w
  {
    var startL := PlayedIsARun(st, l, g.idle, g.start);
    LedgerAfter(st, l, g.idle, g.start, startL);
    var paired;
    paired, endL := Delivery.PassIsARun(g.start, startL, g.m.fed, g.end);
    LedgerAfter(g.start, startL, paired, g.end, endL);
    inputs := g.idle + paired;
    ReachesOn(st, l, g.idle, g.start, startL, paired, g.end, endL);
    LegAscends(g, paired, low);
    AscendingIsInOrder(inputs, low, g.w);
  }

  lemma LegAscends(g: Leg, paired: seq<Input>, low: nat)
    requires LegOk(g) && FedFrom(g.m.fed, low) && |paired| == |g.m.fed|
    requires forall i :: 0 <= i < |paired| ==> paired[i].Event? && paired[i].s == g.m.fed[i].s
    ensures Ascends(g.idle + paired, low, g.w)
  {
    var inputs, n := g.idle + paired, |g.idle|;
    assert forall i :: 0 <= i < n ==> inputs[i] == g.idle[i];
    forall i | n <= i < |inputs| && IsStamp(inputs[i])
      ensures low <= inputs[i].s.timestamp <= g.w
    {
      assert inputs[i] == paired[i - n] && inputs[i].s == g.m.fed[i - n].s;
    }
  }

  /** Over any number of passes with rising watermarks, with no stamp turning up below a watermark that has
      been passed, stamps reach the pairer in time order; so its batched eviction leaves what dropping the
      oldest span each time would. */
  lemma {:induction false} SessionIsInOrder(st: State, l: Ledger, legs: seq<Leg>, end: State, low: nat)
    returns (inputs: seq<Input>, endL: Ledger)
    requires LedgerOk(st, l) && Linked(st, legs, end) && Chain(legs)
    requires legs != [] ==> FedFrom(legs[0].m.fed, low) && low <= legs[0].w
    ensures Reaches(st, l, inputs, end, endL) && AllInOrder(low, inputs)
    decreases |legs|
  {
    if legs == [] {
      inputs, endL := [], l;
    } else {
      var g, rest := legs[0], legs[1..];
      var first, midL := LegIsARun(st, l, g, low);
      if rest != [] {
        assert FollowsOn(legs, 1);
        NothingEarlier(g, legs[1]);
      }
      ChainOn(legs);
      var more;
      more, endL := SessionIsInOrder(g.end, midL, rest, end, g.w);
      inputs := first + more;
      ReachesOn(st, l, first, g.end, midL, more, end, endL);
      StillInOrder(first, more, low, g.w);
    }
  }

  lemma ChainOn(legs: seq<Leg>)
    requires Chain(legs) && legs != []
    ensures Chain(legs[1..])
  {
    var rest := legs[1..];
    forall i | 0 < i < |rest|
      ensures FollowsOn(rest, i)
    {
      assert FollowsOn(legs, i + 1);
    }
  }

  lemma SessionIsExact(st: State, l: Ledger, legs: seq<Leg>, end: State) returns (inputs: seq<Input>, endL: Ledger)
    requires LedgerOk(st, l) && QueueOk(st, 0) && Linked(st, legs, end) && Chain(legs)
    ensures Reaches(st, l, inputs, end, endL) && AllInOrder(0, inputs)
    ensures SimplyReaches(Visible(st), VisibleInputs(inputs), Visible(end))
  {
    inputs, endL := SessionIsInOrder(st, l, legs, end, 0);
    BatchingIsExact(st, l, 0, inputs, end, endL);
  }
}
