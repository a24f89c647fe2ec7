/** The pairer as it is coded: fields updated in place, one method per operation. Each is proved to
    do what PairingSpec says. The three tables are finite maps, as OpenMaps proves its table to be. */
module Pairing {
  import opened Options
  import opened Stamps
  import opened PairKeys
  import opened Anomalies
  import opened OpenMaps
  import opened PairingSpec
  import opened PairingEffects
  import PairingRuns
  import Heaps

  /** Visit a table in whatever order its slots happen to hold it. */
  method Walk<V>(m: map<nat, V>) returns (order: seq<nat>)
    ensures Enumerates(order, m.Keys)
  {
    order := [];
    var rest := m.Keys;
    while rest != {}
      invariant rest <= m.Keys && Enumerates(order, m.Keys - rest)
      decreases |rest|
    {
      var k :| k in rest;
      order, rest := order + [k], rest - {k};
    }
  }

  /** The nomination of an open span. */
  function Nominee(spans: map<nat, OpenSpan>, k: nat): Candidate
    requires k in spans
  {
    Candidate(k, spans[k].seen)
  }

  /** The queue is a heap with its newest span on top, and holds the oldest of the spans visited. */
  ghost predicate Oldest(spans: map<nat, OpenSpan>, visited: seq<nat>, batch: nat, q: seq<Candidate>) {
    && (forall k :: k in visited ==> k in spans)
    && Heaps.IsHeap(q, NewestFirst)
    && |q| == (if |visited| < batch then |visited| else batch)
    && (forall c :: c in multiset(q) ==> c.key in visited && c == Nominee(spans, c.key))
    && (forall c :: multiset(q)[c] <= 1)
    && (|visited| <= batch ==> forall k :: k in visited ==> Nominee(spans, k) in multiset(q))
    && (forall k, c :: k in visited && Nominee(spans, k) !in multiset(q) && c in multiset(q)
          ==> c.seen <= spans[k].seen)
  }

  function NewestFirst(c: Candidate): int {
    0 - c.seen
  }

  /** One more in the heap. */
  method Joining(q: seq<Candidate>, c: Candidate) returns (r: seq<Candidate>)
    requires Heaps.IsHeap(q, NewestFirst)
    ensures Heaps.IsHeap(r, NewestFirst) && |r| == |q| + 1 && multiset(r) == multiset(q) + multiset{c}
  {
    assert (q + [c])[..|q|] == q;
    r := Heaps.PushHeap(q + [c], NewestFirst);
  }

  /** The newest out of the heap, and another in its place. */
  method InPlaceOfTop(q: seq<Candidate>, c: Candidate) returns (r: seq<Candidate>)
    requires q != [] && Heaps.IsHeap(q, NewestFirst)
    ensures Heaps.IsHeap(r, NewestFirst) && |r| == |q| && multiset(r) == multiset(q) - multiset{q[0]} + multiset{c}
  {
    var p := Heaps.PopHeap(q, NewestFirst);
    var top := |p| - 1;
    assert p[top := c][..top] == p[..top];
    r := Heaps.PushHeap(p[top := c], NewestFirst);
    assert p == p[..top] + [p[top]] && p[top := c] == p[..top] + [c];
  }

  lemma TopIsNewest(q: seq<Candidate>, c: Candidate)
    requires Heaps.IsHeap(q, NewestFirst) && q != [] && c in multiset(q)
    ensures c.seen <= q[0].seen
  {
    var i :| 0 <= i < |q| && q[i] == c;
    Heaps.TopIsLeast(q, NewestFirst, i);
  }

  lemma OnceEach<T>(q: seq<T>, i: nat, j: nat)
    requires i < j < |q| && multiset(q)[q[j]] <= 1
    ensures q[i] != q[j]
  {
    assert q == q[..j] + q[j..];
    assert q[j] in multiset(q[j..]);
    assert q[j] in multiset(q[..j]) ==> multiset(q)[q[j]] >= 2;
    assert q[i] == q[..j][i];
  }

  class Pairer {
    var spans: map<nat, OpenSpan>
    var maxSpans: nat
    var stages: map<nat, Stage>
    var points: map<nat, Counts>
    var maxStages: nat
    var overflow: Counts
    var overhead: nat
    var peak: nat
    var queue: seq<Candidate>
    var next: nat
    var batch: nat

    /** Every anomaly counted so far. */
    ghost var log: Log

    ghost function View(): State
      reads this
    {
      State(spans, maxSpans, stages, maxStages, log, overhead, peak, queue, next, batch)
    }

    ghost predicate Valid()
      reads this
    {
      Inv(View()) && Table(points, maxStages, overflow) == View().Counters()
    }

    /** A fresh session: every table empty and every counter at zero. */
    constructor (maxOpenSpans: nat, stageLimit: nat)
      ensures Valid() && Init(View()) && overhead == 0
      ensures maxSpans == (if maxOpenSpans == 0 then 1 else maxOpenSpans)
      ensures maxStages == (if stageLimit == 0 then 1 else stageLimit)
      ensures batch == (if maxOpenSpans / 8 == 0 then 1 else maxOpenSpans / 8)
    {
      maxSpans := if maxOpenSpans == 0 then 1 else maxOpenSpans;
      maxStages := if stageLimit == 0 then 1 else stageLimit;
      spans, stages, points, overflow := map[], map[], map[], ZERO;
      overhead, peak, queue, next, log := 0, 0, [], 0, [];
      batch := if maxOpenSpans / 8 == 0 then 1 else maxOpenSpans / 8;
    }

    method SetOverhead(cycles: nat)
      requires Valid()
      modifies this`overhead
      ensures Valid() && View() == old(View()).(overhead := cycles)
    {
      overhead := cycles;
    }

    /** Count an anomaly against its point, or in the shared bucket when its point has no entry and
        there is no room for one. */
    method CountAnomaly(p: nat, k: Kind)
      requires Valid()
      modifies this`points, this`overflow, this`log
      ensures Valid() && View() == Anomaly(old(View()), p, k)
    {
      AfterOneMore(maxStages, log, p, k);
      ghost var bumped := Bump(Table(points, maxStages, overflow), p, k);
      if p in points {
        points := points[p := points[p].Inc(k)];
      } else if |points| < maxStages {
        assert points[p := ZERO][p := ZERO.Inc(k)] == points[p := ZERO.Inc(k)];
        points := points[p := ZERO.Inc(k)];
      } else {
        overflow := overflow.Inc(k);
      }
      assert Table(points, maxStages, overflow) == bumped;
      log := log + [(p, k)];
    }

    method RecordOne(r: Rec)
      requires Valid()
      modifies this`stages, this`points, this`overflow, this`log
      ensures Valid() && View() == Record(old(View()), r)
      ensures var cost := overhead * r.transitions;
        Gains(old(View()), View(), r.point, r.from, r.to, if r.cycles > cost then r.cycles - cost else 0)
    {
      PairingRuns.RecordRoom(View(), r);
      RecordGains(View(), r, overhead * r.transitions);
      var spent := overhead * r.transitions;
      var cycles := if r.cycles > spent then r.cycles - spent else 0;
      var key := StageKey(r.point, r.from, r.to);
      if key !in stages {
        if |stages| >= maxStages {
          CountAnomaly(r.point, OutOfRange);
          return;
        }
        stages := stages[key := Stage(r.point, r.from, r.to, [], [])];
      }
      stages := stages[key := stages[key].(interval := stages[key].interval + [cycles])];
    }

    /** Collect the oldest spans, oldest first, in one pass over the table. */
    method RefillEvictQueue()
      requires Valid()
      modifies this`queue, this`next
      ensures Valid() && View() == old(View()).(queue := queue, next := 0)
      ensures Refilled(spans, batch, queue)
    {
      var q, order := OldestSpans();
      queue := Heaps.SortHeap(q, NewestFirst);
      next := 0;
      SortedIsRefilled(order, q);
    }

    /** One pass over the table, keeping the oldest spans seen so far in a heap. */
    method OldestSpans() returns (q: seq<Candidate>, ghost order: seq<nat>)
      requires batch > 0
      ensures Enumerates(order, spans.Keys) && Oldest(spans, order, batch, q)
    {
      var all := Walk(spans);
      q := [];
      for i := 0 to |all|
        invariant Oldest(spans, all[..i], batch, q)
      {
        assert all[..i + 1] == all[..i] + [all[i]];
        assert all[i] !in all[..i];
        q := Visit(all[..i], all[i], q);
      }
      assert all[..|all|] == all;
      order := all;
    }

    /** Let one span into the batch: while it has room, or in place of the newest one there. */
    method Visit(ghost visited: seq<nat>, k: nat, q: seq<Candidate>) returns (r: seq<Candidate>)
      requires batch > 0 && k in spans && k !in visited && Oldest(spans, visited, batch, q)
      ensures Oldest(spans, visited + [k], batch, r)
    {
      var c := Nominee(spans, k);
      assert c !in multiset(q);
      if |q| < batch {
        r := Joining(q, c);
        Joined(visited, k, q, r);
      } else if c.seen < q[0].seen {
        r := InPlaceOfTop(q, c);
        Displaced(visited, k, q, r);
      } else {
        r := q;
        PassedOver(visited, k, q);
      }
    }

    lemma Joined(visited: seq<nat>, k: nat, q: seq<Candidate>, r: seq<Candidate>)
      requires k in spans && k !in visited && Oldest(spans, visited, batch, q) && |q| < batch
      requires Heaps.IsHeap(r, NewestFirst) && |r| == |q| + 1
      requires multiset(r) == multiset(q) + multiset{Nominee(spans, k)}
      ensures Oldest(spans, visited + [k], batch, r)
    {
      assert multiset(q)[Nominee(spans, k)] == 0;
    }

    lemma PassedOver(visited: seq<nat>, k: nat, q: seq<Candidate>)
      requires batch > 0 && k in spans && k !in visited && Oldest(spans, visited, batch, q) && |q| == batch
      requires q[0].seen <= spans[k].seen
      ensures Oldest(spans, visited + [k], batch, q)
    {
      forall o | o in multiset(q) ensures o.seen <= spans[k].seen {
        TopIsNewest(q, o);
      }
    }

    lemma Displaced(visited: seq<nat>, k: nat, q: seq<Candidate>, r: seq<Candidate>)
      requires batch > 0 && k in spans && k !in visited && Oldest(spans, visited, batch, q) && |q| == batch
      requires Nominee(spans, k).seen < q[0].seen
      requires Heaps.IsHeap(r, NewestFirst) && |r| == |q|
      requires multiset(r) == multiset(q) - multiset{q[0]} + multiset{Nominee(spans, k)}
      ensures Oldest(spans, visited + [k], batch, r)
    {
      assert q[0] in multiset(q);
      forall o, c | o in visited + [k] && Nominee(spans, o) !in multiset(r) && c in multiset(r)
        ensures c.seen <= spans[o].seen
      {
        if c in multiset(q) {
          TopIsNewest(q, c);
        }
      }
    }

    lemma SortedIsRefilled(order: seq<nat>, q: seq<Candidate>)
      requires Enumerates(order, spans.Keys) && Oldest(spans, order, batch, q)
      requires multiset(queue) == multiset(q) && |queue| == |q|
      requires forall i, j :: 0 <= i < j < |queue| ==> NewestFirst(queue[j]) <= NewestFirst(queue[i])
      ensures Refilled(spans, batch, queue)
    {
      PairingRuns.EnumeratesCount(order, spans.Keys);
      assert |spans.Keys| == |spans|;
      forall i | 0 <= i < |queue|
        ensures Live(spans, queue[i]) && queue[i] == Nominee(spans, queue[i].key)
      {
        assert queue[i] in multiset(queue);
      }
      forall i, j | 0 <= i < j < |queue|
        ensures queue[i].seen <= queue[j].seen && queue[i].key != queue[j].key
      {
        assert NewestFirst(queue[j]) <= NewestFirst(queue[i]);
        OnceEach(queue, i, j);
      }
      forall k, j | k in spans && 0 <= j < |queue| && Candidate(k, spans[k].seen) !in queue
        ensures queue[j].seen <= spans[k].seen
      {
        LeftOutIsNewer(order, q, k, j);
      }
    }

    lemma LeftOutIsNewer(order: seq<nat>, q: seq<Candidate>, k: nat, j: nat)
      requires Enumerates(order, spans.Keys) && Oldest(spans, order, batch, q)
      requires multiset(queue) == multiset(q) && j < |queue|
      requires k in spans && Candidate(k, spans[k].seen) !in queue
      ensures queue[j].seen <= spans[k].seen
    {
      assert queue[j] in multiset(queue);
      assert k in order && Nominee(spans, k) !in multiset(queue);
    }

    /** The next queued candidate still open and untouched since it was nominated. */
    method PopLive() returns (c: Option<Candidate>)
      requires Valid()
      modifies this`next
      ensures Valid() && View() == old(View()).(next := next)
      ensures c == None ==> NoneLive(old(View()))
      ensures c.Some? ==> next > 0 && FirstLive(old(View()), next - 1) && queue[next - 1] == c.value
    {
      while next < |queue|
        invariant next <= |queue| && View() == old(View()).(next := next) && old(next) <= next
        invariant forall j :: old(next) <= j < next ==> !Live(spans, queue[j])
      {
        var candidate := queue[next];
        next := next + 1;
        if candidate.key in spans && spans[candidate.key].seen == candidate.seen {
          return Some(candidate);
        }
      }
      return None;
    }

    /** Make room by dropping the open span longest untouched; `c` says which, and from what queue.
        Two passes over the queue are always enough. */
    method EvictOldest() returns (ghost c: Choice)
      requires Valid()
      modifies this
      ensures Valid()
      ensures old(spans) != map[] ==> MayEvict(old(View()), c) && View() == Evicted(old(View()), c)
      ensures old(spans) == map[] ==> View() == old(View()).(queue := [], next := 0)
    {
      c := Choice(0, [], 0);
      var pass := 0;
      while pass < 2
        invariant 0 <= pass <= 2 && Valid()
        invariant pass == 0 ==> View() == old(View())
        invariant pass > 0 ==>
          && NoneLive(old(View())) && View() == old(View()).(queue := queue, next := 0)
          && Refilled(spans, batch, queue) && queue != []
        invariant pass < 2
      {
        assert pass == 1 ==> Live(spans, queue[0]);
        var candidate := PopLive();
        if candidate.Some? {
          c := Choice(candidate.value.key, queue, next);
          if pass == 0 {
            assert FirstLive(old(View()), next - 1);
          } else {
            assert Live(spans, queue[0]);
          }
          AbandonSpan(candidate.value.key);
          return;
        }
        RefillEvictQueue();
        if queue == [] {
          return;
        }
        pass := pass + 1;
      }
    }

    /** Open a span. One still open under the same key is abandoned; a full table evicts first. */
    method OpenBegin(s: Sample) returns (ghost c: Choice)
      requires Valid() && StepOf(s.event) == BEGIN_STEP
      modifies this
      ensures Valid() && Allowed(old(View()), Event(s, c)) && View() == Begun(old(View()), s, c)
    {
      c := Choice(0, [], 0);
      if KeyOf(s) in spans {
        Reopen(s);
      } else {
        c := OpenNew(s);
      }
    }

    /** The span still open counts as abandoned, and starts again. */
    method Reopen(s: Sample)
      requires Valid() && KeyOf(s) in spans
      modifies this
      ensures Valid()
      ensures View() == Anomaly(old(View()), s.point, Abandoned).(spans := old(spans)[KeyOf(s) := Fresh(s)])
    {
      CountAnomaly(s.point, Abandoned);
      PairingRuns.Put(spans, KeyOf(s), Fresh(s));
      spans := spans[KeyOf(s) := Fresh(s)];
    }

    /** A key not open yet gets a span, if need be in the place of the one evicted. */
    method OpenNew(s: Sample) returns (ghost c: Choice)
      requires Valid() && StepOf(s.event) == BEGIN_STEP && KeyOf(s) !in spans
      modifies this
      ensures Valid() && (NeedsRoom(old(View()), s) ==> MayEvict(old(View()), c))
      ensures View() == Begun(old(View()), s, c)
    {
      c := Choice(0, [], 0);
      if |spans| >= maxSpans {
        c := EvictOldest();
        PairingRuns.EvictionFreesASlot(old(View()), c);
      }
      InsertSpan(KeyOf(s), Fresh(s));
    }

    /** Add a span there is room for, and note the busiest the table has been. */
    method InsertSpan(key: nat, sp: OpenSpan)
      requires Valid() && key !in spans && |spans| < maxSpans && Ordered(sp)
      modifies this`spans, this`peak
      ensures Valid() && spans == old(spans)[key := sp]
      ensures View() == old(View()).(spans := spans, peak := if |spans| > old(peak) then |spans| else old(peak))
    {
      PairingRuns.Put(spans, key, sp);
      spans := spans[key := sp];
      if |spans| > peak {
        peak := |spans|;
      }
    }

    /** Pair one event. */
    method OnEvent(s: Sample) returns (ghost c: Choice)
      requires Valid()
      modifies this
      ensures Valid() && Allowed(old(View()), Event(s, c)) && View() == Step(old(View()), Event(s, c))
    {
      c := Choice(0, [], 0);
      var step := StepOf(s.event);
      if step == VALUE_STEP {
        RecordOne(Rec(s.point, VALUE_STEP, VALUE_STEP, s.timestamp, 0));
        return;
      }
      if step == BEGIN_STEP {
        c := OpenBegin(s);
        return;
      }
      var key := KeyOf(s);
      if key !in spans {
        CountAnomaly(s.point, Orphan);
        return;
      }
      if s.timestamp < spans[key].last {
        CountAnomaly(s.point, Invalid);
        PairingRuns.Drop(spans, key);
        spans := spans - {key};
        return;
      }
      if step == END_STEP {
        EndSpan(s);
      } else {
        StepSpan(s);
      }
    }

    /** A step on an open span, no earlier than its last stamp. */
    method StepSpan(s: Sample)
      requires Valid() && StepOf(s.event) !in {VALUE_STEP, BEGIN_STEP, END_STEP}
      requires KeyOf(s) in spans && spans[KeyOf(s)].last <= s.timestamp
      modifies this
      ensures Valid() && View() == Step(old(View()), Event(s, Choice(0, [], 0)))
    {
      var key := KeyOf(s);
      var sp := spans[key];
      assert Ordered(sp);
      PairingRuns.MeasuredInOrder(View(), s, sp);
      RecordOne(Rec(s.point, sp.lastStep, StepOf(s.event), s.timestamp - sp.last, 1));
      PairingRuns.Put(spans, key, Touched(s, sp));
      spans := spans[key := sp.(last := s.timestamp, seen := s.timestamp, lastStep := StepOf(s.event),
                                transitions := sp.transitions + 1)];
    }

    /** The end of an open span, no earlier than its last stamp. */
    method EndSpan(s: Sample)
      requires Valid() && StepOf(s.event) == END_STEP
      requires KeyOf(s) in spans && spans[KeyOf(s)].last <= s.timestamp
      modifies this
      ensures Valid() && View() == Step(old(View()), Event(s, Choice(0, [], 0)))
    {
      PairingRuns.EndStep(View(), s, Choice(0, [], 0));
      RecordEnd(s, spans[KeyOf(s)]);
      PairingRuns.Drop(spans, KeyOf(s));
      spans := spans - {KeyOf(s)};
    }

    /** The end of a span: its last transition, unless that is the whole span, and the total. */
    method RecordEnd(s: Sample, sp: OpenSpan)
      requires Valid() && StepOf(s.event) == END_STEP && sp.start <= sp.last <= s.timestamp
      modifies this`stages, this`points, this`overflow, this`log
      ensures Valid() && View() == RecordAll(old(View()), Measured(s, sp))
    {
      PairingRuns.MeasuredInOrder(View(), s, sp);
      if sp.lastStep != BEGIN_STEP {
        RecordOne(Rec(s.point, sp.lastStep, END_STEP, s.timestamp - sp.last, 1));
      }
      RecordOne(Rec(s.point, BEGIN_STEP, BEGIN_STEP, s.timestamp - sp.start, sp.transitions + 1));
    }

    /** Fold every stage's interval into its cumulative record, as its row is built. */
    method FoldIntervals()
      requires Valid()
      modifies this`stages
      ensures Valid() && stages == Folded(old(stages))
    {
      assert Folded(stages).Keys == stages.Keys;
      assert |stages.Keys| == |stages| && |Folded(stages).Keys| == |Folded(stages)|;
      stages := Folded(stages);
    }

    /** Start a new interval. */
    method ClearIntervals()
      requires Valid()
      modifies this`stages
      ensures Valid() && View() == Step(old(View()), Input.ClearIntervals)
    {
      ghost var next := Step(View(), Input.ClearIntervals);
      assert next.stages.Keys == stages.Keys;
      assert |stages.Keys| == |stages| && |next.stages.Keys| == |next.stages|;
      stages := map k | k in stages :: stages[k].(interval := []);
    }

    /** Whether pairing s next would be clean. */
    method CleanNext(s: Sample) returns (clean: bool)
      ensures clean == PairsCleanly(spans, s)
    {
      var open := KeyOf(s) in spans;
      clean := (StepOf(s.event) == BEGIN_STEP) != open;
    }

    /** Abandon every span untouched for longer than maxAge, each exactly once. */
    method AgeOut(now: nat, maxAge: nat) returns (n: nat, ghost order: seq<nat>)
      requires Valid()
      modifies this
      ensures Valid() && Allowed(old(View()), Sweep(now, maxAge, order))
      ensures View() == Step(old(View()), Sweep(now, maxAge, order))
      ensures SweptOut(old(View()), View(), now, maxAge) && old(log) <= log
      ensures n == |old(spans).Keys - spans.Keys|
      ensures CountersGone(old(Table(points, maxStages, overflow)), Table(points, maxStages, overflow),
                           old(spans).Keys - spans.Keys)
    {
      n, order := EraseExpired(now, maxAge);
      SweepDoes(old(View()), now, maxAge, order);
      CountersFollow(old(View()), View());
      assert old(spans).Keys - spans.Keys == ExpiredKeys(old(spans), now, maxAge);
    }

    method EraseExpired(now: nat, maxAge: nat) returns (n: nat, ghost order: seq<nat>)
      requires Valid()
      modifies this
      ensures Valid() && Allowed(old(View()), Sweep(now, maxAge, order))
      ensures View() == Step(old(View()), Sweep(now, maxAge, order))
      ensures n == |ExpiredKeys(old(spans), now, maxAge)|
    {
      n, order := 0, [];
      assert log + AbandonEach(order) == log;
      ghost var was := spans;
      var all: seq<nat> := [];
      if maxAge != 0 {
        all := Walk(spans);
        for i := 0 to |all|
          invariant Valid() && n == |order|
          invariant View() == old(View()).(spans := spans, log := old(log) + AbandonEach(order))
          invariant AgedOut(order, was, spans, all[..i], now, maxAge)
        {
          assert all[..i + 1] == all[..i] + [all[i]];
          assert all[i] !in all[..i];
          AgedOneMore(order, was, spans, all[..i], all[i], now, maxAge);
          AbandonOneMore(order, all[i]);
          if now > spans[all[i]].seen && now - spans[all[i]].seen > maxAge {
            AbandonSpan(all[i]);
            order, n := order + [all[i]], n + 1;
          }
        }
        assert all[..|all|] == all;
      }
      ExpiredGone(was, spans, order, all, now, maxAge);
    }

    /** Count one open span as abandoned and drop it. */
    method AbandonSpan(k: nat)
      requires Valid() && k in spans
      modifies this`spans, this`points, this`overflow, this`log
      ensures Valid() && View() == Anomaly(old(View()), SpanPoint(k), Abandoned).(spans := old(spans) - {k})
    {
      CountAnomaly(SpanPoint(k), Abandoned);
      PairingRuns.Drop(spans, k);
      spans := spans - {k};
    }

    /** End the session: every open span counts as abandoned, exactly once. */
    method AbandonEverything() returns (n: nat, ghost order: seq<nat>)
      requires Valid()
      modifies this
      ensures Valid() && Allowed(old(View()), AbandonAll(order))
      ensures View() == Step(old(View()), AbandonAll(order))
      ensures n == |old(spans)| && spans == map[] && CountsGone(old(View()), View())
      ensures CountersGone(old(Table(points, maxStages, overflow)), Table(points, maxStages, overflow),
                           old(spans).Keys)
    {
      n, order := DropEverything();
      AbandonAllDoes(old(View()), order);
      CountersFollow(old(View()), View());
      assert old(spans).Keys - spans.Keys == old(spans).Keys;
    }

    method DropEverything() returns (n: nat, ghost order: seq<nat>)
      requires Valid()
      modifies this
      ensures Valid() && Allowed(old(View()), AbandonAll(order))
      ensures View() == Step(old(View()), AbandonAll(order))
      ensures n == |old(spans)|
    {
      var all := Walk(spans);
      CountAbandoned(all);
      n, order := |all|, all;
      PairingRuns.EnumeratesCount(order, spans.Keys);
      assert |spans.Keys| == |spans|;
      spans, queue, next := map[], [], 0;
    }

    /** Count each of these spans as abandoned. */
    method CountAbandoned(all: seq<nat>)
      requires Valid()
      modifies this`points, this`overflow, this`log
      ensures Valid() && View() == old(View()).(log := old(log) + AbandonEach(all))
    {
      assert log + AbandonEach(all[..0]) == log;
      for i := 0 to |all|
        invariant Valid() && View() == old(View()).(log := old(log) + AbandonEach(all[..i]))
      {
        AbandonOneMore(all[..i], all[i]);
        assert all[..i + 1] == all[..i] + [all[i]];
        CountAnomaly(SpanPoint(all[i]), Abandoned);
      }
      assert all[..|all|] == all;
    }
  }

  function Folded(stages: map<nat, Stage>): map<nat, Stage> {
    map k | k in stages :: stages[k].(cumulative := stages[k].cumulative + stages[k].interval)
  }

  /** Of the spans walked so far, `order` lists the expired ones, and those alone are gone. */
  ghost predicate AgedOut(order: seq<nat>, was: map<nat, OpenSpan>, left: map<nat, OpenSpan>, walked: seq<nat>,
                          now: nat, maxAge: nat)
  {
    && (forall k :: k in walked ==> k in was)
    && (forall k :: k in order <==> k in walked && k in was && Expired(was[k], now, maxAge))
    && (forall a, b :: 0 <= a < b < |order| ==> order[a] != order[b])
    && (forall k :: k in left <==> k in was && k !in order)
    && (forall k :: k in left ==> left[k] == was[k])
  }

  lemma AgedOneMore(order: seq<nat>, was: map<nat, OpenSpan>, left: map<nat, OpenSpan>, walked: seq<nat>, k: nat,
                    now: nat, maxAge: nat)
    requires AgedOut(order, was, left, walked, now, maxAge) && k in was && k !in walked
    ensures k in left && left[k] == was[k]
    ensures if Expired(was[k], now, maxAge) then AgedOut(order + [k], was, left - {k}, walked + [k], now, maxAge)
            else AgedOut(order, was, left, walked + [k], now, maxAge)
  {
  }

  lemma ExpiredGone(was: map<nat, OpenSpan>, left: map<nat, OpenSpan>, order: seq<nat>, walked: seq<nat>,
                    now: nat, maxAge: nat)
    requires AgedOut(order, was, left, walked, now, maxAge)
    requires maxAge != 0 ==> forall k :: k in was ==> k in walked
    ensures left == was - ExpiredKeys(was, now, maxAge)
    ensures Enumerates(order, ExpiredKeys(was, now, maxAge)) && |order| == |ExpiredKeys(was, now, maxAge)|
  {
    PairingRuns.EnumeratesCount(order, ExpiredKeys(was, now, maxAge));
  }

  lemma AbandonOneMore(order: seq<nat>, k: nat)
    ensures forall log: Log ::
      (log + AbandonEach(order)) + [(SpanPoint(k), Abandoned)] == log + AbandonEach(order + [k])
  {
  }
}
