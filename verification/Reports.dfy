/** The rows of a flush: interval figures against lifetime ones, and which rows reach the time series. */
module Reports {
  import opened Options
  import opened Stamps
  import opened Anomalies
  import opened OpenMaps
  import opened PairingSpec
  import opened PairingEffects
  import PairingRuns
  import Pairing

  /** A row: of a stage, of a point with anomalies and no stage, of the shared bucket, or of the collector.
      `count` and `delta` are the interval's; `cumulative` and `total` the lifetime's. */
  datatype Row = Row(point: nat, from: nat, to: nat, count: nat, cumulative: nat, delta: Counts, total: Counts,
                     dropped: nat, stalled: nat, anomaliesOnly: bool, overflow: bool)

  /** What the time series gets: rows with samples, and rows whose counters are their content. */
  predicate Selected(r: Row) {
    r.count != 0 || r.anomaliesOnly
  }

  /** Counters before and now, with the interval's losses and stalls. */
  datatype Interval = Interval(before: Table, now: Table, dropped: nat, stalled: nat)
  {
    ghost predicate Grows() {
      now.overflow.AtLeast(before.overflow) && forall p: nat :: now.Of(p).AtLeast(before.Of(p))
    }

    function Delta(p: nat): Counts
      requires now.Of(p).AtLeast(before.Of(p))
    {
      now.Of(p).Since(before.Of(p))
    }
  }

  /** A row says of its point, or of the shared bucket, what the interval brought and what there is now. */
  ghost predicate RowOk(r: Row, iv: Interval)
    requires iv.Grows()
  {
    && r.dropped == iv.dropped && r.stalled == iv.stalled
    && (if r.overflow then r.delta == iv.now.overflow.Since(iv.before.overflow) && r.total == iv.now.overflow
        else r.delta == iv.Delta(r.point) && r.total == iv.now.Of(r.point))
  }

  ghost predicate RowsOk(rows: seq<Row>, iv: Interval)
    requires iv.Grows()
  {
    forall a :: 0 <= a < |rows| ==> RowOk(rows[a], iv)
  }

  /** The row a stage gets. */
  function StageRow(g: Stage, iv: Interval): Row
    requires iv.now.Of(g.point).AtLeast(iv.before.Of(g.point))
  {
    Row(g.point, g.from, g.to, |g.interval|, |g.cumulative| + |g.interval|, iv.Delta(g.point), iv.now.Of(g.point),
        iv.dropped, iv.stalled, false, false)
  }

  /** Some row of the point's is selected. */
  ghost predicate Carried(rows: seq<Row>, p: nat) {
    exists a :: 0 <= a < |rows| && rows[a].point == p && !rows[a].overflow && Selected(rows[a])
  }

  /** At most one row without samples is selected for each point, so none of its anomalies is told twice. */
  ghost predicate OneCarrier(rows: seq<Row>) {
    forall a, b :: 0 <= a < b < |rows| && Bare(rows[a]) && Bare(rows[b]) ==> rows[a].point != rows[b].point
  }

  predicate Bare(r: Row) {
    r.count == 0 && r.anomaliesOnly && !r.overflow
  }

  /** Where a point's rows stand: the one that can carry its anomalies, and whether any has samples. */
  datatype RowRef = RowRef(carrier: nat, hasSamples: bool)

  /** The table of references has one for every point with rows, unless it is full. */
  ghost predicate RefsOk(refs: map<nat, RowRef>, room: nat, rows: seq<Row>) {
    && (forall p :: p in refs ==>
          && StandsFor(rows, p, refs[p].carrier)
          && (refs[p].hasSamples <==> HasSamples(rows, p)))
    && (forall a :: 0 <= a < |rows| ==> !rows[a].overflow && !rows[a].anomaliesOnly)
    && (|refs| < room ==> forall a :: 0 <= a < |rows| ==> rows[a].point in refs)
  }

  /** The row that can carry a point's anomalies: its total, or the first of its rows if it has none. */
  ghost predicate StandsFor(rows: seq<Row>, p: nat, c: nat) {
    && c < |rows| && rows[c].point == p && !rows[c].overflow
    && (forall a :: 0 <= a < |rows| && rows[a].point == p && !rows[a].overflow ==>
          if rows[c].from == rows[c].to == BEGIN_STEP then c < a ==> !(rows[a].from == rows[a].to == BEGIN_STEP)
          else c <= a && !(rows[a].from == rows[a].to == BEGIN_STEP))
  }

  /** The same rows, at most exempted, and perhaps more after them. */
  ghost predicate SameRows(rows: seq<Row>, more: seq<Row>) {
    |rows| <= |more| && forall a :: 0 <= a < |rows| ==> more[a] == rows[a].(anomaliesOnly := more[a].anomaliesOnly)
  }

  lemma StillStands(rows: seq<Row>, more: seq<Row>, p: nat, c: nat)
    requires SameRows(rows, more) && StandsFor(rows, p, c)
    requires forall a :: |rows| <= a < |more| ==> more[a].point != p || more[a].overflow
    ensures StandsFor(more, p, c)
  {
    forall a | 0 <= a < |more| && more[a].point == p && !more[a].overflow
      ensures a < |rows| && rows[a].point == p && !rows[a].overflow
    {
    }
  }

  lemma StillShows(rows: seq<Row>, more: seq<Row>, p: nat, total: Counts)
    requires SameRows(rows, more) && Shows(rows, p, total)
    ensures Shows(more, p, total)
  {
    var a :| 0 <= a < |rows| && rows[a].point == p && !rows[a].overflow && rows[a].total == total;
    assert more[a].point == p && !more[a].overflow && more[a].total == total;
  }

  /** Some row shows these lifetime totals for the point. */
  ghost predicate Shows(rows: seq<Row>, p: nat, total: Counts) {
    exists a :: 0 <= a < |rows| && rows[a].point == p && !rows[a].overflow && rows[a].total == total
  }

  /** Rows are exempted from having samples only for something new, and one that stands for its point. */
  ghost predicate ExemptOk(rows: seq<Row>) {
    forall a :: 0 <= a < |rows| && rows[a].anomaliesOnly ==>
      rows[a].count == 0 && rows[a].delta.Any() && (!rows[a].overflow ==> StandsFor(rows, rows[a].point, a))
  }

  ghost predicate HasSamples(rows: seq<Row>, p: nat) {
    exists a :: 0 <= a < |rows| && rows[a].point == p && rows[a].count != 0
  }

  /** Whatever anomalies the interval brought are on some selected row. */
  ghost predicate TellsAll(rows: seq<Row>, iv: Interval)
    requires iv.Grows()
  {
    && RowsOk(rows, iv) && (forall p: nat :: iv.Delta(p).Any() ==> Carried(rows, p))
    && (iv.now.overflow.Since(iv.before.overflow).Any() ==>
          exists a :: 0 <= a < |rows| && rows[a].overflow && Selected(rows[a]))
  }

  /** What the rows of a flush must say. Lifetime counters stay in the report whether or not there is
      anything new. */
  ghost predicate ReportOk(rows: seq<Row>, stages: map<nat, Stage>, iv: Interval)
    requires iv.Grows()
  {
    && TellsAll(rows, iv) && OneCarrier(rows) && StagesOnce(rows, stages) && ExemptOk(rows)
    && (forall p: nat :: iv.now.Of(p).Any() ==> Shows(rows, p, iv.now.Of(p)))
    && (iv.now.overflow.Any() ==>
          exists a :: 0 <= a < |rows| && rows[a].overflow && rows[a].total == iv.now.overflow)
    && forall a, b :: 0 <= a < b < |rows| ==> !(rows[a].overflow && rows[b].overflow)
  }

  /** Each stage has one row, and no other row has samples. */
  ghost predicate StagesOnce(rows: seq<Row>, stages: map<nat, Stage>) {
    exists order :: Enumerates(order, stages.Keys) && RowsFollow(rows, stages, order)
  }

  ghost predicate RowsFollow(rows: seq<Row>, stages: map<nat, Stage>, order: seq<nat>) {
    && |order| <= |rows|
    && (forall j :: 0 <= j < |order| ==> order[j] in stages && IsRowOf(rows[j], stages[order[j]]))
    && (forall a :: |order| <= a < |rows| ==> rows[a].count == 0 && rows[a].total.Any())
    && (forall a, b :: |order| <= a < b < |rows| && !rows[a].overflow && !rows[b].overflow ==>
          rows[a].point != rows[b].point)
  }

  predicate IsRowOf(r: Row, g: Stage) {
    && r.point == g.point && r.from == g.from && r.to == g.to && !r.overflow
    && r.count == |g.interval| && r.cumulative == |g.cumulative| + |g.interval|
  }

  /** Note where a new row stands: the total of its point carries its anomalies, or else its first row. */
  method NoteRow(refs: map<nat, RowRef>, room: nat, ghost rows: seq<Row>, index: nat, r: Row)
    returns (after: map<nat, RowRef>)
    requires RefsOk(refs, room, rows) && index == |rows| && !r.overflow && !r.anomaliesOnly
    ensures RefsOk(after, room, rows + [r])
  {
    var p := r.point;
    var ref := RowRef(index, false);
    OthersStand(refs, room, rows, r);
    if p in refs {
      CarrierNoted(rows, r, Some(refs[p].carrier));
      ref := refs[p];
      if r.from == BEGIN_STEP && r.to == BEGIN_STEP {
        ref := ref.(carrier := index);
      }
    } else if |refs| >= room {
      return refs;
    } else {
      CarrierNoted(rows, r, None);
    }
    PairingRuns.Put(refs, p, ref);
    after := refs[p := ref.(hasSamples := ref.hasSamples || r.count != 0)];
  }

  /** What is noted of the other points still holds with one row more. */
  lemma OthersStand(refs: map<nat, RowRef>, room: nat, rows: seq<Row>, r: Row)
    requires RefsOk(refs, room, rows) && !r.overflow && !r.anomaliesOnly
    ensures var all := rows + [r];
      && (forall a :: 0 <= a < |all| ==> !all[a].overflow && !all[a].anomaliesOnly)
      && (|refs| < room ==> forall a :: 0 <= a < |all| && all[a].point != r.point ==> all[a].point in refs)
      && (forall q :: q in refs && q != r.point ==>
            StandsFor(all, q, refs[q].carrier) && (refs[q].hasSamples <==> HasSamples(all, q)))
    ensures HasSamples(rows + [r], r.point) <==> HasSamples(rows, r.point) || r.count != 0
    ensures r.point !in refs && |refs| < room ==> !HasSamples(rows, r.point)
  {
    SamplesOneMore(rows, r);
    forall q | q in refs && q != r.point
      ensures StandsFor(rows + [r], q, refs[q].carrier)
    {
      StillStands(rows, rows + [r], q, refs[q].carrier);
    }
  }

  lemma CarrierNoted(rows: seq<Row>, r: Row, was: Option<nat>)
    requires !r.overflow && (was.Some? ==> StandsFor(rows, r.point, was.value))
    requires was == None ==> forall a :: 0 <= a < |rows| ==> rows[a].point != r.point
    ensures StandsFor(rows + [r], r.point,
                      if was.Some? && !(r.from == BEGIN_STEP && r.to == BEGIN_STEP) then was.value else |rows|)
  {
  }

  lemma SamplesOneMore(rows: seq<Row>, r: Row)
    ensures forall q :: HasSamples(rows + [r], q) <==> HasSamples(rows, q) || (r.point == q && r.count != 0)
  {
    forall q
      ensures HasSamples(rows + [r], q) <==> HasSamples(rows, q) || (r.point == q && r.count != 0)
    {
      if HasSamples(rows, q) {
        var a :| 0 <= a < |rows| && rows[a].point == q && rows[a].count != 0;
        assert (rows + [r])[a] == rows[a];
      }
      if r.point == q && r.count != 0 {
        assert (rows + [r])[|rows|] == r;
      }
    }
  }

  /** The stages' rows, one each. */
  method StageRows(stages: map<nat, Stage>, iv: Interval, room: nat)
    returns (rows: seq<Row>, refs: map<nat, RowRef>, ghost staged: seq<nat>)
    requires iv.Grows()
    ensures RowsOk(rows, iv) && RefsOk(refs, room, rows)
    ensures Enumerates(staged, stages.Keys) && RowsFollow(rows, stages, staged) && |staged| == |rows|
  {
    rows, refs := [], map[];
    var order := Pairing.Walk(stages);
    for i := 0 to |order|
      invariant |rows| == i && RowsOk(rows, iv) && RefsOk(refs, room, rows)
      invariant forall j :: 0 <= j < i ==> order[j] in stages && rows[j] == StageRow(stages[order[j]], iv)
    {
      assert order[i] in stages;
      var r := StageRow(stages[order[i]], iv);
      refs := NoteRow(refs, room, rows, |rows|, r);
      rows := rows + [r];
    }
    staged := order;
  }

  /** An empty total row, for counters with no stage to go with. */
  function AnomalyRow(p: nat, overflow: bool, delta: Counts, total: Counts, iv: Interval): Row {
    Row(p, BEGIN_STEP, BEGIN_STEP, 0, 0, delta, total, iv.dropped, iv.stalled, delta.Any(), overflow)
  }

  /** The rows once the points visited have told what is new: the stages' rows, at most marked, and after
      them a row for each point without one. */
  ghost predicate Told(rows: seq<Row>, first: seq<Row>, visited: seq<nat>, iv: Interval)
    requires iv.Grows()
  {
    && RowsOk(rows, iv) && OneCarrier(rows) && |first| <= |rows|
    && (forall a :: 0 <= a < |first| ==> rows[a] == first[a].(anomaliesOnly := rows[a].anomaliesOnly))
    && (forall a :: |first| <= a < |rows| ==> rows[a].count == 0)
    && (forall a :: 0 <= a < |rows| ==> !rows[a].overflow && (Bare(rows[a]) ==> rows[a].point in visited))
    && (forall p :: p in visited && iv.Delta(p).Any() ==> Carried(rows, p))
  }

  /** And every point visited that ever had an anomaly has a row: one of its own only if need be. */
  ghost predicate Lasting(rows: seq<Row>, first: seq<Row>, visited: seq<nat>, iv: Interval) {
    && |first| <= |rows| && ExemptOk(rows)
    && (forall a :: |first| <= a < |rows| ==> rows[a].total.Any() && rows[a].point in visited)
    && (forall a, b :: |first| <= a < b < |rows| ==> rows[a].point != rows[b].point)
    && (forall p :: p in visited && iv.now.Of(p).Any() ==> Shows(rows, p, iv.now.Of(p)))
  }

  /** Baselines moved up for the points visited, and for no others. */
  ghost predicate MovedUp(base: map<nat, Counts>, was: map<nat, Counts>, visited: seq<nat>, now: Table) {
    forall q :: CountsOf(base, q) == if q in visited then now.Of(q) else CountsOf(was, q)
  }

  /** A point's counters as of the last flush, or zeroes. */
  function CountsOf(base: map<nat, Counts>, p: nat): Counts {
    if p in base then base[p] else ZERO
  }

  /** One point of the counter table: its delta goes on a row that will be written, if there is one to tell;
      and it has some row if it ever had an anomaly. */
  method TellPoint(rows: seq<Row>, refs: map<nat, RowRef>, base: map<nat, Counts>, p: nat, iv: Interval,
                   ghost first: seq<Row>, ghost visited: seq<nat>, ghost room: nat)
    returns (after: seq<Row>, newBase: map<nat, Counts>)
    requires iv.Grows() && p in iv.now.points && p !in visited
    requires Told(rows, first, visited, iv) && Lasting(rows, first, visited, iv) && RefsOk(refs, room, first)
    requires MovedUp(base, iv.before.points, visited, iv.now)
    ensures Told(after, first, visited + [p], iv) && Lasting(after, first, visited + [p], iv)
    ensures MovedUp(newBase, iv.before.points, visited + [p], iv.now)
  {
    after, newBase := rows, base;
    var an := iv.now.points[p];
    assert an == iv.now.Of(p) && an.AtLeast(iv.before.Of(p));
    assert CountsOf(base, p) == iv.before.Of(p);
    if !an.Any() {
      return;
    }
    var delta := an.Since(CountsOf(base, p));
    if delta.Any() {
      newBase := base[p := an];
    }
    after := TellOn(rows, refs, p, delta, iv, first, visited, room);
  }

  /** Where a point's counters are told: on a row added for them, on the one that stands for the point, or on
      rows that are there anyway. */
  method TellOn(rows: seq<Row>, refs: map<nat, RowRef>, p: nat, delta: Counts, iv: Interval,
                ghost first: seq<Row>, ghost visited: seq<nat>, ghost room: nat) returns (after: seq<Row>)
    requires iv.Grows() && p !in visited && delta == iv.Delta(p) && iv.now.Of(p).Any()
    requires Told(rows, first, visited, iv) && Lasting(rows, first, visited, iv) && RefsOk(refs, room, first)
    ensures Told(after, first, visited + [p], iv) && Lasting(after, first, visited + [p], iv)
  {
    if p !in refs {
      RowAdded(rows, first, visited, p, iv);
      AddedLasts(rows, first, visited, p, iv);
      return rows + [AnomalyRow(p, false, delta, iv.now.Of(p), iv)];
    }
    if !refs[p].hasSamples && delta.Any() {
      var c := refs[p].carrier;
      RowMarked(rows, first, visited, p, c, iv);
      MarkedLasts(rows, first, visited, p, c, iv);
      return rows[c := rows[c].(anomaliesOnly := true)];
    }
    if delta.Any() {
      ghost var a :| 0 <= a < |first| && first[a].point == p && first[a].count != 0;
      assert Selected(rows[a]);
    }
    ShownLasts(rows, rows, first, visited, p, refs[p].carrier, iv);
    return rows;
  }

  lemma AddedLasts(rows: seq<Row>, first: seq<Row>, visited: seq<nat>, p: nat, iv: Interval)
    requires iv.Grows() && p !in visited && Told(rows, first, visited, iv) && Lasting(rows, first, visited, iv)
    requires iv.now.Of(p).Any()
    ensures Lasting(rows + [AnomalyRow(p, false, iv.Delta(p), iv.now.Of(p), iv)], first, visited + [p], iv)
  {
    var r := AnomalyRow(p, false, iv.Delta(p), iv.now.Of(p), iv);
    var after := rows + [r];
    assert after[|rows|] == r;
    forall a | 0 <= a < |after| && after[a].anomaliesOnly
      ensures after[a].count == 0 && after[a].delta.Any() && StandsFor(after, after[a].point, a)
    {
      if a < |rows| {
        assert Bare(rows[a]);
        StillStands(rows, after, rows[a].point, a);
      }
    }
    forall q | q in visited + [p] && iv.now.Of(q).Any()
      ensures Shows(after, q, iv.now.Of(q))
    {
      if q in visited {
        StillShows(rows, after, q, iv.now.Of(q));
      }
    }
  }

  lemma MarkedLasts(rows: seq<Row>, first: seq<Row>, visited: seq<nat>, p: nat, c: nat, iv: Interval)
    requires iv.Grows() && p !in visited && Told(rows, first, visited, iv) && Lasting(rows, first, visited, iv)
    requires StandsFor(first, p, c) && !HasSamples(first, p) && iv.Delta(p).Any()
    ensures Lasting(rows[c := rows[c].(anomaliesOnly := true)], first, visited + [p], iv)
  {
    var after := rows[c := rows[c].(anomaliesOnly := true)];
    assert SameRows(rows, after) && SameRows(first, after);
    assert RowOk(rows[c], iv) && rows[c].count == first[c].count;
    forall a | |first| <= a < |after|
      ensures after[a].point != p && after[a] == rows[a]
    {
    }
    forall a | 0 <= a < |after| && after[a].anomaliesOnly
      ensures after[a].count == 0 && after[a].delta.Any() && StandsFor(after, after[a].point, a)
    {
      if a == c {
        StillStands(first, after, p, c);
      } else {
        StillStands(rows, after, rows[a].point, a);
      }
    }
    ShownLasts(rows, after, first, visited, p, c, iv);
  }

  /** What was shown still is, and so is a point that has a row. */
  lemma ShownLasts(rows: seq<Row>, after: seq<Row>, first: seq<Row>, visited: seq<nat>, p: nat, c: nat, iv: Interval)
    requires iv.Grows() && Told(rows, first, visited, iv) && Lasting(rows, first, visited, iv)
    requires SameRows(rows, after) && c < |first| && first[c].point == p
    ensures forall q :: q in visited + [p] && iv.now.Of(q).Any() ==> Shows(after, q, iv.now.Of(q))
  {
    assert RowOk(rows[c], iv) && rows[c].point == p;
    assert Shows(rows, p, iv.now.Of(p));
    forall q | q in visited + [p] && iv.now.Of(q).Any()
      ensures Shows(after, q, iv.now.Of(q))
    {
      StillShows(rows, after, q, iv.now.Of(q));
    }
  }

  lemma RowAdded(rows: seq<Row>, first: seq<Row>, visited: seq<nat>, p: nat, iv: Interval)
    requires iv.Grows() && p !in visited && Told(rows, first, visited, iv)
    ensures Told(rows + [AnomalyRow(p, false, iv.Delta(p), iv.now.Of(p), iv)], first, visited + [p], iv)
  {
    var r := AnomalyRow(p, false, iv.Delta(p), iv.now.Of(p), iv);
    var after := rows + [r];
    assert after[|rows|] == r;
    forall q | q in visited + [p] && iv.Delta(q).Any()
      ensures Carried(after, q)
    {
      if q in visited {
        var a :| 0 <= a < |rows| && rows[a].point == q && !rows[a].overflow && Selected(rows[a]);
        assert after[a] == rows[a];
      }
    }
  }

  lemma RowMarked(rows: seq<Row>, first: seq<Row>, visited: seq<nat>, p: nat, c: nat, iv: Interval)
    requires iv.Grows() && p !in visited && Told(rows, first, visited, iv)
    requires c < |first| && first[c].point == p
    ensures Told(rows[c := rows[c].(anomaliesOnly := true)], first, visited + [p], iv)
  {
    var after := rows[c := rows[c].(anomaliesOnly := true)];
    assert RowOk(rows[c], iv);
    forall a | 0 <= a < |after|
      ensures RowOk(after[a], iv)
    {
      assert RowOk(rows[a], iv);
    }
    forall q | q in visited + [p] && iv.Delta(q).Any()
      ensures Carried(after, q)
    {
      if q in visited {
        var a :| 0 <= a < |rows| && rows[a].point == q && !rows[a].overflow && Selected(rows[a]);
        assert after[a].point == q && Selected(after[a]);
      } else {
        assert Selected(after[c]);
      }
    }
  }

  /** The rows, and the shared bucket's if there is anything in it. */
  function WithShared(rows: seq<Row>, iv: Interval): seq<Row>
    requires iv.now.overflow.AtLeast(iv.before.overflow)
  {
    var shared := iv.now.overflow;
    if shared.Any() then rows + [AnomalyRow(0, true, shared.Since(iv.before.overflow), shared, iv)] else rows
  }

  /** With every point told, and the shared bucket if there is anything in it, the report is complete. */
  lemma ReportDone(rows: seq<Row>, first: seq<Row>, staged: seq<nat>, order: seq<nat>, stages: map<nat, Stage>,
                   iv: Interval)
    requires iv.Grows() && Told(rows, first, order, iv) && Lasting(rows, first, order, iv)
    requires Enumerates(order, iv.now.points.Keys)
    requires Enumerates(staged, stages.Keys) && RowsFollow(first, stages, staged) && |staged| == |first|
    ensures ReportOk(WithShared(rows, iv), stages, iv)
  {
    SharedLast(rows, iv);
    StagesStay(rows, first, staged, order, stages, iv);
    ExemptStay(rows, iv);
    forall p: nat | iv.Delta(p).Any()
      ensures Carried(WithShared(rows, iv), p)
    {
      TellsPoint(rows, first, order, iv, p);
    }
    forall p: nat | iv.now.Of(p).Any()
      ensures Shows(WithShared(rows, iv), p, iv.now.Of(p))
    {
      assert p in iv.now.points && p in order;
      StillShows(rows, WithShared(rows, iv), p, iv.now.Of(p));
    }
  }

  lemma ExemptStay(rows: seq<Row>, iv: Interval)
    requires iv.Grows() && ExemptOk(rows) && forall a :: 0 <= a < |rows| ==> !rows[a].overflow
    ensures ExemptOk(WithShared(rows, iv)) && SameRows(rows, WithShared(rows, iv))
  {
    var all := WithShared(rows, iv);
    forall a | 0 <= a < |all| && all[a].anomaliesOnly && !all[a].overflow
      ensures StandsFor(all, all[a].point, a)
    {
      StillStands(rows, all, rows[a].point, a);
    }
  }

  /** The shared bucket's row comes after all others, and there is one if it has anything to tell. */
  lemma SharedLast(rows: seq<Row>, iv: Interval)
    requires iv.Grows() && RowsOk(rows, iv) && OneCarrier(rows)
    requires forall a :: 0 <= a < |rows| ==> !rows[a].overflow
    ensures var all := WithShared(rows, iv);
      && RowsOk(all, iv) && OneCarrier(all) && |rows| <= |all| <= |rows| + 1 && all[..|rows|] == rows
      && (iv.now.overflow.Since(iv.before.overflow).Any() ==> |all| == |rows| + 1 && Selected(all[|rows|]))
      && (|all| == |rows| + 1 ==>
            all[|rows|].overflow && all[|rows|].count == 0 && all[|rows|].total.Any())
      && (iv.now.overflow.Any() ==> |all| == |rows| + 1 && all[|rows|].total == iv.now.overflow)
  {
    var all := WithShared(rows, iv);
    forall a | 0 <= a < |all|
      ensures RowOk(all[a], iv)
    {
      assert a < |rows| ==> all[a] == rows[a] && RowOk(rows[a], iv);
    }
  }

  /** The stages' rows are where they were. */
  lemma StagesStay(rows: seq<Row>, first: seq<Row>, staged: seq<nat>, order: seq<nat>, stages: map<nat, Stage>,
                   iv: Interval)
    requires iv.Grows() && Told(rows, first, order, iv) && Lasting(rows, first, order, iv)
    requires Enumerates(staged, stages.Keys) && RowsFollow(first, stages, staged) && |staged| == |first|
    ensures StagesOnce(WithShared(rows, iv), stages)
  {
    SharedLast(rows, iv);
    var all := WithShared(rows, iv);
    forall a | 0 <= a < |rows|
      ensures all[a] == rows[a]
    {
      assert all[a] == all[..|rows|][a];
    }
    forall j | 0 <= j < |staged|
      ensures staged[j] in stages && IsRowOf(all[j], stages[staged[j]])
    {
      assert IsRowOf(first[j], stages[staged[j]]);
    }
    assert RowsFollow(all, stages, staged);
  }

  /** A point with something new has a row that is written. */
  lemma TellsPoint(rows: seq<Row>, first: seq<Row>, order: seq<nat>, iv: Interval, p: nat)
    requires iv.Grows() && Told(rows, first, order, iv) && Enumerates(order, iv.now.points.Keys)
    requires iv.Delta(p).Any()
    ensures Carried(WithShared(rows, iv), p)
  {
    assert iv.now.Of(p).AtLeast(iv.before.Of(p)) && p in iv.now.points;
    var a :| 0 <= a < |rows| && rows[a].point == p && !rows[a].overflow && Selected(rows[a]);
    assert WithShared(rows, iv)[a] == rows[a];
  }

  lemma AllMovedUp(base: map<nat, Counts>, order: seq<nat>, iv: Interval)
    requires iv.Grows() && MovedUp(base, iv.before.points, order, iv.now) && Enumerates(order, iv.now.points.Keys)
    ensures forall p :: CountsOf(base, p) == iv.now.Of(p)
  {
    forall p: nat
      ensures CountsOf(base, p) == iv.now.Of(p)
    {
      assert iv.now.Of(p).AtLeast(iv.before.Of(p)) && iv.before.Of(p) == CountsOf(iv.before.points, p);
      assert p in order <==> p in iv.now.points.Keys;
    }
  }

  /** All rows of a flush: the stages', those of points that have anomalies and no stage, and the shared
      bucket's if there is anything in it. */
  method AllRows(stages: map<nat, Stage>, iv: Interval, room: nat) returns (rows: seq<Row>, base: map<nat, Counts>)
    requires iv.Grows()
    ensures ReportOk(rows, stages, iv) && forall p :: CountsOf(base, p) == iv.now.Of(p)
  {
    var first, refs, staged := StageRows(stages, iv, room);
    rows, base := first, iv.before.points;
    var order := Pairing.Walk(iv.now.points);
    for i := 0 to |order|
      invariant Told(rows, first, order[..i], iv) && Lasting(rows, first, order[..i], iv)
      invariant MovedUp(base, iv.before.points, order[..i], iv.now)
    {
      assert order[..i + 1] == order[..i] + [order[i]];
      assert order[i] !in order[..i];
      rows, base := TellPoint(rows, refs, base, order[i], iv, first, order[..i], room);
    }
    assert order[..|order|] == order;
    AllMovedUp(base, order, iv);
    ReportDone(rows, first, staged, order, stages, iv);
    var shared := iv.now.overflow;
    if shared.Any() {
      rows := rows + [AnomalyRow(0, true, shared.Since(iv.before.overflow), shared, iv)];
    }
  }

  /** The spans left, and what happened, once the expired spans of `st` are each counted as abandoned once. */
  ghost predicate Aged(st: State, spans: map<nat, OpenSpan>, log: Log, aged: bool, now: nat, age: nat) {
    if !aged then spans == st.spans && log == st.log
    else
      && spans == st.spans - ExpiredKeys(st.spans, now, age)
      && exists order :: Enumerates(order, ExpiredKeys(st.spans, now, age)) && log == st.log + AbandonEach(order)
  }

  class Reporter {
    const room: nat
    var baselines: map<nat, Counts>
    var overflowBaseline: Counts
    var lastLoss: nat
    var reportedStalled: nat

    /** The anomalies already told. */
    ghost var seen: Log

    ghost predicate Valid()
      reads this
    {
      && overflowBaseline == After(room, seen).overflow
      && forall p :: CountsOf(baselines, p) == After(room, seen).Of(p)
    }

    constructor (maxStages: nat)
      ensures Valid() && room == maxStages && seen == []
      ensures lastLoss == 0 && reportedStalled == 0
    {
      room, baselines, overflowBaseline, lastLoss, reportedStalled := maxStages, map[], ZERO, 0, 0;
      seen := [];
    }

    /** Build the rows of a flush, and move the baselines up to what they told. */
    method BuildReports(stages: map<nat, Stage>, points: map<nat, Counts>, overflow: Counts, newLosses: nat,
                        newStalled: nat, ghost log: Log) returns (rows: seq<Row>, ghost iv: Interval)
      requires Valid() && seen <= log && Table(points, room, overflow) == After(room, log)
      modifies this`baselines, this`overflowBaseline, this`seen
      ensures Valid() && seen == log
      ensures iv.before.overflow == After(room, old(seen)).overflow && iv.now == After(room, log)
      ensures forall p :: iv.before.Of(p) == After(room, old(seen)).Of(p)
      ensures iv.dropped == newLosses && iv.stalled == newStalled
      ensures iv.Grows() && ReportOk(rows, stages, iv)
    {
      var v := Interval(Table(baselines, room, overflowBaseline), Table(points, room, overflow), newLosses, newStalled);
      iv := v;
      forall p: nat ensures iv.now.Of(p).AtLeast(iv.before.Of(p)) && iv.before.Of(p) == After(room, seen).Of(p) {
        CountersGrow(room, seen, log, p);
        assert CountsOf(baselines, p) == After(room, seen).Of(p);
      }
      CountersGrow(room, seen, log, 0);
      rows, baselines := AllRows(stages, v, room);
      overflowBaseline := overflow;
      seen := log;
    }

    /** A flush: age spans out, build the rows, write what the time series gets, and start a new interval. */
    method Flush(pairer: Pairing.Pairer, aged: bool, now: nat, age: nat, loss: nat, stalledSlots: nat)
      returns (rows: seq<Row>, lines: seq<Line>, ghost iv: Interval)
      requires Valid() && pairer.Valid() && pairer.maxStages == room && seen <= pairer.log
      requires reportedStalled <= stalledSlots
      modifies this, pairer
      ensures Valid() && pairer.Valid() && pairer.maxStages == room && seen == pairer.log
      ensures Aged(old(pairer.View()), pairer.spans, pairer.log, aged, now, age)
      ensures aged ==> SweptOut(old(pairer.View()), pairer.View().(stages := old(pairer.stages)), now, age)
      ensures Rolled(old(pairer.stages), pairer.stages)
      ensures lastLoss == loss && reportedStalled == stalledSlots
      ensures iv.before.overflow == After(room, old(seen)).overflow && iv.now == After(room, seen)
      ensures forall p :: iv.before.Of(p) == After(room, old(seen)).Of(p)
      ensures iv.dropped == (if loss > old(lastLoss) then loss - old(lastLoss) else 0)
      ensures iv.stalled == stalledSlots - old(reportedStalled)
      ensures iv.Grows() && ReportOk(rows, old(pairer.stages), iv) && LinesOk(lines, rows, iv)
      ensures pairer.stages == AllClosed(old(pairer.stages))
    {
      AgeSpans(pairer, aged, now, age);
      var newLosses, newStalled := CollectorDeltas(loss, stalledSlots);
      rows, lines, iv := Report(pairer, newLosses, newStalled);
    }

    /** Build the rows, write what the time series gets of them, and start a new interval. */
    method Report(pairer: Pairing.Pairer, newLosses: nat, newStalled: nat)
      returns (rows: seq<Row>, lines: seq<Line>, ghost iv: Interval)
      requires Valid() && pairer.Valid() && pairer.maxStages == room && seen <= pairer.log
      modifies this`baselines, this`overflowBaseline, this`seen, pairer`stages
      ensures Valid() && pairer.Valid() && seen == pairer.log
      ensures iv.before.overflow == After(room, old(seen)).overflow && iv.now == After(room, seen)
      ensures forall p :: iv.before.Of(p) == After(room, old(seen)).Of(p)
      ensures iv.dropped == newLosses && iv.stalled == newStalled
      ensures iv.Grows() && ReportOk(rows, old(pairer.stages), iv) && LinesOk(lines, rows, iv)
      ensures pairer.stages == AllClosed(old(pairer.stages))
      ensures Rolled(old(pairer.stages), pairer.stages)
    {
      rows, iv := BuildReports(pairer.stages, pairer.points, pairer.overflow, newLosses, newStalled, pairer.log);
      lines := WriteLines(rows, iv, newLosses, newStalled);
      NextInterval(pairer);
    }

    method AgeSpans(pairer: Pairing.Pairer, aged: bool, now: nat, age: nat)
      requires pairer.Valid()
      modifies pairer
      ensures pairer.Valid() && pairer.maxStages == old(pairer.maxStages) && pairer.stages == old(pairer.stages)
      ensures Aged(old(pairer.View()), pairer.spans, pairer.log, aged, now, age) && old(pairer.log) <= pairer.log
      ensures if aged then SweptOut(old(pairer.View()), pairer.View(), now, age)
              else pairer.View() == old(pairer.View())
    {
      if aged {
        var n, order := pairer.AgeOut(now, age);
        assert pairer.log == old(pairer.log) + AbandonEach(order);
      }
    }

    /** What is new of the collector's own counts since the last flush. */
    method CollectorDeltas(loss: nat, stalledSlots: nat) returns (newLosses: nat, newStalled: nat)
      requires reportedStalled <= stalledSlots
      modifies this`lastLoss, this`reportedStalled
      ensures newLosses == (if loss > old(lastLoss) then loss - old(lastLoss) else 0) && lastLoss == loss
      ensures newStalled == stalledSlots - old(reportedStalled) && reportedStalled == stalledSlots
    {
      newLosses := if loss > lastLoss then loss - lastLoss else 0;
      lastLoss := loss;
      newStalled := stalledSlots - reportedStalled;
      reportedStalled := stalledSlots;
    }

    /** Fold what was reported into the lifetime record, and start over. */
    method NextInterval(pairer: Pairing.Pairer)
      requires pairer.Valid()
      modifies pairer`stages
      ensures pairer.Valid()
      ensures pairer.stages == AllClosed(old(pairer.stages))
      ensures Rolled(old(pairer.stages), pairer.stages)
    {
      pairer.FoldIntervals();
      pairer.ClearIntervals();
    }
  }

  /** Every stage starts a new interval, with all its samples on record. */
  ghost predicate Rolled(was: map<nat, Stage>, now: map<nat, Stage>) {
    && now.Keys == was.Keys
    && forall k :: k in now ==>
         now[k] == Stage(was[k].point, was[k].from, was[k].to, [], was[k].cumulative + was[k].interval)
  }

  /** A stage with its interval folded into its lifetime record. */
  function Closed(g: Stage): Stage {
    g.(interval := [], cumulative := g.cumulative + g.interval)
  }

  /** A line of the time series: a row, or one for the process alone. */
  datatype Line = OfRow(r: Row) | OfCollector(dropped: nat, stalled: nat)

  function LinesOf(rows: seq<Row>): seq<Line> {
    if rows == [] then []
    else LinesOf(rows[..|rows| - 1]) + if Selected(rows[|rows| - 1]) then [OfRow(rows[|rows| - 1])] else []
  }

  lemma {:induction false} SelectedIsWritten(rows: seq<Row>, a: nat)
    requires a < |rows| && Selected(rows[a])
    ensures OfRow(rows[a]) in LinesOf(rows)
  {
    if a < |rows| - 1 {
      SelectedIsWritten(rows[..|rows| - 1], a);
    }
  }

  lemma {:induction false} WrittenIsSelected(rows: seq<Row>, line: Line)
    requires line in LinesOf(rows)
    ensures line.OfRow? && line.r in rows && Selected(line.r)
  {
    var n := |rows| - 1;
    if line in LinesOf(rows[..n]) {
      WrittenIsSelected(rows[..n], line);
    }
  }

  /** Everything an interval brought is in its lines: each point's anomalies, the shared bucket's, and the
      losses and stalls; and every line is a selected row or, failing any, the collector's. */
  ghost predicate LinesOk(lines: seq<Line>, rows: seq<Row>, iv: Interval)
    requires iv.Grows()
  {
    && (forall p: nat :: iv.Delta(p).Any() ==>
          exists r :: OfRow(r) in lines && r.point == p && !r.overflow && r.delta == iv.Delta(p))
    && (var d := iv.now.overflow.Since(iv.before.overflow);
        d.Any() ==> exists r :: OfRow(r) in lines && r.overflow && r.delta == d)
    && (iv.dropped != 0 || iv.stalled != 0 ==> lines != [])
    && (forall l :: l in lines ==> Carries(l, iv))
    && (forall a :: 0 <= a < |rows| && (rows[a].count != 0 || rows[a].anomaliesOnly) ==> OfRow(rows[a]) in lines)
    && (lines == [OfCollector(iv.dropped, iv.stalled)]
        || forall l :: l in lines ==> l.OfRow? && l.r in rows && (l.r.count != 0 || l.r.anomaliesOnly))
  }

  predicate Carries(l: Line, iv: Interval) {
    match l
    case OfRow(r) => r.dropped == iv.dropped && r.stalled == iv.stalled
    case OfCollector(dropped, stalled) => dropped == iv.dropped && stalled == iv.stalled
  }

  /** Write the selected rows; with none, losses and stalls still get a line. */
  method WriteLines(rows: seq<Row>, ghost iv: Interval, newLosses: nat, newStalled: nat) returns (lines: seq<Line>)
    requires iv.Grows() && iv.dropped == newLosses && iv.stalled == newStalled && TellsAll(rows, iv)
    ensures LinesOk(lines, rows, iv)
    ensures lines == if LinesOf(rows) == [] && (newLosses != 0 || newStalled != 0)
                     then [OfCollector(newLosses, newStalled)] else LinesOf(rows)
  {
    lines := [];
    for i := 0 to |rows|
      invariant lines == LinesOf(rows[..i])
    {
      assert rows[..i + 1][..i] == rows[..i];
      if rows[i].count == 0 && !rows[i].anomaliesOnly {
        continue;
      }
      lines := lines + [OfRow(rows[i])];
    }
    assert rows[..|rows|] == rows;
    LinesSay(rows, iv);
    if lines == [] && (newLosses != 0 || newStalled != 0) {
      lines := [OfCollector(newLosses, newStalled)];
    }
  }

  lemma LinesSay(rows: seq<Row>, iv: Interval)
    requires iv.Grows() && TellsAll(rows, iv)
    ensures var lines := LinesOf(rows);
      var alone := lines == [] && (iv.dropped != 0 || iv.stalled != 0);
      LinesOk(if alone then [OfCollector(iv.dropped, iv.stalled)] else lines, rows, iv)
  {
    var lines := LinesOf(rows);
    forall a | 0 <= a < |rows| && Selected(rows[a])
      ensures OfRow(rows[a]) in lines
    {
      SelectedIsWritten(rows, a);
    }
    forall l | l in lines
      ensures l.OfRow? && l.r in rows && Selected(l.r) && Carries(l, iv)
    {
      WrittenIsSelected(rows, l);
      var a :| 0 <= a < |rows| && rows[a] == l.r;
      assert RowOk(rows[a], iv);
    }
    forall p: nat | iv.Delta(p).Any()
      ensures exists r :: OfRow(r) in lines && r.point == p && !r.overflow && r.delta == iv.Delta(p)
    {
      assert Carried(rows, p);
      var a :| 0 <= a < |rows| && rows[a].point == p && !rows[a].overflow && Selected(rows[a]);
      assert RowOk(rows[a], iv) && OfRow(rows[a]) in lines;
    }
    if iv.now.overflow.Since(iv.before.overflow).Any() {
      var a :| 0 <= a < |rows| && rows[a].overflow && Selected(rows[a]);
      assert RowOk(rows[a], iv) && OfRow(rows[a]) in lines;
    }
  }

  function AllClosed(stages: map<nat, Stage>): map<nat, Stage> {
    map k | k in stages :: Closed(stages[k])
  }
}
