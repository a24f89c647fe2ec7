/** Per-point anomaly counters in a table of limited size, with one shared bucket for the surplus. */
module Anomalies {
  import opened OpenMaps

  datatype Kind = Invalid | Abandoned | Orphan | OutOfRange

  datatype Counts = Counts(invalid: nat, abandoned: nat, orphan: nat, outOfRange: nat)
  {
    function Of(k: Kind): nat {
      match k
      case Invalid => invalid
      case Abandoned => abandoned
      case Orphan => orphan
      case OutOfRange => outOfRange
    }

    function Inc(k: Kind): Counts {
      match k
      case Invalid => this.(invalid := invalid + 1)
      case Abandoned => this.(abandoned := abandoned + 1)
      case Orphan => this.(orphan := orphan + 1)
      case OutOfRange => this.(outOfRange := outOfRange + 1)
    }

    /** Whether there is anything to report. */
    predicate Any() {
      invalid != 0 || abandoned != 0 || orphan != 0 || outOfRange != 0
    }

    predicate AtLeast(b: Counts) {
      invalid >= b.invalid && abandoned >= b.abandoned && orphan >= b.orphan && outOfRange >= b.outOfRange
    }

    /** What has been counted since b. */
    function Since(b: Counts): Counts
      requires AtLeast(b)
    {
      Counts(invalid - b.invalid, abandoned - b.abandoned, orphan - b.orphan, outOfRange - b.outOfRange)
    }
  }

  const ZERO := Counts(0, 0, 0, 0)

  datatype Table = Table(points: map<nat, Counts>, room: nat, overflow: Counts)
  {
    /** The counters of a point, or all zeroes when it has no entry. */
    function Of(p: nat): Counts {
      if p in points then points[p] else ZERO
    }
  }

  /** Count one anomaly: in the point's own entry, made if there is room, or in the shared bucket. */
  function Bump(t: Table, p: nat, k: Kind): Table {
    var points := Inserted(t.points, t.room, p, ZERO);
    if p in points then t.(points := points[p := points[p].Inc(k)])
    else t.(overflow := t.overflow.Inc(k))
  }

  type Log = seq<(nat, Kind)>

  /** The table after a history of anomalies, from empty. */
  function After(room: nat, log: Log): Table {
    if log == [] then Table(map[], room, ZERO)
    else Bump(After(room, log[..|log| - 1]), log[|log| - 1].0, log[|log| - 1].1)
  }

  lemma AfterOneMore(room: nat, log: Log, p: nat, k: Kind)
    ensures After(room, log + [(p, k)]) == Bump(After(room, log), p, k)
  {
    assert (log + [(p, k)])[..|log|] == log;
  }

  /** How many anomalies of a kind happened at one point. */
  function Tally(log: Log, p: nat, k: Kind): nat {
    if log == [] then 0
    else Tally(log[..|log| - 1], p, k) + if log[|log| - 1] == (p, k) then 1 else 0
  }

  /** How many anomalies of a kind happened anywhere. */
  function TallyAll(log: Log, k: Kind): nat {
    if log == [] then 0
    else TallyAll(log[..|log| - 1], k) + if log[|log| - 1].1 == k then 1 else 0
  }

  ghost function TableTotal(points: map<nat, Counts>, k: Kind): nat
    decreases |points|
  {
    if points == map[] then 0
    else
      var p :| p in points;
      assert |points - {p}| < |points| by { DropOne(points, p); }
      points[p].Of(k) + TableTotal(points - {p}, k)
  }

  lemma DropOne(points: map<nat, Counts>, p: nat)
    requires p in points
    ensures |points - {p}| == |points| - 1
  {
    assert (points - {p}).Keys == points.Keys - {p};
    assert |points.Keys| == |points|;
  }

  lemma {:induction false} TotalWithout(points: map<nat, Counts>, k: Kind, p: nat)
    requires p in points
    ensures TableTotal(points, k) == points[p].Of(k) + TableTotal(points - {p}, k)
    decreases |points|
  {
    var q :| q in points && TableTotal(points, k) == points[q].Of(k) + TableTotal(points - {q}, k);
    if q != p {
      DropOne(points, p);
      DropOne(points, q);
      TotalWithout(points - {q}, k, p);
      TotalWithout(points - {p}, k, q);
      assert points - {q} - {p} == points - {p} - {q};
    }
  }

  lemma TotalUpdate(points: map<nat, Counts>, k: Kind, p: nat, c: Counts)
    ensures TableTotal(points[p := c], k) ==
            TableTotal(points, k) + c.Of(k) - if p in points then points[p].Of(k) else 0
  {
    TotalWithout(points[p := c], k, p);
    assert points[p := c] - {p} == points - {p};
    if p in points {
      TotalWithout(points, k, p);
    } else {
      assert points - {p} == points;
    }
  }

  /** Every anomaly is counted exactly once: the tabled counters and the shared bucket together hold
      the history's totals. */
  lemma {:induction false} NothingLost(room: nat, log: Log, k: Kind)
    ensures var t := After(room, log); TableTotal(t.points, k) + t.overflow.Of(k) == TallyAll(log, k)
  {
    if log == [] {
    } else {
      var (p, kind) := log[|log| - 1];
      var t := After(room, log[..|log| - 1]);
      NothingLost(room, log[..|log| - 1], k);
      var points := Inserted(t.points, room, p, ZERO);
      AfterRoom(room, log[..|log| - 1]);
      TotalUpdate(t.points, k, p, ZERO);
      if p in points {
        TotalUpdate(points, k, p, points[p].Inc(kind));
      }
    }
  }

  lemma {:induction false} AfterRoom(room: nat, log: Log)
    ensures After(room, log).room == room && |After(room, log).points| <= room
  {
    if log == [] {
    } else {
      AfterRoom(room, log[..|log| - 1]);
    }
  }

  /** A point's anomalies are wholly in its own entry, or wholly in the shared bucket; the bucket is
      used only once the table is full, and stays full. */
  lemma {:induction false} WhollyInOnePlace(room: nat, log: Log, p: nat, k: Kind)
    ensures var t := After(room, log);
      && (p in t.points ==> t.points[p].Of(k) == Tally(log, p, k))
      && (p !in t.points && Tally(log, p, k) > 0 ==> |t.points| == room)
  {
    if log == [] {
    } else {
      var before := log[..|log| - 1];
      var (q, j) := log[|log| - 1];
      WhollyInOnePlace(room, before, p, k);
      AfterRoom(room, before);
      CountedWhole(After(room, before), q, j, p, k, Tally(before, p, k));
    }
  }

  lemma CountedWhole(t: Table, q: nat, j: Kind, p: nat, k: Kind, n: nat)
    requires |t.points| <= t.room && (p in t.points ==> t.points[p].Of(k) == n)
    requires p !in t.points && n > 0 ==> |t.points| == t.room
    ensures var t' := Bump(t, q, j);
      var n' := if (q, j) == (p, k) then n + 1 else n;
      && (p in t'.points ==> t'.points[p].Of(k) == n')
      && (p !in t'.points && n' > 0 ==> |t'.points| == t'.room)
  {
  }

  /** Counters only ever grow. */
  lemma {:induction false} CountersGrow(room: nat, log: Log, more: Log, p: nat)
    requires log <= more
    ensures After(room, more).Of(p).AtLeast(After(room, log).Of(p))
    ensures After(room, more).overflow.AtLeast(After(room, log).overflow)
    decreases |more|
  {
    if |more| == |log| {
      assert more == log;
    } else {
      assert log <= more[..|more| - 1];
      CountersGrow(room, log, more[..|more| - 1], p);
    }
  }

  lemma {:induction false} EntriesStay(room: nat, log: Log, more: Log)
    requires log <= more
    ensures After(room, log).points.Keys <= After(room, more).points.Keys
    decreases |more|
  {
    if |more| == |log| {
      assert more == log;
    } else {
      EntriesStay(room, log, more[..|more| - 1]);
    }
  }

  /** A point with an entry has there, of whatever happened since, exactly what happened at it. */
  lemma OwnCounter(room: nat, log: Log, more: Log, p: nat, k: Kind)
    requires log <= more && p in After(room, more).points
    ensures After(room, more).Of(p).Of(k) - After(room, log).Of(p).Of(k) == Tally(more, p, k) - Tally(log, p, k)
  {
    WhollyInOnePlace(room, log, p, k);
    WhollyInOnePlace(room, more, p, k);
    EntriesStay(room, log, more);
    AfterRoom(room, more);
    var was, now := After(room, log).points.Keys, After(room, more).points.Keys;
    if p !in was {
      AllOfIt(was, now);
    }
  }

  lemma AllOfIt<T>(part: set<T>, all: set<T>)
    requires part <= all
    ensures |part| <= |all| && (part != all ==> |part| < |all|)
  {
    var rest := all - part;
    assert all == part + rest;
    assert part != all ==> rest != {};
  }
}
