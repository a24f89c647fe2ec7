/** Merging the per-thread rings and the staged shared-ring stamps by timestamp. */
module MergeSpec {
  import opened Options
  import opened RingReads
  import opened Stamps
  import opened StageOrder

  /** A sample handed to the pairer: from which source, at which index there. */
  datatype Fed = Fed(source: nat, index: nat, s: Sample)

  /** One input to the merge: the chunk being consumed, from where, and how far this pass reads. */
  datatype Source = Source(data: seq<Sample>, pos: nat, base: nat, stop: Option<nat>, id: nat)
  {
    function At(): nat {
      base + pos
    }

    function Head(): Sample
      requires pos < |data|
    {
      data[pos]
    }

    /** How much is left to read of it in this pass. */
    function Reach(): nat {
      if stop == None then 0 else Left(stop.value, base + |data|)
    }

    /** How many more samples it can yield in this pass. */
    function Ahead(): nat {
      Reach() + if pos < |data| then |data| - pos else 0
    }

    /** Once it has a stop, `next` keeps it and can yield no more than this. */
    predicate BoundsOf(next: Source) {
      stop.Some? ==> next.stop == stop && next.Ahead() <= Ahead()
    }
  }

  lemma FartherOn(src: Source, next: Source)
    requires next == src.(pos := next.pos) && src.pos <= next.pos
    ensures src.BoundsOf(next) && next.Reach() == src.Reach()
  {
  }

  lemma BoundsThrough(a: Source, b: Source, c: Source)
    requires a.BoundsOf(b) && b.BoundsOf(c)
    ensures a.BoundsOf(c)
  {
  }

  /** The indices one source has been consumed at, in order. */
  function Of(fed: seq<Fed>, id: nat): seq<nat> {
    if fed == [] then []
    else
      var last := fed[|fed| - 1];
      Of(fed[..|fed| - 1], id) + if last.source == id then [last.index] else []
  }

  lemma OfOneMore(fed: seq<Fed>, f: Fed, id: nat)
    ensures Of(fed + [f], id) == Of(fed, id) + if f.source == id then [f.index] else []
  {
    assert (fed + [f])[..|fed|] == fed;
  }

  /** Each index once, in order, all in [from, to). */
  ghost predicate Rising(at: seq<nat>, from: nat, to: nat) {
    && (forall i :: 0 <= i < |at| ==> from <= at[i] < to)
    && (forall i, j :: 0 <= i < j < |at| ==> at[i] < at[j])
  }

  lemma RisingStep(at: seq<nat>, from: nat, k: nat)
    requires Rising(at, from, k) && from <= k
    ensures Rising(at + [k], from, k + 1)
  {
  }

  /** Rising indices that fill their range miss nothing in it. */
  lemma {:induction false} RisingFull(at: seq<nat>, from: nat, to: nat, k: nat)
    requires Rising(at, from, to) && |at| == to - from && from <= k < to
    ensures k in at
  {
    RisingAt(at, from, to, k - from);
    assert at[k - from] == k;
  }

  lemma {:induction false} RisingAt(at: seq<nat>, from: nat, to: nat, i: nat)
    requires Rising(at, from, to) && |at| == to - from && i < |at|
    ensures at[i] == from + i
  {
    RisingLow(at, from, to, i);
    RisingHigh(at, from, to, i);
  }

  lemma {:induction false} RisingLow(at: seq<nat>, from: nat, to: nat, i: nat)
    requires Rising(at, from, to) && i < |at|
    ensures from + i <= at[i]
  {
    if i == 0 {
    } else {
      RisingLow(at, from, to, i - 1);
    }
  }

  lemma {:induction false} RisingHigh(at: seq<nat>, from: nat, to: nat, i: nat)
    requires Rising(at, from, to) && i < |at|
    ensures at[i] + (|at| - i) <= to
    decreases |at| - i
  {
    if i == |at| - 1 {
    } else {
      RisingHigh(at, from, to, i + 1);
    }
  }

  /** What was fed as sample k of a ring is what was published there. */
  ghost predicate FedTrue(fed: seq<Fed>, published: seq<seq<Sample>>) {
    forall i :: 0 <= i < |fed| ==> TrueSample(fed[i], published)
  }

  ghost predicate TrueSample(f: Fed, published: seq<seq<Sample>>) {
    && (f.source > |published| > 0 ==> IsValue(f.s))
    && (f.source < |published| ==> f.index < |published[f.source]| && f.s == published[f.source][f.index])
  }

  lemma FedTrueStep(fed: seq<Fed>, published: seq<seq<Sample>>, f: Fed)
    requires FedTrue(fed, published) && TrueSample(f, published)
    ensures FedTrue(fed + [f], published)
  {
  }

  /** A thread's stamps carry non-decreasing timestamps; its values carry none. */
  ghost predicate InTimeOrder(samples: seq<Sample>) {
    forall i, j :: 0 <= i < j < |samples| && !IsValue(samples[i]) && !IsValue(samples[j])
      ==> samples[i].timestamp <= samples[j].timestamp
  }

  /** The stamps fed so far, in the order they were fed, never go back in time. */
  ghost predicate StampsAscend(fed: seq<Fed>) {
    forall i, j :: 0 <= i < j < |fed| && !IsValue(fed[i].s) && !IsValue(fed[j].s)
      ==> fed[i].s.timestamp <= fed[j].s.timestamp
  }

  ghost predicate StampsUpTo(fed: seq<Fed>, t: nat) {
    forall i :: 0 <= i < |fed| && !IsValue(fed[i].s) ==> fed[i].s.timestamp <= t
  }

  ghost predicate StampsBelow(fed: seq<Fed>, w: nat) {
    forall i :: 0 <= i < |fed| && !IsValue(fed[i].s) ==> fed[i].s.timestamp < w
  }

  /** What a pass adds to `fed` besides stamps: values of one source. */
  ghost predicate OnlyValuesAdded(before: seq<Fed>, after: seq<Fed>, id: nat) {
    && |before| <= |after| && after[..|before|] == before
    && forall i :: |before| <= i < |after| ==> IsValue(after[i].s) && after[i].source == id
  }

  lemma ValuesKeepOrder(before: seq<Fed>, after: seq<Fed>, id: nat, t: nat, w: nat)
    requires OnlyValuesAdded(before, after, id)
    ensures StampsAscend(before) ==> StampsAscend(after)
    ensures StampsUpTo(before, t) ==> StampsUpTo(after, t)
    ensures StampsBelow(before, w) ==> StampsBelow(after, w)
  {
    assert forall i :: 0 <= i < |before| ==> after[i] == before[i];
  }

  lemma {:induction false} OthersUntouched(before: seq<Fed>, after: seq<Fed>, id: nat, q: nat)
    requires OnlyValuesAdded(before, after, id) && q != id
    ensures Of(after, q) == Of(before, q)
    decreases |after|
  {
    if |after| == |before| {
      assert after == before;
    } else {
      assert after[..|after| - 1][..|before|] == before;
      OthersUntouched(before, after[..|after| - 1], id, q);
    }
  }

  // ---- One pass -----------------------------------------------------------

  /** The same but at position r. */
  ghost predicate SameBut(r: nat, a: seq<nat>, b: seq<nat>) {
    |a| == |b| && forall q :: 0 <= q < |a| && q != r ==> a[q] == b[q]
  }

  /** How much of an allowance is left at a position. */
  function Left(stop: nat, at: nat): nat {
    if stop > at then stop - at else 0
  }

  function Sum(xs: seq<nat>): nat {
    if xs == [] then 0 else Sum(xs[..|xs| - 1]) + xs[|xs| - 1]
  }

  lemma {:induction false} SumUpdate(xs: seq<nat>, i: nat, v: nat)
    requires i < |xs|
    ensures Sum(xs[i := v]) + xs[i] == Sum(xs) + v
  {
    var n := |xs| - 1;
    if i == n {
      assert xs[i := v][..n] == xs[..n];
    } else {
      assert xs[i := v][..n] == xs[..n][i := v];
      SumUpdate(xs[..n], i, v);
    }
  }

  lemma {:induction false} NothingSkipped(n: nat)
    ensures Sum(seq(n, _ => 0)) == 0
  {
    var zeros: seq<nat> := seq(n, _ => 0);
    if n > 0 {
      var fewer: seq<nat> := seq(n - 1, _ => 0);
      assert zeros[..n - 1] == fewer;
      NothingSkipped(n - 1);
    }
  }

  /** The merge at one moment of a pass. `published` is all each ring will ever hold and `heads` how
      much of it is out. `from` and `found` are the cursors and heads as the pass began; `fed` is what
      it has handed to the pairer, `skipped` how many samples of each ring it found overwritten, and
      `stops` the head each ring was first read at. `lost` is the session's running count of them. */
  datatype Pass = Pass(
    published: seq<seq<Sample>>, heads: seq<nat>, cursors: seq<nat>, waits: seq<nat>, stage: seq<Sample>,
    lost: nat, lostBefore: nat, fed: seq<Fed>, from: seq<nat>, found: seq<nat>, skipped: seq<nat>, stops: seq<nat>)
  {
    ghost predicate Shaped() {
      && |heads| == |cursors| == |waits| == |published|
      && |from| == |found| == |skipped| == |stops| == |published|
    }

    predicate AtStamp(r: nat, k: nat)
      requires r < |published|
    {
      k < |published[r]| && !IsValue(published[r][k])
    }

    /** A ring that was left waiting waits for the stamp its cursor is on. */
    ghost predicate RingOk(r: nat)
      requires Shaped() && r < |published|
    {
      && cursors[r] <= heads[r] <= |published[r]|
      && (waits[r] > 0 ==> AtStamp(r, cursors[r]) && published[r][cursors[r]].timestamp == waits[r])
    }

    /** Every thread stamped its own samples in time order. */
    ghost predicate InOrder() {
      forall r :: 0 <= r < |published| ==> InTimeOrder(published[r])
    }

    ghost predicate Ok() {
      && Shaped()
      && (forall r :: 0 <= r < |published| ==> RingOk(r))
      && FedTrue(fed, published)
      && lost == lostBefore + Sum(skipped)
    }

    /** Up to `at`, everything of ring r has been fed once, in order, or counted lost. */
    ghost predicate Counted(r: nat, at: nat)
      requires Shaped() && r < |published|
    {
      && from[r] <= at
      && Rising(Of(fed, r), from[r], at)
      && |Of(fed, r)| + skipped[r] == at - from[r]
    }

    /** A ring being consumed. */
    ghost predicate SourceOk(src: Source)
      requires Shaped()
    {
      var r := src.id;
      && r < |published|
      && src.pos <= |src.data|
      && cursors[r] <= src.At()
      && src.base + |src.data| <= heads[r] <= |published[r]|
      && src.data == published[r][src.base..src.base + |src.data|]
      && Counted(r, src.At())
      && (if src.stop == None then Unread(src) else Allowance(src))
    }

    /** The cursor is on the first sample not consumed: a stamp past the watermark, or the end of the chunk. */
    ghost predicate Parked(src: Source, w: nat)
      requires Shaped() && src.id < |published|
    {
      && cursors[src.id] == src.At()
      && (src.pos < |src.data| ==> !IsValue(src.data[src.pos]) && w <= src.data[src.pos].timestamp)
      && (src.pos == |src.data| ==> waits[src.id] == 0)
    }

    ghost predicate Unread(src: Source)
      requires Shaped() && src.id < |published|
    {
      var r := src.id;
      && src.data == [] && src.base == cursors[r] == from[r]
      && Of(fed, r) == [] && skipped[r] == 0 && found[r] <= heads[r]
    }

    /** What was fed, what the chunk still holds and what may still be read fit in the stretch from
        the first cursor to the first head. */
    ghost predicate Allowance(src: Source)
      requires Shaped() && src.id < |published| && src.stop.Some?
    {
      var r := src.id;
      && src.pos <= |src.data|
      && src.stop.value == stops[r] && from[r] <= stops[r] <= heads[r] && found[r] <= stops[r]
      && |Of(fed, r)| + (|src.data| - src.pos) + Left(stops[r], src.base + |src.data|) <= stops[r] - from[r]
    }

    /** A ring this pass has finished with: nothing below the watermark is left of what it set out to
        read, and it has fed no more than that. */
    ghost predicate Finished(r: nat, w: nat)
      requires Shaped() && r < |published|
    {
      && Counted(r, cursors[r])
      && found[r] <= stops[r] <= heads[r] && from[r] <= stops[r]
      && |Of(fed, r)| <= stops[r] - from[r]
      && (stops[r] <= cursors[r] || w == 0 || (AtStamp(r, cursors[r]) && w <= published[r][cursors[r]].timestamp))
    }

    /** A ring as the pass found it. */
    ghost predicate Untouched(r: nat)
      requires Shaped() && r < |published|
    {
      && heads[r] == found[r] == stops[r] && cursors[r] == from[r]
      && skipped[r] == 0 && Of(fed, r) == []
    }

    /** `m` is a later moment of this pass. */
    ghost predicate SamePass(m: Pass) {
      && m == this.(heads := m.heads, cursors := m.cursors, waits := m.waits, skipped := m.skipped,
                    stops := m.stops, fed := m.fed, lost := m.lost)
    }

    /** From here to `m`, ring r's own progress aside, only values of ring r were fed. */
    ghost predicate AdvancesOnly(m: Pass, r: nat) {
      && m == this.(heads := m.heads, cursors := m.cursors, waits := m.waits, skipped := m.skipped,
                    stops := m.stops, fed := m.fed, lost := m.lost)
      && SameBut(r, heads, m.heads) && SameBut(r, cursors, m.cursors) && SameBut(r, waits, m.waits)
      && SameBut(r, skipped, m.skipped) && SameBut(r, stops, m.stops)
      && OnlyValuesAdded(fed, m.fed, r)
    }
  }

  /** Taking the head of a source keeps its accounts. */
  lemma TakeKeeps(m: Pass, src: Source)
    requires m.Ok() && m.SourceOk(src) && src.pos < |src.data|
    ensures var f := Fed(src.id, src.At(), src.data[src.pos]);
      var m' := m.(fed := m.fed + [f]);
      m'.Ok() && m'.SourceOk(src.(pos := src.pos + 1))
  {
    var r := src.id;
    var f := Fed(r, src.At(), src.data[src.pos]);
    assert src.data[src.pos] == m.published[r][src.At()];
    OfOneMore(m.fed, f, r);
    FedTrueStep(m.fed, m.published, f);
    RisingStep(Of(m.fed, r), m.from[r], src.At());
    var m' := m.(fed := m.fed + [f]);
    assert forall q :: 0 <= q < |m.published| && m.RingOk(q) ==> m'.RingOk(q);
  }

  /** So does taking the head of the stage. */
  lemma StagedKeeps(m: Pass, src: Source)
    requires m.Ok() && src.id == |m.published| && src.pos < |src.data|
    ensures Taken(m, src).Ok()
  {
    var m' := Taken(m, src);
    assert forall q :: 0 <= q < |m.published| && m.RingOk(q) ==> m'.RingOk(q);
  }

  /** One read takes this many samples at most. */
  const CHUNK: nat := 256

  /** How many samples the next read may ask for. */
  function Room(stop: nat, at: nat): nat {
    if Left(stop, at) < CHUNK then Left(stop, at) else CHUNK
  }

  /** The merge after a read of ring r that saw heads h and h2. */
  function AfterRead(m: Pass, r: nat, k: Kept): Pass
    requires r < |m.cursors| == |m.skipped| && m.cursors[r] <= k.first
  {
    var over := k.first - m.cursors[r];
    m.(cursors := m.cursors[r := k.first], skipped := m.skipped[r := m.skipped[r] + over], lost := m.lost + over)
  }

  /** A read of an exhausted source leaves its accounts in order, whether or not it was lapped. */
  lemma ReadKeeps(m: Pass, src: Source, mask: nat, h: nat, h2: nat)
    requires m.Ok() && m.SourceOk(src) && src.stop.Some? && src.pos == |src.data|
    requires m.cursors[src.id] == src.At() && m.waits[src.id] == 0
    requires h <= h2 <= m.heads[src.id] && m.cursors[src.id] <= h
    ensures var r := src.id;
      var k := KeptBy(m.cursors[r], Room(src.stop.value, m.cursors[r]), h, h2, mask);
      var m' := AfterRead(m, r, k);
      k.end <= m.heads[r] && m'.Ok() && m'.SourceOk(Source(m.published[r][k.first..k.end], 0, k.first, src.stop, r))
  {
    var r := src.id;
    var k := KeptBy(m.cursors[r], Room(src.stop.value, m.cursors[r]), h, h2, mask);
    assert m.RingOk(r);
    var m' := AfterRead(m, r, k);
    SumUpdate(m.skipped, r, m'.skipped[r]);
    assert forall q :: 0 <= q < |m.published| && m.RingOk(q) ==> m'.RingOk(q);
  }

  /** A read of a ring that has not reached its stop comes back with samples, or past lost ones. */
  lemma ReadFindsSomething(m: Pass, src: Source, mask: nat, h: nat, h2: nat)
    requires m.Shaped() && m.SourceOk(src) && src.stop.Some? && src.pos == |src.data|
    requires src.stop.value <= h <= h2 && mask > 0
    ensures var k := KeptBy(src.At(), Room(src.stop.value, src.At()), h, h2, mask);
      (k.first == k.end == src.At()) <==> src.stop.value <= src.At()
  {
  }

  lemma ReadAdvances(m: Pass, r: nat, k: Kept)
    requires m.Shaped() && r < |m.published| && m.cursors[r] <= k.first
    ensures m.AdvancesOnly(AfterRead(m, r, k), r)
  {
  }

  lemma HeadKeeps(m: Pass, src: Source, h: nat)
    requires m.Ok() && m.SourceOk(src) && m.heads[src.id] <= h <= |m.published[src.id]|
    ensures var m' := m.(heads := m.heads[src.id := h]); m'.Ok() && m'.SourceOk(src)
  {
    var m' := m.(heads := m.heads[src.id := h]);
    assert forall q :: 0 <= q < |m.published| && m.RingOk(q) ==> m'.RingOk(q);
  }

  /** The first read of a ring fixes how far this pass will read it. */
  lemma StopKeeps(m: Pass, src: Source)
    requires m.Ok() && m.SourceOk(src) && src.stop == None
    ensures var h := m.heads[src.id];
      var m' := m.(stops := m.stops[src.id := h]);
      m'.Ok() && m'.SourceOk(src.(stop := Some(h)))
  {
    var h := m.heads[src.id];
    var m' := m.(stops := m.stops[src.id := h]);
    assert m.RingOk(src.id);
    assert forall q :: 0 <= q < |m.published| && m.RingOk(q) ==> m'.RingOk(q);
  }

  /** Leaving the cursor on the first sample not consumed, and noting the stamp it waits for, if any. */
  lemma ParkKeeps(m: Pass, src: Source)
    requires m.Ok() && m.SourceOk(src)
    requires src.pos < |src.data| ==> !IsValue(src.data[src.pos])
    ensures var wait := if src.pos < |src.data| then src.data[src.pos].timestamp else 0;
      var m' := m.(cursors := m.cursors[src.id := src.At()], waits := m.waits[src.id := wait]);
      m'.Ok() && m'.SourceOk(src)
  {
    var wait := if src.pos < |src.data| then src.data[src.pos].timestamp else 0;
    var m' := m.(cursors := m.cursors[src.id := src.At()], waits := m.waits[src.id := wait]);
    assert src.pos < |src.data| ==> src.data[src.pos] == m.published[src.id][src.At()];
    assert forall q :: 0 <= q < |m.published| && m.RingOk(q) ==> m'.RingOk(q);
  }

  /** A source left parked at the watermark, or out of samples to read, is finished. */
  lemma ParkedIsFinished(m: Pass, src: Source, w: nat)
    requires m.Ok() && m.SourceOk(src) && src.stop.Some? && m.cursors[src.id] == src.At()
    requires if src.pos < |src.data| then !IsValue(src.data[src.pos]) && w <= src.data[src.pos].timestamp
             else src.stop.value <= src.At()
    ensures m.Finished(src.id, w)
  {
    assert src.pos < |src.data| ==> src.data[src.pos] == m.published[src.id][src.At()];
  }

  lemma OthersKeep(a: Pass, b: Pass, r: nat, src: Source)
    requires a.Shaped() && a.SourceOk(src) && src.id != r && a.AdvancesOnly(b, r)
    ensures b.Shaped() && b.SourceOk(src)
  {
    OthersUntouched(a.fed, b.fed, r, src.id);
  }

  lemma FinishedKeep(a: Pass, b: Pass, r: nat, q: nat, w: nat)
    requires a.Shaped() && q < |a.published| && a.Finished(q, w) && q != r && a.AdvancesOnly(b, r)
    ensures b.Shaped() && b.Finished(q, w)
  {
    OthersUntouched(a.fed, b.fed, r, q);
  }

  lemma AdvancesThrough(a: Pass, b: Pass, c: Pass, r: nat)
    requires a.AdvancesOnly(b, r) && b.AdvancesOnly(c, r)
    ensures a.AdvancesOnly(c, r)
  {
    assert c.fed[..|a.fed|] == c.fed[..|b.fed|][..|a.fed|];
    forall i | |a.fed| <= i < |c.fed| ensures IsValue(c.fed[i].s) && c.fed[i].source == r {
      if i < |b.fed| {
        assert c.fed[i] == c.fed[..|b.fed|][i];
      }
    }
  }

  // ---- All sources of a pass ----------------------------------------------

  /** The head of a source is a stamp to be paired in this pass. */
  predicate HeadReady(src: Source, w: nat) {
    src.pos < |src.data| && !IsValue(src.data[src.pos]) && src.data[src.pos].timestamp < w
  }

  function HeadTime(src: Source): nat
    requires src.pos < |src.data|
  {
    src.data[src.pos].timestamp
  }

  /** The staged stamps below the watermark, fed in order from the front. */
  ghost predicate SharedOk(m: Pass, src: Source, w: nat) {
    && src.base == 0 && src.pos <= |src.data| <= |m.stage|
    && src.data == m.stage[..|src.data|]
    && (forall i :: 0 <= i < |src.data| ==> !IsValue(src.data[i]) && src.data[i].timestamp < w)
    && (|src.data| < |m.stage| ==> w <= m.stage[|src.data|].timestamp)
    && Rising(Of(m.fed, src.id), 0, src.pos) && |Of(m.fed, src.id)| == src.pos
  }

  /** What was fed from the stage is what was staged there. */
  ghost predicate StageTrue(fed: seq<Fed>, shared: nat, stage: seq<Sample>) {
    forall i :: 0 <= i < |fed| && fed[i].source == shared ==>
      fed[i].index < |stage| && fed[i].s == stage[fed[i].index]
  }

  ghost predicate BeingRead(sources: seq<Source>, active: set<nat>, r: nat) {
    exists x :: x in active && x < |sources| && sources[x].id == r
  }

  ghost predicate HasSource(sources: seq<Source>, id: nat) {
    exists x :: 0 <= x < |sources| && sources[x].id == id
  }

  /** Nothing staged is due, and nothing of the stage has been fed. */
  ghost predicate StageIdle(m: Pass, w: nat) {
    Of(m.fed, |m.published|) == [] && (m.stage == [] || w <= m.stage[0].timestamp)
  }

  ghost predicate ActiveOk(m: Pass, src: Source, w: nat)
    requires m.Shaped()
  {
    && HeadReady(src, w)
    && (if src.id == |m.published| then SharedOk(m, src, w) else m.SourceOk(src))
    && (m.InOrder() ==> StampsUpTo(m.fed, HeadTime(src)))
  }

  ghost predicate AllActiveOk(m: Pass, sources: seq<Source>, active: set<nat>, w: nat)
    requires m.Shaped()
  {
    forall x :: x in active ==> x < |sources| && ActiveOk(m, sources[x], w)
  }

  ghost predicate Apart(sources: seq<Source>) {
    forall x, y :: 0 <= x < y < |sources| ==> sources[x].id != sources[y].id
  }

  /** A source over the stage that is no longer active has been fed to its end. */
  ghost predicate StageUsedUp(m: Pass, sources: seq<Source>, active: set<nat>, w: nat) {
    forall x :: 0 <= x < |sources| && x !in active && sources[x].id == |m.published| ==>
      SharedOk(m, sources[x], w) && sources[x].pos == |sources[x].data|
  }

  /** Rings below i are finished with or being read. */
  ghost predicate Covered(m: Pass, sources: seq<Source>, active: set<nat>, w: nat, i: nat)
    requires m.Shaped() && i <= |m.published|
  {
    forall r :: 0 <= r < i ==> m.Finished(r, w) || BeingRead(sources, active, r)
  }

  ghost predicate StageSeen(m: Pass, sources: seq<Source>, w: nat) {
    HasSource(sources, |m.published|) || StageIdle(m, w)
  }

  /** What has been fed went forward in time and stayed below the watermark. */
  ghost predicate FedInOrder(m: Pass, w: nat) {
    (m.InOrder() ==> StampsAscend(m.fed)) && StampsBelow(m.fed, w)
  }

  /** A pass under way: every source still active has a stamp ready and is in order; every ring is
      finished or active. */
  ghost predicate Merging(m: Pass, sources: seq<Source>, active: set<nat>, w: nat) {
    && m.Ok() && StageTrue(m.fed, |m.published|, m.stage) && Staged(m.stage)
    && AllActiveOk(m, sources, active, w) && Apart(sources) && StageUsedUp(m, sources, active, w)
    && Covered(m, sources, active, w, |m.published|) && StageSeen(m, sources, w) && FedInOrder(m, w)
  }

  /** Feeding a sample of another source, no later than this one's head, leaves its accounts alone. */
  lemma StampKeepsOthers(m: Pass, f: Fed, y: Source, w: nat)
    requires m.Shaped() && ActiveOk(m, y, w) && f.source != y.id && f.s.timestamp <= HeadTime(y)
    ensures ActiveOk(m.(fed := m.fed + [f]), y, w)
  {
    OfOneMore(m.fed, f, y.id);
    if m.InOrder() {
      UpToOneMore(m.fed, f, HeadTime(y));
    }
  }

  lemma UpToOneMore(fed: seq<Fed>, f: Fed, t: nat)
    requires StampsUpTo(fed, t) && f.s.timestamp <= t
    ensures StampsUpTo(fed + [f], t)
  {
  }

  /** Values fed on the way to a ring's next stamp leave the accounts of the others alone. */
  lemma ValuesKeepOthers(a: Pass, b: Pass, r: nat, y: Source, w: nat)
    requires a.Ok() && b.Ok() && ActiveOk(a, y, w) && y.id != r && a.AdvancesOnly(b, r)
    ensures ActiveOk(b, y, w)
  {
    ValuesKeepOrder(a.fed, b.fed, r, HeadTime(y), w);
    if y.id == |a.published| {
      OthersUntouched(a.fed, b.fed, r, y.id);
    } else {
      OthersKeep(a, b, r, y);
    }
  }

  /** What moving on to the next stamp of a source must achieve. */
  ghost predicate MovedOn(a: Pass, src: Source, b: Pass, next: Source, ok: bool, w: nat)
    requires a.Shaped()
  {
    && next.id == src.id && b.Ok()
    && (if src.id == |a.published| then b == a && next == src && ok == (src.pos < |src.data|)
        else a.AdvancesOnly(b, src.id))
    && (ok ==> HeadReady(next, w) && src.At() <= next.At())
    && (src.id < |a.published| ==> if ok then b.SourceOk(next) else b.Finished(src.id, w))
  }

  /** The merge after taking the head of a source. */
  function Taken(m: Pass, src: Source): Pass
    requires src.pos < |src.data|
  {
    m.(fed := m.fed + [Fed(src.id, src.At(), src.data[src.pos])])
  }

  lemma TakenIsOrdered(m: Pass, src: Source, w: nat)
    requires m.Ok() && ActiveOk(m, src, w) && FedInOrder(m, w)
    ensures StampsBelow(Taken(m, src).fed, w)
    ensures m.InOrder() ==> StampsAscend(Taken(m, src).fed) && StampsUpTo(Taken(m, src).fed, HeadTime(src))
  {
  }

  lemma RestReady(m: Pass, src: Source, w: nat)
    requires m.Ok() && ActiveOk(m, src, w)
    ensures var rest := src.(pos := src.pos + 1);
      && rest.Ahead() < src.Ahead()
      && (src.id == |m.published| && rest.pos < |rest.data| ==> HeadReady(rest, w))
  {
  }

  /** A source's next stamp is no earlier than its last. */
  lemma NextIsLater(m: Pass, src: Source, b: Pass, next: Source, w: nat)
    requires m.Ok() && m.InOrder() && Staged(m.stage) && ActiveOk(m, src, w)
    requires MovedOn(Taken(m, src), src.(pos := src.pos + 1), b, next, true, w)
    ensures HeadTime(src) <= HeadTime(next)
  {
    if src.id < |m.published| {
      assert src.data[src.pos] == m.published[src.id][src.At()];
      assert next.data[next.pos] == m.published[src.id][next.At()];
    } else {
      assert src.data[src.pos] == m.stage[src.pos] && src.data[src.pos + 1] == m.stage[src.pos + 1];
    }
  }

  /** The source that moved on is in order again, with its next stamp or finished. */
  lemma SelfKeeps(m: Pass, src: Source, b: Pass, next: Source, ok: bool, w: nat)
    requires m.Ok() && Staged(m.stage) && ActiveOk(m, src, w) && src.id <= |m.published|
    requires FedInOrder(m, w)
    requires MovedOn(Taken(m, src), src.(pos := src.pos + 1), b, next, ok, w)
    ensures ok ==> ActiveOk(b, next, w)
    ensures src.id == |m.published| ==> SharedOk(b, next, w) && (!ok ==> next.pos == |next.data|)
    ensures FedInOrder(b, w)
  {
    var a := Taken(m, src);
    TakenIsOrdered(m, src, w);
    if src.id == |m.published| {
      OfOneMore(m.fed, Fed(src.id, src.At(), src.data[src.pos]), src.id);
      RisingStep(Of(m.fed, src.id), 0, src.pos);
    } else {
      ValuesKeepOrder(a.fed, b.fed, src.id, HeadTime(src), w);
    }
    if ok && m.InOrder() {
      NextIsLater(m, src, b, next, w);
    }
  }

  /** The first sample fed while a source moves on past its head is that head. */
  lemma HeadIsFed(m: Pass, src: Source, b: Pass, next: Source, ok: bool, w: nat)
    requires m.Ok() && ActiveOk(m, src, w)
    requires MovedOn(Taken(m, src), src.(pos := src.pos + 1), b, next, ok, w)
    ensures |m.fed| < |b.fed| && b.fed[..|m.fed|] == m.fed && b.fed[|m.fed|].s == src.Head()
  {
    var a := Taken(m, src);
    assert b.fed[..|a.fed|] == a.fed;
    assert b.fed[..|m.fed|] == a.fed[..|m.fed|] == m.fed;
    assert b.fed[|m.fed|] == a.fed[|m.fed|];
  }

  lemma StageStaysTrue(m: Pass, src: Source, b: Pass, next: Source, ok: bool, w: nat)
    requires m.Ok() && ActiveOk(m, src, w) && StageTrue(m.fed, |m.published|, m.stage)
    requires MovedOn(Taken(m, src), src.(pos := src.pos + 1), b, next, ok, w)
    ensures StageTrue(b.fed, |m.published|, m.stage)
  {
    var a := Taken(m, src);
    assert StageTrue(a.fed, |m.published|, m.stage);
    if src.id != |m.published| {
      assert forall i :: 0 <= i < |a.fed| ==> b.fed[i] == b.fed[..|a.fed|][i];
    }
  }

  /** Pairing the earliest stamp and moving its source on keeps the pass in order. */
  lemma AdvanceKeeps(m: Pass, sources: seq<Source>, active: set<nat>, w: nat, x: nat, b: Pass, next: Source, ok: bool)
    requires Merging(m, sources, active, w) && x in active && sources[x].id <= |m.published|
    requires forall y :: y in active ==> HeadTime(sources[x]) <= HeadTime(sources[y])
    requires MovedOn(Taken(m, sources[x]), sources[x].(pos := sources[x].pos + 1), b, next, ok, w)
    ensures Merging(b, sources[x := next], if ok then active else active - {x}, w)
  {
    var src, active' := sources[x], if ok then active else active - {x};
    var sources' := sources[x := next];
    assert ActiveOk(m, src, w);
    SelfKeeps(m, src, b, next, ok, w);
    StageStaysTrue(m, src, b, next, ok, w);
    assert AllActiveOk(b, sources', active', w) by {
      forall y | y in active'
        ensures y < |sources'| && ActiveOk(b, sources'[y], w)
      {
        if y != x {
          OtherActiveKeeps(m, sources, active, w, x, b, next, ok, y);
        }
      }
    }
    assert StageUsedUp(b, sources', active', w) by {
      forall y | 0 <= y < |sources| && y !in active' && sources'[y].id == |m.published|
        ensures SharedOk(b, sources'[y], w) && sources'[y].pos == |sources'[y].data|
      {
        if y != x {
          SharedRestKeeps(m, src, b, next, ok, w, sources[y]);
        }
      }
    }
    assert Covered(b, sources', active', w, |m.published|) by {
      forall r | 0 <= r < |m.published|
        ensures b.Finished(r, w) || BeingRead(sources', active', r)
      {
        RingStaysCovered(m, sources, active, w, x, b, next, ok, r);
      }
    }
    StageStaysCovered(m, sources, active, w, x, b, next, ok);
  }

  lemma StageStaysCovered(m: Pass, sources: seq<Source>, active: set<nat>, w: nat, x: nat, b: Pass, next: Source,
                          ok: bool)
    requires Merging(m, sources, active, w) && x in active && sources[x].id <= |m.published|
    requires MovedOn(Taken(m, sources[x]), sources[x].(pos := sources[x].pos + 1), b, next, ok, w)
    ensures StageSeen(b, sources[x := next], w)
  {
    var shared := |m.published|;
    var src := sources[x];
    if HasSource(sources, shared) {
      var y :| 0 <= y < |sources| && sources[y].id == shared;
      assert sources[x := next][y].id == shared;
    } else {
      assert src.id != shared;
      OfOneMore(m.fed, Fed(src.id, src.At(), src.data[src.pos]), shared);
      OthersUntouched(Taken(m, src).fed, b.fed, src.id, shared);
    }
  }

  lemma OtherActiveKeeps(m: Pass, sources: seq<Source>, active: set<nat>, w: nat, x: nat, b: Pass, next: Source,
                         ok: bool, y: nat)
    requires Merging(m, sources, active, w) && x in active && y in active && y != x
    requires sources[x].id <= |m.published| && HeadTime(sources[x]) <= HeadTime(sources[y])
    requires MovedOn(Taken(m, sources[x]), sources[x].(pos := sources[x].pos + 1), b, next, ok, w)
    ensures ActiveOk(b, sources[y], w)
  {
    var a := Taken(m, sources[x]);
    StampKeepsOthers(m, Fed(sources[x].id, sources[x].At(), sources[x].data[sources[x].pos]), sources[y], w);
    if sources[x].id < |m.published| {
      TakeKeeps(m, sources[x]);
      ValuesKeepOthers(a, b, sources[x].id, sources[y], w);
    }
  }

  lemma SharedRestKeeps(m: Pass, src: Source, b: Pass, next: Source, ok: bool, w: nat, shared: Source)
    requires m.Ok() && ActiveOk(m, src, w) && src.id < |m.published| == shared.id
    requires SharedOk(m, shared, w)
    requires MovedOn(Taken(m, src), src.(pos := src.pos + 1), b, next, ok, w)
    ensures SharedOk(b, shared, w)
  {
    OfOneMore(m.fed, Fed(src.id, src.At(), src.data[src.pos]), shared.id);
    OthersUntouched(Taken(m, src).fed, b.fed, src.id, shared.id);
  }

  lemma RingStaysCovered(m: Pass, sources: seq<Source>, active: set<nat>, w: nat, x: nat, b: Pass, next: Source,
                         ok: bool, r: nat)
    requires Merging(m, sources, active, w) && x in active && r < |m.published| && sources[x].id <= |m.published|
    requires MovedOn(Taken(m, sources[x]), sources[x].(pos := sources[x].pos + 1), b, next, ok, w)
    ensures b.Finished(r, w) || BeingRead(sources[x := next], if ok then active else active - {x}, r)
  {
    var src := sources[x];
    var sources', active' := sources[x := next], if ok then active else active - {x};
    if BeingRead(sources, active, r) {
      var y :| y in active && y < |sources| && sources[y].id == r;
      if y in active' {
        assert sources'[y].id == r;
      }
    } else {
      assert src.id != r;
      FinishedStays(m, src, b, next, ok, r, w);
    }
  }

  /** A ring finished before another source's head was taken is still finished once that one has moved on. */
  lemma FinishedStays(m: Pass, src: Source, b: Pass, next: Source, ok: bool, r: nat, w: nat)
    requires m.Ok() && src.pos < |src.data| && src.id <= |m.published| && r < |m.published| && src.id != r
    requires m.Finished(r, w) && MovedOn(Taken(m, src), src.(pos := src.pos + 1), b, next, ok, w)
    ensures b.Finished(r, w)
  {
    OfOneMore(m.fed, Fed(src.id, src.At(), src.data[src.pos]), r);
    var a := Taken(m, src);
    assert a.Finished(r, w);
    if src.id < |m.published| {
      FinishedKeep(a, b, src.id, r, w);
    }
  }

  // ---- Collecting the sources ---------------------------------------------

  /** All of the first n. */
  function Everyone(n: nat): (all: set<nat>)
    ensures forall x: nat :: x in all <==> x < n
  {
    if n == 0 then {} else Everyone(n - 1) + {n - 1}
  }

  ghost predicate AllGathered(m: Pass, sources: seq<Source>, w: nat, i: nat)
    requires m.Shaped()
  {
    forall x :: 0 <= x < |sources| ==>
      ActiveOk(m, sources[x], w) && (sources[x].id == |m.published| || sources[x].id < i)
  }

  ghost predicate RestUntouched(m: Pass, i: nat)
    requires m.Shaped()
  {
    forall r :: i <= r < |m.published| ==> m.Untouched(r)
  }

  ghost predicate OnlyValuesBelow(fed: seq<Fed>, i: nat) {
    forall k :: 0 <= k < |fed| ==> IsValue(fed[k].s) && fed[k].source < i
  }

  /** Before the first stamp: rings below i have been read on to theirs, the others not at all. */
  ghost predicate Collecting(m: Pass, sources: seq<Source>, w: nat, i: nat) {
    && m.Ok() && Staged(m.stage) && i <= |m.published| && OnlyValuesBelow(m.fed, i)
    && AllGathered(m, sources, w, i) && Apart(sources)
    && Covered(m, sources, Everyone(|sources|), w, i) && RestUntouched(m, i) && StageSeen(m, sources, w)
  }

  /** The staged stamps before n, as a source. */
  function StageSource(stage: seq<Sample>, n: nat, shared: nat): seq<Source>
    requires n <= |stage|
  {
    if n > 0 then [Source(stage[..n], 0, 0, None, shared)] else []
  }

  /** The stage comes in first, up to the watermark. */
  lemma StageOpens(m: Pass, w: nat, n: nat)
    requires m.Ok() && Staged(m.stage) && n <= |m.stage| && m.fed == [] && RestUntouched(m, 0)
    requires forall i :: 0 <= i < |m.stage| ==> (i < n <==> m.stage[i].timestamp < w)
    ensures Collecting(m, StageSource(m.stage, n, |m.published|), w, 0)
  {
    var sources := StageSource(m.stage, n, |m.published|);
    if n > 0 {
      assert sources[0].id == |m.published| && ActiveOk(m, sources[0], w);
    }
  }

  /** A source for ring i, its cursor where the last pass left it and nothing read yet. */
  function Opening(m: Pass, i: nat): Source
    requires i < |m.cursors|
  {
    Source([], 0, m.cursors[i], None, i)
  }

  lemma OpeningOk(m: Pass, sources: seq<Source>, w: nat, i: nat)
    requires Collecting(m, sources, w, i) && i < |m.published|
    ensures m.SourceOk(Opening(m, i))
  {
    assert m.Untouched(i) && m.RingOk(i);
    assert m.published[i][m.cursors[i]..m.cursors[i]] == [];
  }

  /** A ring still waiting on a stamp at or past the watermark is as good as read: nothing it holds
      past its cursor is due. */
  lemma SkipKeeps(m: Pass, sources: seq<Source>, w: nat, i: nat)
    requires Collecting(m, sources, w, i) && i < |m.published| && w <= m.waits[i]
    ensures Collecting(m, sources, w, i + 1)
  {
    assert m.Untouched(i) && m.RingOk(i);
  }

  lemma CollectKeeps(m: Pass, sources: seq<Source>, w: nat, i: nat, b: Pass, next: Source, ok: bool)
    requires Collecting(m, sources, w, i) && i < |m.published|
    requires MovedOn(m, Opening(m, i), b, next, ok, w)
    ensures Collecting(b, if ok then sources + [next] else sources, w, i + 1)
  {
    CollectGathers(m, sources, w, i, b, next, ok);
    CollectCoversAll(m, sources, w, i, b, next, ok);
    FedSoFar(m.fed, b.fed, i);
    RestStays(m, b, i);
    StageStaysSeen(m, sources, w, b, i, if ok then [next] else []);
  }

  lemma CollectGathers(m: Pass, sources: seq<Source>, w: nat, i: nat, b: Pass, next: Source, ok: bool)
    requires Collecting(m, sources, w, i) && i < |m.published|
    requires MovedOn(m, Opening(m, i), b, next, ok, w)
    ensures var sources' := if ok then sources + [next] else sources;
      b.Ok() && AllGathered(b, sources', w, i + 1) && Apart(sources')
  {
    var sources' := if ok then sources + [next] else sources;
    forall x | 0 <= x < |sources'|
      ensures ActiveOk(b, sources'[x], w)
    {
      CollectedOk(m, sources, w, i, b, next, ok, x);
    }
  }

  lemma CollectCoversAll(m: Pass, sources: seq<Source>, w: nat, i: nat, b: Pass, next: Source, ok: bool)
    requires Collecting(m, sources, w, i) && i < |m.published|
    requires MovedOn(m, Opening(m, i), b, next, ok, w)
    ensures var sources' := if ok then sources + [next] else sources;
      b.Shaped() && Covered(b, sources', Everyone(|sources'|), w, i + 1)
  {
    var sources' := if ok then sources + [next] else sources;
    forall r | 0 <= r < i + 1
      ensures b.Finished(r, w) || BeingRead(sources', Everyone(|sources'|), r)
    {
      CollectCovers(m, sources, w, i, b, next, ok, r);
    }
  }

  lemma CollectedOk(m: Pass, sources: seq<Source>, w: nat, i: nat, b: Pass, next: Source, ok: bool, x: nat)
    requires Collecting(m, sources, w, i) && i < |m.published|
    requires MovedOn(m, Opening(m, i), b, next, ok, w)
    requires x < |sources| || (x == |sources| && ok)
    ensures ActiveOk(b, (sources + [next])[x], w)
  {
    if x < |sources| {
      ValuesKeepOthers(m, b, i, sources[x], w);
    } else {
      FedSoFar(m.fed, b.fed, i);
      assert StampsUpTo(b.fed, HeadTime(next));
    }
  }

  lemma FedSoFar(before: seq<Fed>, after: seq<Fed>, i: nat)
    requires OnlyValuesBelow(before, i) && OnlyValuesAdded(before, after, i)
    ensures OnlyValuesBelow(after, i + 1)
  {
    forall k | 0 <= k < |after|
      ensures IsValue(after[k].s) && after[k].source < i + 1
    {
      if k < |before| {
        assert after[k] == after[..|before|][k];
      }
    }
  }

  lemma RestStays(m: Pass, b: Pass, i: nat)
    requires m.Shaped() && b.Shaped() && RestUntouched(m, i) && m.AdvancesOnly(b, i)
    ensures RestUntouched(b, i + 1)
  {
    forall r | i < r < |b.published|
      ensures b.Untouched(r)
    {
      assert m.Untouched(r);
      OthersUntouched(m.fed, b.fed, i, r);
    }
  }

  lemma StageStaysSeen(m: Pass, sources: seq<Source>, w: nat, b: Pass, i: nat, more: seq<Source>)
    requires StageSeen(m, sources, w) && m.AdvancesOnly(b, i) && i < |m.published|
    ensures StageSeen(b, sources + more, w)
  {
    OthersUntouched(m.fed, b.fed, i, |m.published|);
    if HasSource(sources, |m.published|) {
      var y :| 0 <= y < |sources| && sources[y].id == |m.published|;
      assert (sources + more)[y].id == |m.published|;
    }
  }

  lemma CollectCovers(m: Pass, sources: seq<Source>, w: nat, i: nat, b: Pass, next: Source, ok: bool, r: nat)
    requires Collecting(m, sources, w, i) && i < |m.published| && r <= i
    requires MovedOn(m, Opening(m, i), b, next, ok, w)
    ensures var sources' := if ok then sources + [next] else sources;
      b.Finished(r, w) || BeingRead(sources', Everyone(|sources'|), r)
  {
    var sources' := if ok then sources + [next] else sources;
    if r == i {
      if ok {
        assert sources'[|sources|].id == i && |sources| in Everyone(|sources'|);
      }
    } else if m.Finished(r, w) {
      FinishedKeep(m, b, i, r, w);
    } else {
      var y :| y in Everyone(|sources|) && y < |sources| && sources[y].id == r;
      assert sources'[y].id == r && y in Everyone(|sources'|);
    }
  }

  lemma CollectedIsMerging(m: Pass, sources: seq<Source>, w: nat)
    requires Collecting(m, sources, w, |m.published|)
    ensures Merging(m, sources, Everyone(|sources|), w)
  {
  }

  /** The merge with the pass's own accounts reset. */
  ghost function Begun(m: Pass): Pass {
    m.(lostBefore := m.lost, fed := [], from := m.cursors, found := m.heads,
       skipped := seq(|m.published|, _ => 0), stops := m.heads)
  }

  lemma BegunOk(m: Pass)
    requires m.Ok()
    ensures Begun(m).Ok() && RestUntouched(Begun(m), 0)
  {
    NothingSkipped(|m.published|);
    assert forall q :: 0 <= q < |m.published| && m.RingOk(q) ==> Begun(m).RingOk(q);
  }

  /** What a pass leaves behind: every ring read as far as it set out to, what it fed in order, and of
      the stage exactly the stamps at or past the watermark, the others fed once each from the front. */
  ghost predicate Passed(m: Pass, before: seq<Sample>, w: nat) {
    && m.Ok() && Covered(m, [], {}, w, |m.published|) && FedInOrder(m, w)
    && StageTrue(m.fed, |m.published|, before) && StageDelivered(m, before, w)
  }

  ghost predicate StageDelivered(m: Pass, before: seq<Sample>, w: nat) {
    && |m.stage| <= |before|
    && var n := |before| - |m.stage|;
      && m.stage == before[n..]
      && (forall i :: 0 <= i < |before| ==> (i < n <==> before[i].timestamp < w))
      && Rising(Of(m.fed, |m.published|), 0, n) && |Of(m.fed, |m.published|)| == n
  }

  /** When no source is left to merge, dropping what was fed of the stage completes the pass. */
  lemma MergedIsPassed(m: Pass, sources: seq<Source>, w: nat, n: nat)
    requires Merging(m, sources, {}, w) && n <= |m.stage|
    requires forall x :: 0 <= x < |sources| && sources[x].id == |m.published| ==> n == sources[x].pos
    requires HasSource(sources, |m.published|) || n == 0
    ensures Passed(m.(stage := m.stage[n..]), m.stage, w)
  {
    var m' := m.(stage := m.stage[n..]);
    assert forall q :: 0 <= q < |m.published| && m.RingOk(q) ==> m'.RingOk(q);
    forall r | 0 <= r < |m.published|
      ensures m'.Finished(r, w)
    {
      assert m.Finished(r, w);
    }
    if HasSource(sources, |m.published|) {
      var y :| 0 <= y < |sources| && sources[y].id == |m.published|;
      assert SharedOk(m, sources[y], w) && sources[y].pos == |sources[y].data| == n;
      StageCut(m, sources[y], w, n);
    }
  }

  lemma StageCut(m: Pass, src: Source, w: nat, n: nat)
    requires Staged(m.stage) && SharedOk(m, src, w) && src.pos == |src.data| == n
    ensures forall i :: 0 <= i < |m.stage| ==> (i < n <==> m.stage[i].timestamp < w)
  {
    forall i | 0 <= i < |m.stage|
      ensures i < n <==> m.stage[i].timestamp < w
    {
      if i < n {
        assert m.stage[i] == src.data[i];
      }
    }
  }

  function SamplesOf(fed: seq<Fed>): seq<Sample> {
    seq(|fed|, i requires 0 <= i < |fed| => fed[i].s)
  }

  lemma StageIsApart(m: Pass)
    requires m.Ok()
    ensures forall stage :: m.(stage := stage).Ok()
  {
    forall stage ensures m.(stage := stage).Ok() {
      var m' := m.(stage := stage);
      assert forall q :: 0 <= q < |m.published| && m.RingOk(q) ==> m'.RingOk(q);
    }
  }

  lemma StraightKeeps(m: Pass, i: nat, s: Sample)
    requires m.Ok() && (IsValue(s) || |m.published| == 0)
    ensures var m' := m.(fed := m.fed + [Fed(|m.published| + 1, i, s)]);
      m'.Ok() && SamplesOf(m'.fed) == SamplesOf(m.fed) + [s]
  {
    var m' := m.(fed := m.fed + [Fed(|m.published| + 1, i, s)]);
    assert forall q :: 0 <= q < |m.published| && m.RingOk(q) ==> m'.RingOk(q);
  }
}

/** The heap of sources a pass works through, earliest head on top. */
module HeadHeap {
  import opened MergeSpec
  import opened Stamps
  import opened PairingSpec
  import Heaps

  /** The heap orders source numbers by the timestamp at their heads. */
  function Rank(sources: seq<Source>): nat -> int {
    (i: nat) => if i < |sources| && sources[i].pos < |sources[i].data| then HeadTime(sources[i]) else 0
  }

  /** Each source in the heap has a head. */
  ghost predicate HaveHeads(heap: seq<nat>, sources: seq<Source>) {
    forall k :: 0 <= k < |heap| ==> heap[k] < |sources| && sources[heap[k]].pos < |sources[heap[k]].data|
  }

  /** The stamp at the head of the k-th source in the heap. */
  function HeadAt(heap: seq<nat>, sources: seq<Source>, k: nat): Sample
    requires HaveHeads(heap, sources) && k < |heap|
  {
    sources[heap[k]].Head()
  }

  /** The last source has the earliest head, and the others are a heap. */
  ghost predicate EarliestLast(heap: seq<nat>, sources: seq<Source>) {
    && heap != [] && Heaps.IsHeap(heap[..|heap| - 1], Rank(sources))
    && forall k :: 0 <= k < |heap| ==> Rank(sources)(heap[|heap| - 1]) <= Rank(sources)(heap[k])
  }

  lemma PoppedIsEarliest(heap: seq<nat>, popped: seq<nat>, sources: seq<Source>)
    requires heap != [] && Heaps.IsHeap(heap, Rank(sources)) && multiset(popped) == multiset(heap)
    requires |popped| == |heap| && popped[|popped| - 1] == heap[0]
    requires Heaps.IsHeap(popped[..|popped| - 1], Rank(sources))
    ensures EarliestLast(popped, sources)
  {
    forall k | 0 <= k < |popped|
      ensures Rank(sources)(heap[0]) <= Rank(sources)(popped[k])
    {
      assert popped[k] in multiset(popped);
      var j :| 0 <= j < |heap| && heap[j] == popped[k];
      Heaps.TopIsLeast(heap, Rank(sources), j);
    }
  }

  /** The stamp s is as early as any head, and pairs cleanly if any that early does. */
  ghost predicate BestNext(sources: seq<Source>, active: set<nat>, spans: map<nat, OpenSpan>, s: Sample)
    requires forall x :: x in active ==> x < |sources| && sources[x].pos < |sources[x].data|
  {
    && (forall x :: x in active ==> s.timestamp <= HeadTime(sources[x]))
    && (forall x :: x in active && HeadTime(sources[x]) == s.timestamp && PairsCleanly(spans, sources[x].Head())
          ==> PairsCleanly(spans, s))
  }

  /** Putting `r` for `heap` keeps the time of the last head, and makes it a clean one exactly if any
      head tied with it is. */
  ghost predicate CleanTie(heap: seq<nat>, r: seq<nat>, sources: seq<Source>, spans: map<nat, OpenSpan>) {
    && HaveHeads(heap, sources) && HaveHeads(r, sources) && |r| == |heap| > 0
    && (var n := |heap| - 1;
        var tick := HeadAt(heap, sources, n).timestamp;
        && HeadAt(r, sources, n).timestamp == tick
        && (PairsCleanly(spans, HeadAt(r, sources, n)) <==>
            exists k :: 0 <= k <= n && HeadAt(heap, sources, k).timestamp == tick
                        && PairsCleanly(spans, HeadAt(heap, sources, k))))
  }

  lemma CleanTieIsBest(m: Pass, sources: seq<Source>, heap: seq<nat>, r: seq<nat>, active: set<nat>,
                       spans: map<nat, OpenSpan>, w: nat)
    requires m.Shaped() && AllActiveOk(m, sources, active, w) && Holds(heap, active) && Holds(r, active)
    requires EarliestLast(r, sources) && CleanTie(heap, r, sources, spans)
    ensures BestNext(sources, active, spans, HeadAt(r, sources, |r| - 1))
  {
    LastIsEarliest(m, sources, r, active, w);
    forall x | x in active && HeadTime(sources[x]) == HeadAt(r, sources, |r| - 1).timestamp
               && PairsCleanly(spans, sources[x].Head())
      ensures PairsCleanly(spans, HeadAt(r, sources, |r| - 1))
    {
      var k :| 0 <= k < |heap| && heap[k] == x;
      assert HeadAt(heap, sources, k) == sources[x].Head();
    }
  }

  /** If the top of the heap is not tied with the last source, nothing is. */
  lemma NoneTied(heap: seq<nat>, sources: seq<Source>, k: nat)
    requires EarliestLast(heap, sources) && HaveHeads(heap, sources) && k < |heap| - 1
    requires HeadAt(heap, sources, 0).timestamp != HeadAt(heap, sources, |heap| - 1).timestamp
    ensures HeadAt(heap, sources, k).timestamp != HeadAt(heap, sources, |heap| - 1).timestamp
  {
    Heaps.TopIsLeast(heap[..|heap| - 1], Rank(sources), k);
  }

  /** Trading the last source for another with a head at the same time keeps the order. */
  lemma SwapTied(heap: seq<nat>, sources: seq<Source>, i: nat)
    requires EarliestLast(heap, sources) && i < |heap| - 1
    requires Rank(sources)(heap[i]) == Rank(sources)(heap[|heap| - 1])
    ensures var r := heap[i := heap[|heap| - 1]][|heap| - 1 := heap[i]];
      EarliestLast(r, sources) && multiset(r) == multiset(heap)
  {
    var n := |heap| - 1;
    var r := heap[i := heap[n]][n := heap[i]];
    Heaps.SwapEqualKeepsHeap(heap[..n], Rank(sources), i, heap[n]);
    assert r[..n] == heap[..n][i := heap[n]];
  }

  /** Every active source is in the heap once. */
  ghost predicate Holds(heap: seq<nat>, active: set<nat>) {
    (forall i :: i in active <==> i in heap) && (forall i, j :: 0 <= i < j < |heap| ==> heap[i] != heap[j])
  }

  lemma ActiveHaveHeads(m: Pass, sources: seq<Source>, heap: seq<nat>, active: set<nat>, w: nat)
    requires m.Shaped() && AllActiveOk(m, sources, active, w) && Holds(heap, active)
    ensures HaveHeads(heap, sources)
  {
    forall k | 0 <= k < |heap|
      ensures heap[k] < |sources| && sources[heap[k]].pos < |sources[heap[k]].data|
    {
      assert heap[k] in active;
    }
  }

  lemma LastIsEarliest(m: Pass, sources: seq<Source>, heap: seq<nat>, active: set<nat>, w: nat)
    requires m.Shaped() && AllActiveOk(m, sources, active, w) && Holds(heap, active)
    requires EarliestLast(heap, sources) && HaveHeads(heap, sources)
    ensures forall y :: y in active ==> HeadTime(sources[heap[|heap| - 1]]) <= HeadTime(sources[y])
  {
    forall y | y in active
      ensures HeadTime(sources[heap[|heap| - 1]]) <= HeadTime(sources[y])
    {
      assert ActiveOk(m, sources[y], w);
      var k :| 0 <= k < |heap| && heap[k] == y;
      assert heap[|heap| - 1] in active;
      assert ActiveOk(m, sources[heap[|heap| - 1]], w);
    }
  }

  /** The heap without its last source. */
  lemma WithoutLast(heap: seq<nat>, active: set<nat>)
    requires Holds(heap, active) && heap != []
    ensures heap[|heap| - 1] !in heap[..|heap| - 1]
    ensures Holds(heap[..|heap| - 1], active - {heap[|heap| - 1]})
  {
    var n := |heap| - 1;
    forall i ensures i in active - {heap[n]} <==> i in heap[..n] {
      if i in active && i != heap[n] {
        var k :| 0 <= k < |heap| && heap[k] == i;
        assert heap[..n][k] == i;
      }
    }
  }

  function Numbers(n: nat): seq<nat> {
    seq(n, (i: nat) => i)
  }

  lemma EveryoneOnce(n: nat)
    ensures Holds(Numbers(n), Everyone(n))
  {
    var all := Numbers(n);
    forall i: nat | i < n ensures i in all {
      assert all[i] == i;
    }
  }

  lemma HoldsPermuted(a: seq<nat>, b: seq<nat>, active: set<nat>)
    requires Holds(a, active) && multiset(a) == multiset(b)
    ensures Holds(b, active)
  {
    forall i ensures i in a <==> i in b {
      assert i in a <==> i in multiset(a);
      assert i in b <==> i in multiset(b);
    }
    forall i, j | 0 <= i < j < |b| ensures b[i] != b[j] {
      OnceInPermuted(a, b, i, j);
    }
  }

  lemma OnceInPermuted(a: seq<nat>, b: seq<nat>, i: nat, j: nat)
    requires multiset(a) == multiset(b) && i < j < |b|
    requires forall i, j :: 0 <= i < j < |a| ==> a[i] != a[j]
    ensures b[i] != b[j]
  {
    var x := b[j];
    assert b == b[..j] + b[j..];
    assert x in multiset(b[j..]);
    assert b[i] == b[..j][i];
    if b[i] == x {
      assert x in multiset(b[..j]) && multiset(b)[x] >= 2;
      OnceCounted(a, x);
    }
  }

  lemma {:induction false} OnceCounted(a: seq<nat>, x: nat)
    requires forall i, j :: 0 <= i < j < |a| ==> a[i] != a[j]
    ensures multiset(a)[x] <= 1
  {
    if a == [] {
    } else {
      var n := |a| - 1;
      assert a == a[..n] + [a[n]];
      OnceCounted(a[..n], x);
      if x == a[n] {
        assert x !in a[..n];
      }
    }
  }

  /** Moving one source on changes no other's rank. */
  lemma RanksKeep(heap: seq<nat>, sources: seq<Source>, x: nat, next: Source)
    requires Heaps.IsHeap(heap, Rank(sources)) && x < |sources| && x !in heap
    ensures Heaps.IsHeap(heap, Rank(sources[x := next]))
  {
    var rank := Rank(sources[x := next]);
    forall i | 0 < i < |heap|
      ensures Heaps.ParentFirst(heap, rank, i)
    {
      assert Heaps.ParentFirst(heap, Rank(sources), i);
    }
  }

  function AllAhead(sources: seq<Source>): nat {
    if sources == [] then 0 else AllAhead(sources[..|sources| - 1]) + sources[|sources| - 1].Ahead()
  }

  lemma {:induction false} AllAheadUpdate(sources: seq<Source>, x: nat, next: Source)
    requires x < |sources|
    ensures AllAhead(sources[x := next]) + sources[x].Ahead() == AllAhead(sources) + next.Ahead()
  {
    var n := |sources| - 1;
    if x == n {
      assert sources[x := next][..n] == sources[..n];
    } else {
      assert sources[x := next][..n] == sources[..n][x := next];
      AllAheadUpdate(sources[..n], x, next);
    }
  }
}
