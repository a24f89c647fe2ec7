/** What one read of an overwriting ring keeps, as a function of the two heads it saw. */
module RingReads {
  /** With the head at h, the slots of all indices below this one may have been written again, or are being. */
  function FirstIntact(h: nat, mask: nat): nat {
    if h > mask then h - mask else 0
  }

  /** The samples [start, end) a read copies when it first sees head `h`. */
  function CopyStart(cursor: nat, h: nat, mask: nat): (start: nat)
    ensures cursor <= start && (cursor <= h ==> start <= h)
  {
    if cursor > FirstIntact(h, mask) then cursor else FirstIntact(h, mask)
  }

  function CopyEnd(cursor: nat, maxN: nat, h: nat, mask: nat): (end: nat)
    requires cursor < h
    ensures CopyStart(cursor, h, mask) <= end <= h
    ensures end - CopyStart(cursor, h, mask) <= maxN
  {
    var start := CopyStart(cursor, h, mask);
    if h - start > maxN then start + maxN else h
  }

  /** The indices a read hands back: [first, end). It leaves the cursor on `first`. */
  datatype Kept = Kept(first: nat, end: nat)

  /** What is left of the copy when the head reads `h2` afterwards. */
  function KeptBy(cursor: nat, maxN: nat, h: nat, h2: nat, mask: nat): (k: Kept)
    requires h <= h2
    ensures cursor <= k.first <= k.end && k.end - k.first <= maxN
    ensures k.end == cursor || k.end <= h
  {
    if h <= cursor || maxN == 0 then Kept(cursor, cursor)
    else
      var start, end := CopyStart(cursor, h, mask), CopyEnd(cursor, maxN, h, mask);
      var valid := FirstIntact(h2, mask);
      Kept(if valid > start then (if valid < end then valid else end) else start, end)
  }

  /** Of the samples a read passes, it keeps exactly those whose slot the producer cannot have
      reached by the second head. With nothing lapped it skips nothing and passes all it was asked for; lapped
      at the first head, as many from the oldest that one leaves. It comes back empty-handed only by
      skipping, or with nothing new or nothing asked for. */
  lemma KeptExactly(cursor: nat, maxN: nat, h: nat, h2: nat, mask: nat, i: nat)
    requires h <= h2 && mask > 0
    ensures var k := KeptBy(cursor, maxN, h, h2, mask);
      && (cursor <= i < k.end ==> (k.first <= i <==> h2 <= i + mask))
      && (h <= cursor || maxN == 0 ==> k.first == k.end == cursor)
      && (cursor < h && maxN > 0 ==>
            && (h2 <= cursor + mask ==> k.first == cursor)
            && (h <= cursor + mask ==> k.end == if h - cursor > maxN then cursor + maxN else h)
            && (h > cursor + mask ==> k.end == if mask > maxN then h - mask + maxN else h)
            && (k.first == k.end ==> k.first > cursor))
  {
  }

  /** A copy of the samples from `start` on that agrees from `first` on has the same tail. */
  lemma SameFrom<T>(copy: seq<T>, start: nat, all: seq<T>, first: nat)
    requires start <= first <= start + |copy| <= |all|
    requires forall i {:trigger all[i]} :: first <= i < start + |copy| ==> copy[i - start] == all[i]
    ensures copy[first - start..] == all[first..start + |copy|]
  {
  }
}

/** Producers, one after the other, overwriting the slots of a ring while one reader copies them field by
    field. A producer may die in the middle of a publish; its successor starts the same index again. */
module ThreadRings {
  import opened Arith
  import opened Stamps
  import opened RingReads

  /** A publish whose stores have begun: the index it is for, and the sample. The attempt at an index that
      gets its head store is the one published there. */
  datatype Attempt = Attempt(index: nat, sample: Sample)

  /** Where the producer is in its newest attempt. */
  datatype Producer = Idle | Storing(fields: nat)

  /** The attempts a reader's three field loads of one slot returned. */
  datatype Seen = Seen(timestamp: nat, point: nat, event: nat)

  /** Where the reader is. While copying, `seen` and `partial` record the attempt each load returned,
      `field` is the next field to load and `top` the newest index met. */
  datatype Reader =
    | Resting
    | Copying(maxN: nat, h: nat, field: nat, partial: Seen, seen: seq<Seen>, top: nat)
    | Holding(batch: seq<Sample>)

  /** `attempts` holds every publish begun; `published` the samples published, by index, and `chosen` which
      attempt each was; `slots` is the memory as the stores leave it; `taken` is what the caller has
      consumed, and `takenAt` the index each was published at. */
  datatype Ring = Ring(
    capacity: nat, attempts: seq<Attempt>, published: seq<Sample>, chosen: seq<nat>, slots: seq<Sample>,
    producer: Producer, reader: Reader, cursor: nat, lost: nat, taken: seq<Sample>, takenAt: seq<nat>)
  {
    function Head(): nat {
      |published|
    }

    ghost predicate Shaped() {
      && capacity > 1 && |slots| == capacity && HistoryOk(attempts, published, chosen)
      && (producer.Storing? ==> UnderWay(attempts, Head()) && producer.fields <= 3)
      && cursor <= Head()
      && (reader.Copying? ==> cursor < reader.h <= Head() && reader.maxN > 0)
    }

    function Start(): nat
      requires reader.Copying? && capacity > 0
    {
      CopyStart(cursor, reader.h, capacity - 1)
    }

    function End(): nat
      requires reader.Copying? && capacity > 0 && cursor < reader.h
    {
      CopyEnd(cursor, reader.maxN, reader.h, capacity - 1)
    }

    /** The index whose slot is being loaded. */
    function At(): nat
      requires reader.Copying? && capacity > 0
    {
      Start() + |reader.seen|
    }
  }

  /** Every sample published was some attempt at its index, and none is for an index past the head. */
  predicate HistoryOk(attempts: seq<Attempt>, published: seq<Sample>, chosen: seq<nat>) {
    && |chosen| == |published|
    && (forall i :: 0 <= i < |chosen| ==> chosen[i] < |attempts| && attempts[chosen[i]] == Attempt(i, published[i]))
    && (forall n :: 0 <= n < |attempts| ==> attempts[n].index <= |published|)
  }

  /** The newest attempt is at the head. */
  predicate UnderWay(attempts: seq<Attempt>, head: nat) {
    attempts != [] && attempts[|attempts| - 1].index == head
  }

  datatype Step =
    | BeginPublish(sample: Sample)
    | StoreField
    | StoreHead
    | Abandon
    | LoadHead(maxN: nat, h: nat)
    | LoadField(attempt: nat)
    | ReloadHead(h2: nat)
    | Take(count: nat)

  function Field(s: Sample, f: nat): nat {
    if f == 0 then s.timestamp else if f == 1 then s.point else s.event
  }

  function WithField(s: Sample, f: nat, v: nat): Sample {
    if f == 0 then s.(timestamp := v) else if f == 1 then s.(point := v) else s.(event := v)
  }

  /** The read rule the fences give. A load of the slot of index i, once published, may return the field of
      the attempt published there, or of any attempt at a later index of that slot, abandoned or not. */
  predicate MayLoad(attempts: seq<Attempt>, chosen: seq<nat>, capacity: nat, i: nat, n: nat)
    requires capacity > 0
  {
    && i < |chosen| && n < |attempts| && i <= attempts[n].index && (attempts[n].index - i) % capacity == 0
    && (attempts[n].index == i ==> n == chosen[i])
  }

  ghost predicate Allowed(r: Ring, step: Step)
    requires r.Shaped()
  {
    match step
    case BeginPublish(_) => r.producer.Idle?
    case StoreField => r.producer.Storing? && r.producer.fields < 3
    case StoreHead => r.producer == Storing(3)
    case Abandon => r.producer.Storing?
    case LoadHead(maxN, h) => r.reader.Resting? && h <= r.Head()
    case LoadField(n) => r.reader.Copying? && r.At() < r.End() && MayLoad(r.attempts, r.chosen, r.capacity, r.At(), n)
    // The head is read again after every load, and has reached whatever index they returned.
    case ReloadHead(h2) =>
      r.reader.Copying? && r.At() == r.End() && r.reader.h <= h2 <= r.Head() && r.reader.top <= h2
    case Take(n) => r.reader.Holding? && n <= |r.reader.batch|
  }

  predicate SeenBegun(attempts: seq<Attempt>, s: Seen) {
    s.timestamp < |attempts| && s.point < |attempts| && s.event < |attempts|
  }

  /** The sample a reader assembles from three loads, each field from the attempt it saw. */
  function Assembled(attempts: seq<Attempt>, s: Seen): Sample
    requires SeenBegun(attempts, s)
  {
    Sample(attempts[s.timestamp].sample.timestamp, attempts[s.point].sample.point, attempts[s.event].sample.event)
  }

  ghost predicate AllBegun(attempts: seq<Attempt>, seen: seq<Seen>) {
    forall k :: 0 <= k < |seen| ==> SeenBegun(attempts, seen[k])
  }

  function CopyOf(attempts: seq<Attempt>, seen: seq<Seen>): (copy: seq<Sample>)
    requires AllBegun(attempts, seen)
  {
    seq(|seen|, k requires 0 <= k < |seen| => assert SeenBegun(attempts, seen[k]); Assembled(attempts, seen[k]))
  }

  ghost function AfterLoad(c: Reader, n: nat, index: nat): Reader
    requires c.Copying?
  {
    var top := if index > c.top then index else c.top;
    if c.field == 0 then c.(field := 1, partial := Seen(n, n, n), top := top)
    else if c.field == 1 then c.(field := 2, partial := c.partial.(point := n), top := top)
    else c.(field := 0, seen := c.seen + [c.partial.(event := n)], top := top)
  }

  ghost function Do(r: Ring, step: Step): Ring
    requires Inv(r) && Allowed(r, step)
  {
    match step
    case BeginPublish(s) => r.(attempts := r.attempts + [Attempt(r.Head(), s)], producer := Storing(0))
    case StoreField =>
      var at := r.Head() % r.capacity;
      var f := r.producer.fields;
      var s := r.attempts[|r.attempts| - 1].sample;
      r.(slots := r.slots[at := WithField(r.slots[at], f, Field(s, f))], producer := Storing(f + 1))
    case StoreHead =>
      var last := |r.attempts| - 1;
      r.(published := r.published + [r.attempts[last].sample], chosen := r.chosen + [last], producer := Idle)
    case Abandon => r.(producer := Idle)
    case LoadHead(maxN, h) =>
      r.(reader := if h <= r.cursor || maxN == 0 then Holding([])
                   else Copying(maxN, h, 0, Seen(0, 0, 0), [], 0))
    case LoadField(n) => r.(reader := AfterLoad(r.reader, n, r.attempts[n].index))
    case ReloadHead(h2) =>
      var c := r.reader;
      LoadedBegun(r);
      var kept := KeptBy(r.cursor, c.maxN, c.h, h2, r.capacity - 1);
      var copy := CopyOf(r.attempts, c.seen);
      r.(reader := Holding(copy[kept.first - r.Start()..]), lost := r.lost + (kept.first - r.cursor),
         cursor := kept.first)
    case Take(n) =>
      r.(reader := Resting, cursor := r.cursor + n, taken := r.taken + r.reader.batch[..n],
         takenAt := r.takenAt + seq(n, k => r.cursor + k))
  }

  // ---- What every step keeps ----------------------------------------------

  /** A load of the slot of index i returned attempt n, at an index no later than `top`. */
  ghost predicate Loaded(r: Ring, i: nat, n: nat, top: nat)
    requires r.capacity > 0
  {
    MayLoad(r.attempts, r.chosen, r.capacity, i, n) && r.attempts[n].index <= top
  }

  ghost predicate SlotLoaded(r: Ring, i: nat, s: Seen, top: nat)
    requires r.capacity > 0
  {
    Loaded(r, i, s.timestamp, top) && Loaded(r, i, s.point, top) && Loaded(r, i, s.event, top)
  }

  ghost predicate CopyOk(r: Ring)
    requires r.Shaped() && r.reader.Copying?
  {
    var c := r.reader;
    && r.At() <= r.End() && c.field < 3 && c.top <= r.Head()
    && (c.field > 0 ==> r.At() < r.End())
    && (forall k :: 0 <= k < |c.seen| ==> SlotLoaded(r, r.Start() + k, c.seen[k], c.top))
    && (c.field > 0 ==> Loaded(r, r.At(), c.partial.timestamp, c.top))
    && (c.field > 1 ==> Loaded(r, r.At(), c.partial.point, c.top))
  }

  /** What the caller has taken are published samples, in publishing order and none twice; with
      those counted lost they account for everything the cursor has passed. */
  ghost predicate TakenOk(r: Ring) {
    && |r.taken| == |r.takenAt| && |r.taken| + r.lost == r.cursor <= r.Head()
    && (forall k :: 0 <= k < |r.taken| ==> r.takenAt[k] < r.cursor && r.taken[k] == r.published[r.takenAt[k]])
    && (forall j, k :: 0 <= j < k < |r.takenAt| ==> r.takenAt[j] < r.takenAt[k])
  }

  ghost predicate Inv(r: Ring) {
    && r.Shaped()
    && TakenOk(r)
    && (r.reader.Copying? ==> CopyOk(r))
    && (r.reader.Holding? ==> BatchOk(r))
  }

  ghost predicate BatchOk(r: Ring)
    requires r.reader.Holding?
  {
    && r.cursor + |r.reader.batch| <= r.Head()
    && r.reader.batch == r.published[r.cursor..r.cursor + |r.reader.batch|]
  }

  /** A later index of the slot of i is at least one lap ahead. */
  lemma NewerIsALap(i: nat, g: nat, capacity: nat)
    requires capacity > 0 && i <= g && (g - i) % capacity == 0
    ensures g == i || i + capacity <= g
  {
  }

  /** A load that met no later lap returned a field of what was published. */
  lemma LoadedIsPublished(r: Ring, i: nat, n: nat, top: nat)
    requires r.Shaped() && Loaded(r, i, n, top) && top < i + r.capacity
    ensures i < r.Head() && r.attempts[n].sample == r.published[i]
  {
    NewerIsALap(i, r.attempts[n].index, r.capacity);
    assert r.attempts[r.chosen[i]] == Attempt(i, r.published[i]);
  }

  /** Whatever interleaving produced the loads, what survives the second head read is field for
      field what was published at that index. */
  lemma KeptIsPublished(r: Ring, h2: nat, i: nat)
    requires Inv(r) && Allowed(r, ReloadHead(h2))
    requires r.Start() <= i < r.End() && FirstIntact(h2, r.capacity - 1) <= i
    ensures SeenBegun(r.attempts, r.reader.seen[i - r.Start()])
    ensures Assembled(r.attempts, r.reader.seen[i - r.Start()]) == r.published[i]
  {
    var s := r.reader.seen[i - r.Start()];
    assert SlotLoaded(r, i, s, r.reader.top);
    LoadedIsPublished(r, i, s.timestamp, r.reader.top);
    LoadedIsPublished(r, i, s.point, r.reader.top);
    LoadedIsPublished(r, i, s.event, r.reader.top);
  }

  lemma LoadedBegun(r: Ring)
    requires r.Shaped() && r.reader.Copying? && CopyOk(r)
    ensures AllBegun(r.attempts, r.reader.seen)
  {
    forall k | 0 <= k < |r.reader.seen|
      ensures SeenBegun(r.attempts, r.reader.seen[k])
    {
      assert SlotLoaded(r, r.Start() + k, r.reader.seen[k], r.reader.top);
    }
  }

  /** What is kept of the copy, from `first` on, is what was published from there. */
  lemma KeptBatch(r: Ring, h2: nat, first: nat)
    requires Inv(r) && Allowed(r, ReloadHead(h2)) && AllBegun(r.attempts, r.reader.seen)
    requires r.Start() <= first <= r.End() && (first < r.End() ==> FirstIntact(h2, r.capacity - 1) <= first)
    ensures r.End() <= r.Head()
    ensures CopyOf(r.attempts, r.reader.seen)[first - r.Start()..] == r.published[first..r.End()]
  {
    var copy := CopyOf(r.attempts, r.reader.seen);
    forall i | first <= i < r.End()
      ensures copy[i - r.Start()] == r.published[i]
    {
      KeptIsPublished(r, h2, i);
    }
    SameFrom(copy, r.Start(), r.published, first);
  }

  lemma ReloadKeeps(r: Ring, h2: nat)
    requires Inv(r) && Allowed(r, ReloadHead(h2))
    ensures Inv(Do(r, ReloadHead(h2)))
  {
    LoadedBegun(r);
    var r' := Do(r, ReloadHead(h2));
    KeptBatch(r, h2, r'.cursor);
    assert r'.reader == Holding(r.published[r'.cursor..r.End()]);
  }

  /** More attempts and more publishing leave what was loaded as it was. */
  lemma LoadedStays(r: Ring, r': Ring, i: nat, n: nat, top: nat)
    requires r.capacity == r'.capacity > 0 && r.attempts <= r'.attempts && r.chosen <= r'.chosen && Loaded(r, i, n, top)
    ensures Loaded(r', i, n, top)
  {
    assert r'.attempts[n] == r.attempts[n] && r'.chosen[i] == r.chosen[i];
  }

  lemma CopyStays(r: Ring, r': Ring)
    requires Inv(r) && r.reader.Copying? && r'.Shaped() && r'.reader == r.reader && r'.cursor == r.cursor
    requires r.capacity == r'.capacity && r.attempts <= r'.attempts && r.chosen <= r'.chosen && r.Head() <= r'.Head()
    ensures CopyOk(r')
  {
    var c := r.reader;
    forall k | 0 <= k < |c.seen|
      ensures SlotLoaded(r', r.Start() + k, c.seen[k], c.top)
    {
      assert SlotLoaded(r, r.Start() + k, c.seen[k], c.top);
      LoadedStays(r, r', r.Start() + k, c.seen[k].timestamp, c.top);
      LoadedStays(r, r', r.Start() + k, c.seen[k].point, c.top);
      LoadedStays(r, r', r.Start() + k, c.seen[k].event, c.top);
    }
    if c.field > 0 {
      LoadedStays(r, r', r.At(), c.partial.timestamp, c.top);
    }
    if c.field > 1 {
      LoadedStays(r, r', r.At(), c.partial.point, c.top);
    }
  }

  lemma ProducerKeeps(r: Ring, step: Step)
    requires Inv(r) && Allowed(r, step)
    requires step.BeginPublish? || step.StoreField? || step.StoreHead? || step.Abandon?
    ensures Inv(Do(r, step))
  {
    var r' := Do(r, step);
    assert r'.Shaped();
    GrownKeeps(r, r');
  }

  /** What has been published, begun, loaded and taken stays so while the producers go on. */
  lemma GrownKeeps(r: Ring, r': Ring)
    requires Inv(r) && r'.Shaped()
    requires r'.reader == r.reader && r'.cursor == r.cursor && r'.lost == r.lost && r'.capacity == r.capacity
    requires r'.taken == r.taken && r'.takenAt == r.takenAt
    requires r.attempts <= r'.attempts && r.chosen <= r'.chosen && r.published <= r'.published
    ensures Inv(r')
  {
    match r.reader
    case Resting =>
    case Copying(_, _, _, _, _, _) => CopyStays(r, r');
    case Holding(batch) => assert batch == r'.published[r.cursor..r.cursor + |batch|];
  }

  lemma LoadKeeps(r: Ring, n: nat)
    requires Inv(r) && Allowed(r, LoadField(n))
    ensures Inv(Do(r, LoadField(n)))
  {
    var top := AfterLoad(r.reader, n, r.attempts[n].index).top;
    assert Loaded(r, r.At(), n, top);
    if r.reader.field == 0 {
      FirstLoadKeeps(r, n, top);
    } else if r.reader.field == 1 {
      NextLoadKeeps(r, n, top);
    } else {
      LastLoadKeeps(r, n, top);
    }
  }

  lemma FirstLoadKeeps(r: Ring, n: nat, top: nat)
    requires Inv(r) && r.reader.Copying? && r.reader.field == 0 && r.reader.top <= top <= r.Head()
    requires r.At() < r.End() && Loaded(r, r.At(), n, top)
    ensures CopyOk(r.(reader := r.reader.(field := 1, partial := Seen(n, n, n), top := top)))
  {
    SlotsRaised(r, top);
  }

  lemma NextLoadKeeps(r: Ring, n: nat, top: nat)
    requires Inv(r) && r.reader.Copying? && r.reader.field == 1 && r.reader.top <= top <= r.Head()
    requires Loaded(r, r.At(), n, top)
    ensures CopyOk(r.(reader := r.reader.(field := 2, partial := r.reader.partial.(point := n), top := top)))
  {
    SlotsRaised(r, top);
  }

  /** The load that completes a slot. */
  lemma LastLoadKeeps(r: Ring, n: nat, top: nat)
    requires Inv(r) && r.reader.Copying? && r.reader.field == 2 && r.reader.top <= top <= r.Head()
    requires Loaded(r, r.At(), n, top)
    ensures var c := r.reader;
      CopyOk(r.(reader := c.(field := 0, seen := c.seen + [c.partial.(event := n)], top := top)))
  {
    SlotCopied(r, r.reader.partial.(event := n), top);
  }

  lemma SlotsRaised(r: Ring, top: nat)
    requires Inv(r) && r.reader.Copying? && r.reader.top <= top
    ensures forall k :: 0 <= k < |r.reader.seen| ==> SlotLoaded(r, r.Start() + k, r.reader.seen[k], top)
  {
    forall k | 0 <= k < |r.reader.seen|
      ensures SlotLoaded(r, r.Start() + k, r.reader.seen[k], top)
    {
      assert SlotLoaded(r, r.Start() + k, r.reader.seen[k], r.reader.top);
    }
  }

  lemma SlotCopied(r: Ring, s: Seen, top: nat)
    requires Inv(r) && r.reader.Copying? && r.reader.top <= top && SlotLoaded(r, r.At(), s, top)
    ensures var seen := r.reader.seen + [s];
      forall k :: 0 <= k < |seen| ==> SlotLoaded(r, r.Start() + k, seen[k], top)
  {
    SlotsRaised(r, top);
  }

  lemma StepKeeps(r: Ring, step: Step)
    requires Inv(r) && Allowed(r, step)
    ensures Inv(Do(r, step))
  {
    match step
    case BeginPublish(_) => ProducerKeeps(r, step);
    case StoreField => ProducerKeeps(r, step);
    case StoreHead => ProducerKeeps(r, step);
    case Abandon => ProducerKeeps(r, step);
    case LoadHead(_, _) =>
    case LoadField(n) => LoadKeeps(r, n);
    case ReloadHead(h2) => ReloadKeeps(r, h2);
    case Take(n) => TakeKeeps(r, n);
  }

  lemma TakeKeeps(r: Ring, n: nat)
    requires Inv(r) && Allowed(r, Take(n))
    ensures Inv(Do(r, Take(n)))
  {
  }

  // ---- Whole runs ---------------------------------------------------------

  ghost predicate Init(r: Ring) {
    && r.capacity > 1 && |r.slots| == r.capacity
    && r.attempts == [] && r.published == [] && r.chosen == [] && r.producer == Idle
    && r.reader == Resting && r.cursor == 0 && r.lost == 0 && r.taken == [] && r.takenAt == []
  }

  /** The steps lead from one state to the other, whoever takes each of them. */
  ghost predicate Reaches(r: Ring, steps: seq<Step>, end: Ring)
    requires Inv(r)
    decreases |steps|
  {
    if steps == [] then end == r
    else Allowed(r, steps[0]) && (StepKeeps(r, steps[0]); Reaches(Do(r, steps[0]), steps[1..], end))
  }

  lemma {:induction false} RunKeeps(r: Ring, steps: seq<Step>, end: Ring)
    requires Inv(r) && Reaches(r, steps, end)
    ensures Inv(end) && (MemoryOk(r) ==> MemoryOk(end))
    decreases |steps|
  {
    if steps == [] {
    } else {
      StepKeeps(r, steps[0]);
      if MemoryOk(r) {
        MemoryKeeps(r, steps[0]);
      }
      RunKeeps(Do(r, steps[0]), steps[1..], end);
    }
  }

  lemma InitOk(r: Ring)
    requires Init(r)
    ensures Inv(r) && MemoryOk(r)
  {
  }

  /** In every run of an empty ring, whatever the interleaving of the producers' stores with the reader's
      loads and wherever producers die, a batch is the run of published samples starting at the cursor, and
      what was taken is what was published. */
  lemma EveryBatchIsPublished(r: Ring, steps: seq<Step>, end: Ring)
    requires Init(r) && (InitOk(r); Reaches(r, steps, end))
    ensures end.reader.Holding? ==> BatchOk(end)
    ensures TakenOk(end)
  {
    InitOk(r);
    RunKeeps(r, steps, end);
  }

  // ---- The rule admits real memory ----------------------------------------

  /** What the stores have left in the slots: the newest capacity - 1 samples whole, and in the next slot
      each field from some attempt at the head or, failing that, from a lap before. */
  ghost predicate MemoryOk(r: Ring)
    requires r.Shaped()
  {
    && (forall i {:trigger r.published[i]} :: 0 <= i < r.Head() < i + r.capacity ==>
          r.slots[i % r.capacity] == r.published[i])
    && (forall f :: 0 <= f < 3 ==> LeftBy(r, f))
    && (r.producer.Storing? ==> forall f :: 0 <= f < r.producer.fields ==> StoredNow(r, f))
  }

  /** Field f of the next slot is attempt n's. */
  ghost predicate StoredBy(r: Ring, f: nat, n: nat)
    requires r.Shaped()
  {
    && n < |r.attempts| && r.attempts[n].index == r.Head()
    && Field(r.slots[r.Head() % r.capacity], f) == Field(r.attempts[n].sample, f)
  }

  /** Field f of the next slot is the newest attempt's. */
  ghost predicate StoredNow(r: Ring, f: nat)
    requires r.Shaped() && r.attempts != []
  {
    StoredBy(r, f, |r.attempts| - 1)
  }

  ghost predicate LeftBy(r: Ring, f: nat)
    requires r.Shaped()
  {
    || (exists n: nat :: StoredBy(r, f, n))
    || (r.Head() >= r.capacity ==>
          Field(r.slots[r.Head() % r.capacity], f) == Field(r.published[r.Head() - r.capacity], f))
  }

  lemma MemoryKeeps(r: Ring, step: Step)
    requires Inv(r) && Allowed(r, step) && MemoryOk(r)
    ensures Inv(Do(r, step)) && MemoryOk(Do(r, step))
  {
    StepKeeps(r, step);
    var r' := Do(r, step);
    match step
    case BeginPublish(_) => SlotStays(r, r');
    case StoreField => FieldStored(r);
    case StoreHead => HeadStored(r);
    case _ => SlotStays(r, r');
  }

  /** Nothing stored, and no fewer attempts. */
  lemma SlotStays(r: Ring, r': Ring)
    requires r.Shaped() && r'.Shaped() && MemoryOk(r)
    requires r'.slots == r.slots && r'.capacity == r.capacity && r'.published == r.published
    requires r.attempts <= r'.attempts
    requires r'.producer.Storing? && r'.producer.fields > 0 ==>
               r'.producer == r.producer && r'.attempts == r.attempts
    ensures MemoryOk(r')
  {
    forall f | 0 <= f < 3
      ensures LeftBy(r', f)
    {
      assert LeftBy(r, f);
      if n: nat :| StoredBy(r, f, n) {
        assert StoredBy(r', f, n);
      }
    }
    if r'.producer.Storing? {
      forall f | 0 <= f < r'.producer.fields
        ensures StoredNow(r', f)
      {
        assert StoredNow(r, f);
      }
    }
  }

  lemma FieldStored(r: Ring)
    requires Inv(r) && Allowed(r, StoreField) && MemoryOk(r)
    ensures Do(r, StoreField).Shaped() && MemoryOk(Do(r, StoreField))
  {
    var r' := Do(r, StoreField);
    forall i {:trigger r.published[i]} | 0 <= i < r.Head() < i + r.capacity
      ensures r'.slots[i % r.capacity] == r.published[i]
    {
      ModApart(i, r.Head(), r.capacity);
    }
    var k := r.producer.fields;
    assert StoredNow(r', k);
    forall f | 0 <= f < 3 && f != k
      ensures LeftBy(r', f) && (f < k ==> StoredNow(r', f))
    {
      assert Field(r'.slots[r.Head() % r.capacity], f) == Field(r.slots[r.Head() % r.capacity], f);
      assert LeftBy(r, f) && (f < k ==> StoredNow(r, f));
      if n: nat :| StoredBy(r, f, n) {
        assert StoredBy(r', f, n);
      }
    }
  }

  lemma HeadStored(r: Ring)
    requires Inv(r) && Allowed(r, StoreHead) && MemoryOk(r)
    ensures Do(r, StoreHead).Shaped() && MemoryOk(Do(r, StoreHead))
  {
    var r' := Do(r, StoreHead);
    var last, at := |r.attempts| - 1, r.slots[r.Head() % r.capacity];
    assert StoredNow(r, 0) && StoredNow(r, 1) && StoredNow(r, 2);
    assert at == r.attempts[last].sample;
    forall i {:trigger r'.published[i]} | 0 <= i < r'.Head() <= i + r.capacity
      ensures r'.slots[i % r.capacity] == r'.published[i]
    {
      assert i < r.Head() ==> r'.published[i] == r.published[i];
    }
    NextSlotIsOld(r');
  }

  /** With the newest capacity samples whole, the next slot still has what a lap before left in it. */
  lemma NextSlotIsOld(r: Ring)
    requires r.Shaped()
    requires forall i {:trigger r.published[i]} :: 0 <= i < r.Head() <= i + r.capacity ==>
               r.slots[i % r.capacity] == r.published[i]
    ensures forall f :: 0 <= f < 3 ==> LeftBy(r, f)
  {
    if r.Head() >= r.capacity {
      var i := r.Head() - r.capacity;
      ModShift(r.Head(), r.capacity);
      assert r.slots[i % r.capacity] == r.published[i];
    }
  }

  /** The last index of the slot of i that is at most h. */
  function Newest(i: nat, h: nat, capacity: nat): (g: nat)
    requires capacity > 0 && i <= h
    ensures i <= g <= h < g + capacity && (g - i) % capacity == 0 && g % capacity == i % capacity
    decreases h - i
  {
    if h < i + capacity then i
    else
      ModShift(i + capacity, capacity);
      var g := Newest(i + capacity, h, capacity);
      ModShift(g - i, capacity);
      g
  }

  /** A plain load of the slot of a published index, straight from memory in the middle of whatever the
      producers are doing or have left undone, is one the read rule allows. */
  lemma PlainLoadAllowed(r: Ring, i: nat, f: nat) returns (n: nat)
    requires Inv(r) && MemoryOk(r) && i < r.Head() && f < 3
    ensures MayLoad(r.attempts, r.chosen, r.capacity, i, n)
    ensures Field(r.slots[i % r.capacity], f) == Field(r.attempts[n].sample, f)
  {
    var g := Newest(i, r.Head(), r.capacity);
    assert LeftBy(r, f);
    if g < r.Head() {
      assert r.slots[g % r.capacity] == r.published[g];
      n := r.chosen[g];
    } else if stored: nat :| StoredBy(r, f, stored) {
      n := stored;
    } else {
      NewerIsALap(i, g, r.capacity);
      ModShift(g - i, r.capacity);
      n := r.chosen[g - r.capacity];
    }
  }

  /** The reader can always go on: to its next load, or to the second head read. */
  lemma ReaderNeverStuck(r: Ring) returns (step: Step)
    requires Inv(r) && MemoryOk(r) && r.reader.Copying?
    ensures (step.LoadField? || step.ReloadHead?) && Allowed(r, step)
  {
    if r.At() < r.End() {
      var n := PlainLoadAllowed(r, r.At(), r.reader.field);
      step := LoadField(n);
    } else {
      step := ReloadHead(r.Head());
    }
  }
}

/** The two halves of a ring as they are coded, with the other side free to run between any two
    memory accesses. */
module RingCode {
  import opened Stamps
  import opened RingReads
  import opened ThreadRings

  /** A ring as both sides see it: every publish begun, and the samples published, as many as the head
      says. */
  class SharedRing {
    const capacity: nat
    var attempts: seq<Attempt>
    var published: seq<Sample>
    var chosen: seq<nat>

    ghost predicate Valid()
      reads this
    {
      capacity > 1 && HistoryOk(attempts, published, chosen)
    }

    twostate predicate Advanced()
      reads this
    {
      old(attempts) <= attempts && old(published) <= published && old(chosen) <= chosen
    }

    /** A publish begins, at the head. */
    method Begin(s: Sample)
      requires Valid()
      modifies this`attempts
      ensures Valid() && attempts == old(attempts) + [Attempt(|published|, s)]
    {
      attempts := attempts + [Attempt(|published|, s)];
    }

    /** The head store of the newest attempt. */
    method StoreHead()
      requires Valid() && UnderWay(attempts, |published|)
      modifies this`published, this`chosen
      ensures Valid() && published == old(published) + [attempts[|attempts| - 1].sample]
      ensures chosen == old(chosen) + [|attempts| - 1]
    {
      published, chosen := published + [attempts[|attempts| - 1].sample], chosen + [|attempts| - 1];
    }

    /** The producer of the moment runs for as long as it likes; another may take its place at any point. */
    method ProducerRuns()
      requires Valid()
      modifies this
      ensures Valid() && Advanced()
    {
      var actions: int := *;
      while actions > 0
        invariant Valid() && Advanced()
      {
        actions := actions - 1;
        var begins: bool := *;
        if begins {
          var s: Sample := *;
          Begin(s);
        } else if UnderWay(attempts, |published|) {
          StoreHead();
        }
      }
    }

    /** One field load from the slot of a published index, under the read rule. */
    method LoadField(i: nat, f: nat) returns (value: nat, n: nat)
      requires Valid() && i < |published| && f < 3
      modifies this
      ensures Valid() && Advanced()
      ensures MayLoad(attempts, chosen, capacity, i, n) && value == Field(attempts[n].sample, f)
    {
      ProducerRuns();
      assert MayLoad(attempts, chosen, capacity, i, chosen[i]);
      n :| 0 <= n && MayLoad(attempts, chosen, capacity, i, n);
      assert MayLoad(attempts, chosen, capacity, i, n);
      value := Field(attempts[n].sample, f);
    }
  }

  /** Copy up to maxN samples from the cursor, then discard what the producer may have reached.
      The batch is what was published from `first` on, whatever the producer did meanwhile. */
  method RingRead(r: SharedRing, cursor: nat, maxN: nat)
    returns (first: nat, batch: seq<Sample>, skipped: nat, ghost h: nat, ghost h2: nat)
    requires r.Valid() && cursor <= |r.published|
    modifies r
    ensures r.Valid() && r.Advanced() && |old(r.published)| <= h <= h2 <= |r.published|
    ensures first == KeptBy(cursor, maxN, h, h2, r.capacity - 1).first
    ensures skipped == first - cursor
    ensures var end := KeptBy(cursor, maxN, h, h2, r.capacity - 1).end;
      end <= |r.published| && batch == r.published[first..end]
  {
    r.ProducerRuns();
    var seen := |r.published|;
    h, h2 := seen, seen;
    if seen <= cursor || maxN == 0 {
      return cursor, [], 0, seen, seen;
    }
    var start := CopyStart(cursor, seen, r.capacity - 1);
    var end := CopyEnd(cursor, maxN, seen, r.capacity - 1);
    var scratch, top := CopySlots(r, start, end);
    r.ProducerRuns();
    var again: nat :| seen <= again <= |r.published| && top <= again;
    var valid := FirstIntact(again, r.capacity - 1);
    first := if valid > start then (if valid < end then valid else end) else start;
    batch := scratch[first - start..];
    assert forall j :: first - start <= j < |scratch| ==> scratch[j] == r.published[start + j];
    SameFrom(scratch, start, r.published, first);
    skipped, h2 := first - cursor, again;
  }

  /** Copy the slots of [start, end), one after the other; `top` is the newest index met. */
  method CopySlots(r: SharedRing, start: nat, end: nat) returns (scratch: seq<Sample>, top: nat)
    requires r.Valid() && start <= end <= |r.published|
    modifies r
    ensures r.Valid() && r.Advanced() && top <= |r.published| && |scratch| == end - start
    ensures Intact(scratch, start, r.published, top, r.capacity)
  {
    scratch, top := [], 0;
    for i := start to end
      invariant r.Valid() && r.Advanced() && top <= |r.published| && |scratch| == i - start
      invariant Intact(scratch, start, r.published, top, r.capacity)
    {
      var s, from := LoadSample(r, i);
      scratch := scratch + [s];
      var newest := NewestOf(r.attempts, from);
      top := if newest > top then newest else top;
    }
  }

  /** Every copied sample is the published one, unless some load had met an index that laps it. */
  ghost predicate Intact(scratch: seq<Sample>, start: nat, published: seq<Sample>, top: nat, capacity: nat) {
    start + |scratch| <= |published|
    && forall j :: 0 <= j < |scratch| && top < start + j + capacity ==> scratch[j] == published[start + j]
  }

  /** The newest index three loads met. */
  function NewestOf(attempts: seq<Attempt>, s: Seen): (top: nat)
    requires SeenBegun(attempts, s)
  {
    var a, b, c := attempts[s.timestamp].index, attempts[s.point].index, attempts[s.event].index;
    if a >= b && a >= c then a else if b >= c then b else c
  }

  /** Three field loads of one slot, each of an attempt the read rule allows. If none met a later lap, the
      sample is the one published. */
  method LoadSample(r: SharedRing, i: nat) returns (s: Sample, from: Seen)
    requires r.Valid() && i < |r.published|
    modifies r
    ensures r.Valid() && r.Advanced() && SeenBegun(r.attempts, from)
    ensures MayLoad(r.attempts, r.chosen, r.capacity, i, from.timestamp)
    ensures MayLoad(r.attempts, r.chosen, r.capacity, i, from.point)
    ensures MayLoad(r.attempts, r.chosen, r.capacity, i, from.event)
    ensures s == Assembled(r.attempts, from)
    ensures NewestOf(r.attempts, from) < i + r.capacity ==> s == r.published[i]
  {
    var ts, a := r.LoadField(i, 0);
    var pt, b := r.LoadField(i, 1);
    var ev, c := r.LoadField(i, 2);
    s, from := Sample(ts, pt, ev), Seen(a, b, c);
    NewerIsALap(i, r.attempts[a].index, r.capacity);
    NewerIsALap(i, r.attempts[b].index, r.capacity);
    NewerIsALap(i, r.attempts[c].index, r.capacity);
    assert r.attempts[r.chosen[i]] == Attempt(i, r.published[i]);
  }

  /** What a thread publishes through; `next` saves it from loading the head. */
  class RingWriter {
    var ring: SharedRing
    var next: nat

    /** Between publishes the writer's copy is the head. */
    ghost predicate Valid()
      reads this, ring
    {
      ring.Valid() && next == |ring.published|
    }

    /** Take a ring over at its head, whatever the owner before was in the middle of. */
    constructor (r: SharedRing)
      requires r.Valid()
      ensures Valid() && ring == r
    {
      ring, next := r, |r.published|;
    }

    method Publish(payload: nat, point: nat, event: nat)
      requires Valid()
      modifies this`next, ring
      ensures Valid() && ring == old(ring) && next == old(next) + 1
      ensures ring.attempts == old(ring.attempts) + [Attempt(old(next), Sample(payload, point, event))]
      ensures ring.published == old(ring.published) + [Sample(payload, point, event)]
      ensures ring.chosen == old(ring.chosen) + [|old(ring.attempts)|]
    {
      ring.Begin(Sample(payload, point, event));
      next := next + 1;
      ring.StoreHead();
    }
  }
}
