/** The key packing the pairer's tables are indexed by. */
module PairKeys {
  import opened Stamps

  function SpanKey(point: nat, sq: nat): nat {
    point * 0x1_0000_0000 + sq % (MAX_SEQ + 1)
  }

  function SpanPoint(key: nat): nat {
    key / 0x1_0000_0000
  }

  function StageKey(point: nat, from: nat, to: nat): nat {
    point * 0x1_0000 + from * 0x100 + to
  }

  /** The synthetic begin-to-end stage of a point. */
  function TotalKey(point: nat): nat {
    point * 0x1_0000
  }

  /** One key per point and sequence number, and the point can be read back. */
  lemma SpanKeyUnique(p: nat, a: nat, q: nat, b: nat)
    ensures SpanPoint(SpanKey(p, a)) == p
    ensures SpanKey(p, a) == SpanKey(q, b) <==> p == q && a % (MAX_SEQ + 1) == b % (MAX_SEQ + 1)
  {
  }

  /** One key per transition; a transition that ends on a real step never collides with the total. */
  lemma StageKeyUnique(p: nat, from: nat, to: nat, q: nat, from': nat, to': nat)
    requires from < 256 && to < 256 && from' < 256 && to' < 256
    ensures StageKey(p, from, to) == StageKey(q, from', to') <==> p == q && from == from' && to == to'
    ensures to != BEGIN_STEP ==> StageKey(p, from, to) != TotalKey(q)
  {
  }
}

/** What the pairer does with one input, as a function of its state. The only freedom is in the order
    a table is walked in, which each input names. */
module PairingSpec {
  import opened Stamps
  import opened PairKeys
  import opened Anomalies
  import opened OpenMaps

  datatype OpenSpan = OpenSpan(start: nat, last: nat, seen: nat, transitions: nat, lastStep: nat)

  /** A measured transition, with the values recorded since the last flush and before it. */
  datatype Stage = Stage(point: nat, from: nat, to: nat, interval: seq<nat>, cumulative: seq<nat>)

  /** A span nominated for eviction, with the touch that made it old. */
  datatype Candidate = Candidate(key: nat, seen: nat)

  datatype State = State(
    spans: map<nat, OpenSpan>, maxSpans: nat,
    stages: map<nat, Stage>, maxStages: nat,
    log: Log,
    overhead: nat, peak: nat,
    queue: seq<Candidate>, next: nat, batch: nat)
  {
    /** The anomaly counters: the table the history of anomalies has filled. */
    function Counters(): Table {
      After(maxStages, log)
    }
  }

  /** How one eviction went: the span dropped, and the queue it left. */
  datatype Choice = Choice(key: nat, queue: seq<Candidate>, next: nat)

  datatype Input =
    | Event(s: Sample, choice: Choice)
    | Sweep(now: nat, maxAge: nat, order: seq<nat>)
    | AbandonAll(order: seq<nat>)
    | ClearIntervals

  // ---- Recording ----------------------------------------------------------

  /** One measurement on its way to a stage; `transitions` is how many stamp intervals it spans. */
  datatype Rec = Rec(point: nat, from: nat, to: nat, cycles: nat, transitions: nat)

  /** A measurement less the cost of the stamps it spans, never below zero. */
  function Corrected(overhead: nat, cycles: nat, transitions: nat): nat {
    if cycles > overhead * transitions then cycles - overhead * transitions else 0
  }

  function Anomaly(st: State, p: nat, k: Kind): State {
    st.(log := st.log + [(p, k)])
  }

  function Record(st: State, r: Rec): State {
    var key := StageKey(r.point, r.from, r.to);
    var stages := Inserted(st.stages, st.maxStages, key, Stage(r.point, r.from, r.to, [], []));
    if key in stages then
      var g := stages[key];
      st.(stages := stages[key := g.(interval := g.interval + [Corrected(st.overhead, r.cycles, r.transitions)])])
    else Anomaly(st, r.point, OutOfRange)
  }

  function RecordAll(st: State, rs: seq<Rec>): State {
    if rs == [] then st else Record(RecordAll(st, rs[..|rs| - 1]), rs[|rs| - 1])
  }

  /** The measurements a stamp on an open span completes: its own transition, unless it ends a span
      that had none before, and at the end the total over all of them. */
  function Measured(s: Sample, sp: OpenSpan): seq<Rec>
    requires sp.start <= sp.last <= s.timestamp
  {
    var step := StepOf(s.event);
    var last := Rec(s.point, sp.lastStep, step, s.timestamp - sp.last, 1);
    if step != END_STEP then [last]
    else
      var total := Rec(s.point, BEGIN_STEP, BEGIN_STEP, s.timestamp - sp.start, sp.transitions + 1);
      if sp.lastStep != BEGIN_STEP then [last, total] else [total]
  }

  // ---- Eviction -----------------------------------------------------------

  /** Still open, and not touched since it was nominated. */
  predicate Live(spans: map<nat, OpenSpan>, c: Candidate) {
    c.key in spans && spans[c.key].seen == c.seen
  }

  /** What a scan of the table may leave in the queue: the oldest `batch` spans, oldest first. */
  ghost predicate Refilled(spans: map<nat, OpenSpan>, batch: nat, q: seq<Candidate>) {
    && |q| == (if |spans| < batch then |spans| else batch)
    && (forall i :: 0 <= i < |q| ==> Live(spans, q[i]))
    && (forall i, j :: 0 <= i < j < |q| ==> q[i].seen <= q[j].seen && q[i].key != q[j].key)
    && (forall k, j :: k in spans && 0 <= j < |q| && Candidate(k, spans[k].seen) !in q
          ==> q[j].seen <= spans[k].seen)
  }

  /** Candidate i is the first in the queue, from `next` on, that is still live. */
  ghost predicate FirstLive(st: State, i: nat) {
    && st.next <= i < |st.queue| && Live(st.spans, st.queue[i])
    && forall j :: st.next <= j < i ==> !Live(st.spans, st.queue[j])
  }

  ghost predicate NoneLive(st: State) {
    forall j :: st.next <= j < |st.queue| ==> !Live(st.spans, st.queue[j])
  }

  /** What an eviction may do: take the first live candidate, or, when none is left, the first of a
      fresh queue. */
  ghost predicate MayEvict(st: State, c: Choice) {
    || (exists i: nat :: FirstLive(st, i) && c == Choice(st.queue[i].key, st.queue, i + 1))
    || (NoneLive(st) && Refilled(st.spans, st.batch, c.queue) && c.queue != []
        && c.key == c.queue[0].key && c.next == 1)
  }

  function Evicted(st: State, c: Choice): State {
    Anomaly(st, SpanPoint(c.key), Abandoned).(spans := st.spans - {c.key}, queue := c.queue, next := c.next)
  }

  // ---- Steps --------------------------------------------------------------

  function Fresh(s: Sample): OpenSpan {
    OpenSpan(s.timestamp, s.timestamp, s.timestamp, 0, BEGIN_STEP)
  }

  function KeyOf(s: Sample): nat {
    SpanKey(s.point, SeqOf(s.event))
  }

  predicate NeedsRoom(st: State, s: Sample) {
    StepOf(s.event) == BEGIN_STEP && KeyOf(s) !in st.spans && |st.spans| >= st.maxSpans
  }

  function Begun(st: State, s: Sample, c: Choice): State {
    var key := KeyOf(s);
    if key in st.spans then Anomaly(st, s.point, Abandoned).(spans := st.spans[key := Fresh(s)])
    else
      var room := if |st.spans| >= st.maxSpans then Evicted(st, c) else st;
      var spans := Inserted(room.spans, st.maxSpans, key, Fresh(s));
      room.(spans := spans, peak := if |spans| > room.peak then |spans| else room.peak)
  }

  /** A span the pairer holds: its stamps were in order. */
  predicate Ordered(sp: OpenSpan) {
    sp.start <= sp.last == sp.seen
  }

  predicate SpansOk(spans: map<nat, OpenSpan>) {
    forall k :: k in spans ==> Ordered(spans[k])
  }

  function Touched(s: Sample, sp: OpenSpan): OpenSpan {
    sp.(last := s.timestamp, seen := s.timestamp, lastStep := StepOf(s.event), transitions := sp.transitions + 1)
  }

  function OnEvent(st: State, s: Sample, c: Choice): State
    requires SpansOk(st.spans)
  {
    var step, key := StepOf(s.event), KeyOf(s);
    if step == VALUE_STEP then Record(st, Rec(s.point, VALUE_STEP, VALUE_STEP, s.timestamp, 0))
    else if step == BEGIN_STEP then Begun(st, s, c)
    else if key !in st.spans then Anomaly(st, s.point, Orphan)
    else if s.timestamp < st.spans[key].last then
      Anomaly(st, s.point, Invalid).(spans := st.spans - {key})
    else
      assert Ordered(st.spans[key]);
      var recorded := RecordAll(st, Measured(s, st.spans[key]));
      recorded.(spans := if step == END_STEP then st.spans - {key}
                         else st.spans[key := Touched(s, st.spans[key])])
  }

  /** Whether pairing a stamp next would be clean: a begin with its span closed, or a step or end
      with it open. */
  predicate PairsCleanly(spans: map<nat, OpenSpan>, s: Sample) {
    (StepOf(s.event) == BEGIN_STEP) != (KeyOf(s) in spans)
  }

  predicate Expired(sp: OpenSpan, now: nat, maxAge: nat) {
    maxAge != 0 && now > sp.seen && now - sp.seen > maxAge
  }

  ghost function ExpiredKeys(spans: map<nat, OpenSpan>, now: nat, maxAge: nat): set<nat> {
    set k | k in spans && Expired(spans[k], now, maxAge)
  }

  function AbandonEach(order: seq<nat>): Log {
    seq(|order|, i requires 0 <= i < |order| => (SpanPoint(order[i]), Abandoned))
  }

  ghost function Step(st: State, inp: Input): State
    requires SpansOk(st.spans)
  {
    match inp
    case Event(s, c) => OnEvent(st, s, c)
    case Sweep(now, maxAge, order) =>
      st.(spans := st.spans - ExpiredKeys(st.spans, now, maxAge), log := st.log + AbandonEach(order))
    case AbandonAll(order) =>
      st.(spans := map[], log := st.log + AbandonEach(order), queue := [], next := 0)
    case ClearIntervals =>
      st.(stages := map k | k in st.stages :: st.stages[k].(interval := []))
  }

  /** Which of the choices an input names the pairer could have made. */
  ghost predicate Allowed(st: State, inp: Input) {
    match inp
    case Event(s, c) => NeedsRoom(st, s) ==> MayEvict(st, c)
    case Sweep(now, maxAge, order) => Enumerates(order, ExpiredKeys(st.spans, now, maxAge))
    case AbandonAll(order) => Enumerates(order, st.spans.Keys)
    case ClearIntervals => true
  }

  ghost predicate Sized(st: State) {
    && st.maxSpans > 0 && st.maxStages > 0 && st.batch > 0
    && |st.spans| <= st.maxSpans && |st.stages| <= st.maxStages
    && st.next <= |st.queue|
  }

  ghost predicate Inv(st: State) {
    Sized(st) && SpansOk(st.spans)
  }

  ghost predicate Init(st: State) {
    && st.maxSpans > 0 && st.maxStages > 0 && st.batch > 0
    && st.spans == map[] && st.stages == map[] && st.log == [] && st.queue == [] && st.next == 0 && st.peak == 0
  }
}
