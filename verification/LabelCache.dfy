/** The collector's cache of resolved labels, beside publishers that may land a name at any moment. */
module LabelCaches {
  import opened Options
  import opened Stamps
  import opened NameTables

  const VALUE_LABEL := "value"
  const TOTAL_LABEL := "total"

  type PointId = n: nat | n < 0x1_0000_0000
  type StepId = n: nat | n < 0x100

  /** What a row is labelled by: its point, or the transition its stage ends. */
  datatype Label = PointLabel(point: PointId) | StageLabel(point: PointId, from: StepId, to: StepId)

  function Decimal(n: nat): string {
    if n < 10 then [Digit(n)] else Decimal(n / 10) + [Digit(n % 10)]
  }

  function Digit(d: nat): char
    requires d < 10
  {
    "0123456789"[d]
  }

  /** Labels the name table has no say in. */
  predicate Fixed(q: Label) {
    q.StageLabel? && ((q.from == BEGIN_STEP && q.to == BEGIN_STEP) || (q.from == VALUE_STEP && q.to == VALUE_STEP))
  }

  /** What the slot that names a label would hold: its key plus one. */
  function WantOf(q: Label): (want: nat)
    ensures IsPublished(want)
  {
    var step := if q.PointLabel? then BEGIN_STEP else q.to;
    NameKeyUnique(q.point, step, q.point, step);
    NameKey(q.point, step) + 1
  }

  /** The label for what the lookup found, "" being nothing. A stage that is not a value's is never
      labelled as one. */
  function Text(q: Label, name: string): string {
    match q
    case PointLabel(p) => if name == "" then "point_" + Decimal(p) else name
    case StageLabel(_, from, to) =>
      if from == BEGIN_STEP && to == BEGIN_STEP then TOTAL_LABEL
      else if from == VALUE_STEP && to == VALUE_STEP then VALUE_LABEL
      else if name == "" || name == VALUE_LABEL then "step_" + Decimal(from) + "->" + Decimal(to)
      else name
  }

  /** What a lookup over the slots from i on finds, all at once. */
  function NameFrom(st: State, want: nat, i: nat): string
    requires Shaped(st) && i <= |st.words|
    decreases |st.words| - i
  {
    if i == |st.words| then ""
    else if st.words[i] == want then CString(st.names[i])
    else NameFrom(st, want, i + 1)
  }

  /** What a label resolves to now. */
  function Resolve(st: State, q: Label): string
    requires Shaped(st)
  {
    Text(q, NameFrom(st, WantOf(q), 0))
  }

  /** The text is the name in the slot that holds this word; without one, or when that name is refused, it is
      the stand-in. */
  ghost predicate NamedOr(st: State, word: nat, refused: set<string>, standIn: string, text: string)
    requires Shaped(st)
  {
    && (forall i :: 0 <= i < |st.words| && st.words[i] == word ==>
          text == if CString(st.names[i]) in refused then standIn else CString(st.names[i]))
    && ((forall i :: 0 <= i < |st.words| ==> st.words[i] != word) ==> text == standIn)
  }

  /** The text to show: a point by its own name, a stage by the step it ends on. The step from begin to begin
      is the whole span; a stage that is not a value's is never labelled as one. */
  ghost predicate Shown(st: State, q: Label, text: string)
    requires Shaped(st)
  {
    match q
    case PointLabel(p) => NamedOr(st, NameKey(p, BEGIN_STEP) + 1, {""}, "point_" + Decimal(p), text)
    case StageLabel(p, from, to) =>
      if from == BEGIN_STEP == to then text == "total"
      else if from == VALUE_STEP == to then text == "value"
      else NamedOr(st, NameKey(p, to) + 1, {"", "value"}, "step_" + Decimal(from) + "->" + Decimal(to), text)
  }

  /** Nobody is between storing the key of this label and announcing it. */
  predicate Quiet(st: State, q: Label) {
    match q
    case PointLabel(p) => NoneAnnouncing(st, NameKey(p, BEGIN_STEP) + 1)
    case StageLabel(p, _, to) => NoneAnnouncing(st, NameKey(p, to) + 1)
  }

  lemma ResolveShows(st: State, q: Label)
    requires Shaped(st) && OneSlotEach(st.words)
    ensures Shown(st, q, Resolve(st, q))
  {
    var want := WantOf(q);
    if j :| 0 <= j < |st.words| && st.words[j] == want {
      OnlyOneNames(st, want, j, 0);
      forall i | 0 <= i < |st.words| && st.words[i] == want
        ensures CString(st.names[i]) == NameFrom(st, want, 0)
      {
        OnlyOneNames(st, want, i, 0);
      }
    } else {
      NobodyNames(st, want, 0);
    }
  }

  /** The number a string of digits stands for. */
  function NumberOf(digits: string): nat
    requires forall i :: 0 <= i < |digits| ==> '0' <= digits[i] <= '9'
  {
    if digits == "" then 0
    else NumberOf(digits[..|digits| - 1]) * 10 + (digits[|digits| - 1] - '0') as nat
  }

  /** A number is written in digits that read back as it, without a leading zero. */
  lemma {:induction false} DecimalReads(n: nat)
    ensures Decimal(n) != "" && (forall i :: 0 <= i < |Decimal(n)| ==> '0' <= Decimal(n)[i] <= '9')
    ensures NumberOf(Decimal(n)) == n
    ensures Decimal(n)[0] == '0' ==> n == 0 && Decimal(n) == "0"
  {
    DigitReads(n % 10);
    if n >= 10 {
      DecimalReads(n / 10);
      assert Decimal(n)[..|Decimal(n)| - 1] == Decimal(n / 10);
    } else {
      assert Decimal(n)[..0] == "";
    }
  }

  lemma DigitReads(d: nat)
    requires d < 10
    ensures '0' <= Digit(d) <= '9' && (Digit(d) - '0') as nat == d
  {
  }

  /** What the collector is doing: nothing, looking at a slot for a label, or copying the name it found. */
  datatype Task = Idle | Looking(q: Label, at: nat) | Reading(q: Label, at: nat, read: string)

  datatype Collector = Collector(cached: map<Label, string>, generation: nat, task: Task)

  /** A load by the collector returns what the slot holds or held, but nothing older than the generation it
      has seen: that was bumped after the name it announces became readable. */
  predicate CollectorSees(st: State, generation: nat, i: nat, seen: nat)
    requires Shaped(st) && i < |st.words|
  {
    && MaySee(st.words[i], seen)
    && (st.bumped[i].Some? && st.bumped[i].value <= generation ==> seen == st.words[i])
  }

  /** The lookup is over: the label is known, and kept if the cache has room. */
  function Finished(c: Collector, q: Label, name: string, room: bool): Collector {
    c.(task := Idle, cached := if room then c.cached[q := Text(q, name)] else c.cached)
  }

  /** One action of the collector: load the generation, start on a label not cached, look at a slot, or copy
      a byte. `seen` is what the load returns. */
  ghost predicate Acts(st: State, c: Collector, seen: nat, room: bool, c': Collector)
    requires Shaped(st)
  {
    match c.task
    case Idle =>
      || (c.generation <= seen <= st.generation
          && c' == if seen == c.generation then c else c.(cached := map[], generation := seen))
      || (exists q :: q !in c.cached && !Fixed(q) && c' == c.(task := Looking(q, 0)))
    case Looking(q, at) =>
      if at >= |st.words| then c' == Finished(c, q, "", room)
      else
        && CollectorSees(st, c.generation, at, seen)
        && c' == c.(task := if seen == WantOf(q) && IsPublished(seen) then Reading(q, at, "") else Looking(q, at + 1))
    case Reading(q, at, read) =>
      && at < |st.names| && |read| < |st.names[at]|
      && (var b := st.names[at][|read|];
          c' == if b == '\0' then Finished(c, q, read, room) else c.(task := Reading(q, at, read + [b])))
  }

  // ---- What every action keeps --------------------------------------------

  /** None of the first n slots both holds this key and had been announced by that generation. */
  ghost predicate Unannounced(st: State, generation: nat, want: nat, n: nat)
    requires Shaped(st)
  {
    forall i :: 0 <= i < n && i < |st.words| && st.words[i] == want ==>
      !(st.bumped[i].Some? && st.bumped[i].value <= generation)
  }

  ghost predicate Named(st: State, want: nat, name: string)
    requires Shaped(st)
  {
    exists i :: 0 <= i < |st.words| && st.words[i] == want && IsPublished(want) && CString(st.names[i]) == name
  }

  /** A cached label is what its key's name makes it, or its name was still to be announced. */
  ghost predicate LabelOk(st: State, generation: nat, q: Label, text: string)
    requires Shaped(st)
  {
    || (exists name :: Named(st, WantOf(q), name) && text == Text(q, name))
    || (text == Text(q, "") && Unannounced(st, generation, WantOf(q), |st.words|))
  }

  ghost predicate TaskOk(st: State, c: Collector)
    requires Shaped(st)
  {
    match c.task
    case Idle => true
    case Looking(q, at) => Unannounced(st, c.generation, WantOf(q), at)
    case Reading(q, at, read) =>
      && at < |st.words| && st.words[at] == WantOf(q) && IsPublished(WantOf(q))
      && exists name :: Holds(st.names[at], name) && |read| <= |name| && read == name[..|read|]
  }

  ghost predicate CacheOk(st: State, c: Collector, capacity: nat) {
    && Inv(st, capacity) && c.generation <= st.generation && TaskOk(st, c)
    && forall q :: q in c.cached ==> LabelOk(st, c.generation, q, c.cached[q])
  }

  /** Whatever the collector does keeps the cache true to the table. */
  lemma ActsKeeps(st: State, capacity: nat, c: Collector, seen: nat, room: bool, c': Collector)
    requires CacheOk(st, c, capacity) && Acts(st, c, seen, room, c')
    ensures CacheOk(st, c', capacity)
  {
    match c.task
    case Idle =>
    case Looking(q, at) =>
      if at < |st.words| {
        assert SlotOk(st, at);
        if seen == WantOf(q) && IsPublished(seen) {
          FoundIsHeld(st, capacity, at, WantOf(q));
        }
      }
    case Reading(q, at, read) =>
      var name :| Holds(st.names[at], name) && |read| <= |name| && read == name[..|read|];
      ByteIsNext(st.names[at], name, read);
      if st.names[at][|read|] == '\0' {
        HeldIsRead(st.names[at], name);
        assert Named(st, WantOf(q), read);
      }
  }

  lemma FoundIsHeld(st: State, capacity: nat, at: nat, want: nat)
    requires Inv(st, capacity) && at < |st.words| && st.words[at] == want && IsPublished(want)
    ensures exists name :: Holds(st.names[at], name) && 0 <= |name| && "" == name[..0]
  {
    assert SlotOk(st, at);
    var k :| 0 <= k < |st.publishers| && st.publishers[k].want == want && Holds(st.names[at], st.publishers[k].name);
    assert st.publishers[k].name[..0] == "";
  }

  lemma ByteIsNext(bytes: seq<char>, name: string, read: string)
    requires Holds(bytes, name) && |read| <= |name| && read == name[..|read|]
    ensures |read| < |bytes| && (bytes[|read|] == '\0' <==> read == name)
    ensures bytes[|read|] != '\0' ==> |read| + 1 <= |name| && read + [bytes[|read|]] == name[..|read| + 1]
  {
    if |read| < |name| {
      assert bytes[|read|] == bytes[..|name|][|read|] == name[|read|];
    }
  }

  /** Whatever a publisher does keeps the cache true too: a name that lands is not announced before the
      generation moves on. */
  lemma PublisherKeeps(st: State, capacity: nat, c: Collector, k: nat, seen: nat, st': State)
    requires CacheOk(st, c, capacity) && k < |st.publishers| && Step(st, k, seen, st')
    ensures CacheOk(st', c, capacity)
  {
    StepKeeps(st, capacity, k, seen, st');
    StepIsBeside(st, capacity, k, seen, st');
    BesideKeeps(st, capacity, c, st');
  }

  /** Publishers at work: what they may do to the slots meanwhile. */
  predicate Beside(st: State, st': State) {
    && Shaped(st) && Shaped(st') && |st.words| == |st'.words| && st.generation <= st'.generation
    && forall i :: 0 <= i < |st.words| ==> Stays(st, st', i)
  }

  lemma BesideKeeps(st: State, capacity: nat, c: Collector, st': State)
    requires CacheOk(st, c, capacity) && Inv(st', capacity) && Beside(st, st')
    ensures CacheOk(st', c, capacity)
  {
    forall q | q in c.cached
      ensures LabelOk(st', c.generation, q, c.cached[q])
    {
      LabelStays(st, st', c.generation, q, c.cached[q]);
    }
    if c.task.Looking? {
      UnannouncedStays(st, st', c.generation, WantOf(c.task.q), c.task.at);
    } else if c.task.Reading? {
      assert Stays(st, st', c.task.at);
    }
  }

  lemma BesideThrough(a: State, b: State, c: State)
    requires Beside(a, b) && Beside(b, c)
    ensures Beside(a, c)
  {
    forall i | 0 <= i < |a.words|
      ensures Stays(a, c, i)
    {
      assert Stays(a, b, i) && Stays(b, c, i);
    }
  }

  lemma StepIsBeside(st: State, capacity: nat, k: nat, seen: nat, st': State)
    requires Inv(st, capacity) && k < |st.publishers| && Step(st, k, seen, st')
    ensures Beside(st, st')
  {
    assert PublisherOk(st, st.publishers[k]);
    forall i | 0 <= i < |st.words|
      ensures Stays(st, st', i)
    {
      assert SlotOk(st, i);
    }
  }

  lemma LabelStays(st: State, st': State, generation: nat, q: Label, text: string)
    requires Shaped(st) && Shaped(st') && |st.words| == |st'.words| && generation <= st.generation
    requires forall i :: 0 <= i < |st.words| ==> Stays(st, st', i)
    requires LabelOk(st, generation, q, text)
    ensures LabelOk(st', generation, q, text)
  {
    if name :| Named(st, WantOf(q), name) && text == Text(q, name) {
      NamedStays(st, st', WantOf(q), name);
    } else {
      UnannouncedStays(st, st', generation, WantOf(q), |st.words|);
    }
  }

  /** What publishers may do to a slot: publish it, and announce it, later than any generation there has
      been. */
  predicate Stays(st: State, st': State, i: nat)
    requires Shaped(st) && Shaped(st') && i < |st.words| == |st'.words|
  {
    && (IsPublished(st.words[i]) ==> st'.words[i] == st.words[i] && st'.names[i] == st.names[i])
    && (st'.bumped[i] == st.bumped[i] || (st'.bumped[i].Some? && st.generation < st'.bumped[i].value))
    && (!IsPublished(st.words[i]) && IsPublished(st'.words[i]) ==>
          st'.bumped[i] == None || st.generation < st'.bumped[i].value)
  }

  lemma NamedStays(st: State, st': State, want: nat, name: string)
    requires Shaped(st) && Shaped(st') && |st.words| == |st'.words| && Named(st, want, name)
    requires forall i :: 0 <= i < |st.words| ==> Stays(st, st', i)
    ensures Named(st', want, name)
  {
    var i :| 0 <= i < |st.words| && st.words[i] == want && IsPublished(want) && CString(st.names[i]) == name;
    assert Stays(st, st', i);
  }

  lemma UnannouncedStays(st: State, st': State, generation: nat, want: nat, n: nat)
    requires Shaped(st) && Shaped(st') && |st.words| == |st'.words| && generation <= st.generation
    requires Unannounced(st, generation, want, n) && IsPublished(want)
    requires forall i :: 0 <= i < |st.words| ==> Stays(st, st', i)
    ensures Unannounced(st', generation, want, n)
  {
    forall i | 0 <= i < n && i < |st'.words| && st'.words[i] == want
      ensures !(st'.bumped[i].Some? && st'.bumped[i].value <= generation)
    {
      assert Stays(st, st', i);
    }
  }

  // ---- Whole runs ---------------------------------------------------------

  datatype Moment = Moment(st: State, c: Collector)

  ghost predicate Next(a: Moment, b: Moment) {
    && Shaped(a.st)
    && ((Follows(a.st, b.st) && b.c == a.c) || (b.st == a.st && exists seen, room :: Acts(a.st, a.c, seen, room, b.c)))
  }

  /** Publishers and the collector, in any order. The cache starts out empty. */
  ghost predicate Runs(run: seq<Moment>, capacity: nat) {
    && run != [] && Init(run[0].st, capacity) && run[0].c == Collector(map[], 0, Idle)
    && forall i :: 0 < i < |run| ==> Next(run[i - 1], run[i])
  }

  lemma {:induction false} CacheAlwaysOk(run: seq<Moment>, capacity: nat, i: nat)
    requires Runs(run, capacity) && i < |run|
    ensures CacheOk(run[i].st, run[i].c, capacity)
  {
    if i == 0 {
      InitOk(run[0].st, capacity);
    } else {
      CacheAlwaysOk(run, capacity, i - 1);
      var a, b := run[i - 1], run[i];
      assert Next(a, b);
      if Follows(a.st, b.st) && b.c == a.c {
        var k, seen :| 0 <= k < |a.st.publishers| && Step(a.st, k, seen, b.st);
        PublisherKeeps(a.st, capacity, a.c, k, seen, b.st);
      } else {
        var seen, room :| Acts(a.st, a.c, seen, room, b.c);
        ActsKeeps(a.st, capacity, a.c, seen, room, b.c);
      }
    }
  }

  /** With the cached generation current, and no publisher of its key between storing the key and bumping
      the generation, a cached label is what resolving it now would give. */
  lemma LabelsAgree(run: seq<Moment>, capacity: nat, i: nat, q: Label)
    requires Runs(run, capacity) && i < |run|
    requires q in run[i].c.cached && run[i].c.generation == run[i].st.generation
    requires Quiet(run[i].st, q)
    ensures Shaped(run[i].st) && run[i].c.cached[q] == Resolve(run[i].st, q)
    ensures Shown(run[i].st, q, run[i].c.cached[q])
  {
    CacheAlwaysOk(run, capacity, i);
    LabelIsCurrent(run[i].st, capacity, q, run[i].c.cached[q]);
    ResolveShows(run[i].st, q);
  }

  /** Nobody is between storing this key and announcing it. */
  predicate NoneAnnouncing(st: State, want: nat) {
    forall p :: p in st.publishers && p.phase == Bumping ==> p.want != want
  }

  /** A label true to the latest generation is what resolving gives now. */
  lemma LabelIsCurrent(st: State, capacity: nat, q: Label, text: string)
    requires Inv(st, capacity) && LabelOk(st, st.generation, q, text) && NoneAnnouncing(st, WantOf(q))
    ensures text == Resolve(st, q)
  {
    var want := WantOf(q);
    if name :| Named(st, want, name) && text == Text(q, name) {
      var j :| 0 <= j < |st.words| && st.words[j] == want && IsPublished(want) && CString(st.names[j]) == name;
      OnlyOneNames(st, want, j, 0);
    } else {
      forall j | 0 <= j < |st.words|
        ensures st.words[j] != want
      {
        NotAnnouncedNotThere(st, capacity, want, j);
      }
      NobodyNames(st, want, 0);
    }
  }

  lemma NotAnnouncedNotThere(st: State, capacity: nat, want: nat, j: nat)
    requires Inv(st, capacity) && j < |st.words| && IsPublished(want)
    requires Unannounced(st, st.generation, want, |st.words|)
    requires NoneAnnouncing(st, want)
    ensures st.words[j] != want
  {
    assert SlotOk(st, j);
    if Announcing(st, j) {
      AnnouncerWants(st, capacity, j);
    }
  }

  lemma AnnouncerWants(st: State, capacity: nat, j: nat)
    requires Inv(st, capacity) && j < |st.words| && Announcing(st, j)
    ensures exists p :: p in st.publishers && p.phase == Bumping && p.want == st.words[j]
  {
    var k :| 0 <= k < |st.publishers| && st.publishers[k].phase == Bumping && st.publishers[k].at == j;
    assert PublisherOk(st, st.publishers[k]) && st.publishers[k] in st.publishers;
  }

  lemma {:induction false} OnlyOneNames(st: State, want: nat, j: nat, from: nat)
    requires Shaped(st) && OneSlotEach(st.words) && from <= j < |st.words| && st.words[j] == want && IsPublished(want)
    ensures NameFrom(st, want, from) == CString(st.names[j])
    decreases j - from
  {
    if from < j {
      OnlyOneNames(st, want, j, from + 1);
    }
  }

  lemma {:induction false} NobodyNames(st: State, want: nat, from: nat)
    requires Shaped(st) && from <= |st.words| && forall j :: 0 <= j < |st.words| ==> st.words[j] != want
    ensures NameFrom(st, want, from) == ""
    decreases |st.words| - from
  {
    if from < |st.words| {
      NobodyNames(st, want, from + 1);
    }
  }
}
