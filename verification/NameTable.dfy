/** The shared name table: any number of publishers claim, write and publish names in it, and any of them
    may stop for good at any step. */
module NameTables {
  import opened Options

  /** Set in a slot's word while its name is being written; the rest of the word is the key plus one. */
  const CLAIM_BIT: nat := 0x8000_0000_0000_0000

  const MAX_POLLS: nat := 1000

  function NameKey(point: nat, step: nat): nat {
    point * 256 + step
  }

  /** Keys are distinct, and one more than a key stays clear of the claim bit. */
  lemma NameKeyUnique(p: nat, s: nat, p2: nat, s2: nat)
    requires s < 256 && s2 < 256 && p < 0x1_0000_0000
    ensures NameKey(p, s) == NameKey(p2, s2) <==> p == p2 && s == s2
    ensures NameKey(p, s) + 1 < CLAIM_BIT
  {
  }

  predicate IsClaimed(word: nat) {
    word >= CLAIM_BIT
  }

  function KeyOf(word: nat): nat {
    if word >= CLAIM_BIT then word - CLAIM_BIT else word
  }

  predicate IsPublished(word: nat) {
    0 < word < CLAIM_BIT
  }

  /** The bytes hold this name, whole, and what follows its NUL does not matter. */
  predicate Holds(bytes: seq<char>, name: string) {
    |name| < |bytes| && bytes[..|name|] == name && bytes[|name|] == '\0' && '\0' !in name
  }

  /** What a reader makes of the bytes: everything before the first NUL. */
  function CString(bytes: seq<char>): string {
    if bytes == [] || bytes[0] == '\0' then "" else [bytes[0]] + CString(bytes[1..])
  }

  lemma {:induction false} HeldIsRead(bytes: seq<char>, name: string)
    requires Holds(bytes, name)
    ensures CString(bytes) == name
  {
    if name == "" {
    } else {
      assert bytes[1..][..|name| - 1] == name[1..];
      HeldIsRead(bytes[1..], name[1..]);
      assert bytes[0] == bytes[..|name|][0];
    }
  }

  lemma {:induction false} ReadIsHeld(bytes: seq<char>, name: string)
    requires CString(bytes) == name && |name| < |bytes|
    ensures Holds(bytes, name)
  {
    if name != "" {
      ReadIsHeld(bytes[1..], name[1..]);
      assert bytes[..|name|] == [bytes[0]] + bytes[1..][..|name| - 1];
    }
  }

  /** Where a publisher is with slot `at`. */
  datatype Phase =
    | Scanning
    | Waiting(polls: nat)
    | Claiming
    | Writing(written: nat)
    | Storing
    | Bumping
    | Comparing(read: nat)
    | Done(ok: bool)

  /** One call of publish_one; `want` is its key plus one. */
  datatype Publisher = Publisher(want: nat, name: string, at: nat, phase: Phase)

  /** `bumped` notes which bump of the generation announced a slot. */
  datatype State = State(words: seq<nat>, names: seq<seq<char>>, generation: nat, bumped: seq<Option<nat>>,
                         publishers: seq<Publisher>)

  function Moved(st: State, k: nat, p: Publisher): State
    requires k < |st.publishers|
  {
    st.(publishers := st.publishers[k := p])
  }

  /** A load may return what the slot holds or anything it held before: nothing, or the claim. */
  predicate MaySee(now: nat, seen: nat) {
    seen == now || seen == 0 || (IsPublished(now) && seen == now + CLAIM_BIT)
  }

  /** What becomes of a publisher when the slot's word is known. */
  function Resolved(p: Publisher, cur: nat): Publisher {
    if KeyOf(cur) == p.want then p.(phase := if IsClaimed(cur) then Done(false) else Comparing(0))
    else if cur != 0 then p.(at := p.at + 1, phase := Scanning)
    else p.(phase := Claiming)
  }

  /** A claim of the publisher's own key is waited for; any other word settles the matter. */
  function Loaded(p: Publisher, cur: nat): Publisher {
    if IsClaimed(cur) && KeyOf(cur) == p.want then p.(phase := Waiting(0)) else Resolved(p, cur)
  }

  /** One action of publisher k. `seen` is what its load returns, if it makes one. Having seen a claim a
      thread does not see the slot free again. */
  predicate Step(st: State, k: nat, seen: nat, st': State)
    requires Shaped(st) && k < |st.publishers|
  {
    var p := st.publishers[k];
    match p.phase
    case Scanning =>
      if p.at >= |st.words| then st' == Moved(st, k, p.(phase := Done(false)))
      else MaySee(st.words[p.at], seen) && st' == Moved(st, k, Loaded(p, seen))
    case Waiting(polls) =>
      && p.at < |st.words| && (seen == st.words[p.at] || seen == p.want + CLAIM_BIT)
      && st' == Moved(st, k, if polls < MAX_POLLS && IsClaimed(seen) then p.(phase := Waiting(polls + 1))
                             else Resolved(p, seen))
    case Claiming =>
      && p.at < |st.words|
      && if st.words[p.at] == 0 then
           st' == Moved(st, k, p.(phase := Writing(0))).(words := st.words[p.at := p.want + CLAIM_BIT])
         else seen != 0 && MaySee(st.words[p.at], seen) && st' == Moved(st, k, Loaded(p, seen))
    case Writing(n) =>
      && p.at < |st.words| && n <= |p.name| < |st.names[p.at]|
      && (var next := if n < |p.name| then Writing(n + 1) else Storing;
          var c := if n < |p.name| then p.name[n] else '\0';
          st' == Moved(st, k, p.(phase := next)).(names := st.names[p.at := st.names[p.at][n := c]]))
    case Storing =>
      && p.at < |st.words|
      && st' == Moved(st, k, p.(phase := Bumping)).(words := st.words[p.at := p.want])
    case Bumping =>
      && p.at < |st.words|
      && st' == Moved(st, k, p.(phase := Done(true))).(generation := st.generation + 1,
                                                       bumped := st.bumped[p.at := Some(st.generation + 1)])
    case Comparing(n) =>
      && p.at < |st.words| && n < |st.names[p.at]|
      && (var c := st.names[p.at][n];
          st' == Moved(st, k, p.(phase := if c == '\0' then Done(n == |p.name|)
                                          else if n < |p.name| && c == p.name[n] then Comparing(n + 1)
                                          else Done(false))))
    case Done(ok) => false
  }

  predicate Shaped(st: State) {
    |st.names| == |st.words| == |st.bumped|
  }

  /** A call names a key and a name that fits its slot. */
  predicate Callable(p: Publisher, capacity: nat) {
    0 < p.want < CLAIM_BIT && |p.name| < capacity && '\0' !in p.name
  }

  ghost predicate Init(st: State, capacity: nat) {
    && Shaped(st) && st.generation == 0
    && (forall i :: 0 <= i < |st.words| ==> st.words[i] == 0 && |st.names[i]| == capacity && st.bumped[i] == None)
    && (forall k :: 0 <= k < |st.publishers| ==>
          Callable(st.publishers[k], capacity) && st.publishers[k].at == 0 && st.publishers[k].phase == Scanning)
  }

  // ---- What every step keeps ----------------------------------------------

  /** The slot is the publisher's own to write. */
  predicate Owns(p: Publisher) {
    p.phase.Writing? || p.phase.Storing? || p.phase.Bumping?
  }

  /** A slot that is taken never goes back, and never to another key. */
  predicate SlotOk(st: State, i: nat)
    requires Shaped(st) && i < |st.words|
  {
    && st.words[i] != CLAIM_BIT && st.words[i] < 2 * CLAIM_BIT
    && (IsPublished(st.words[i]) ==> Supplied(st, st.words[i], st.names[i]))
    && (st.bumped[i].Some? ==> IsPublished(st.words[i]) && st.bumped[i].value <= st.generation)
    && (IsPublished(st.words[i]) && st.bumped[i] == None ==> Announcing(st, i))
  }

  /** Some publisher of this key supplied the name these bytes hold. */
  predicate Supplied(st: State, want: nat, bytes: seq<char>) {
    exists k :: 0 <= k < |st.publishers| && st.publishers[k].want == want && Holds(bytes, st.publishers[k].name)
  }

  /** The publisher of slot i is between storing its key and bumping the generation. */
  predicate Announcing(st: State, i: nat) {
    exists k :: 0 <= k < |st.publishers| && st.publishers[k].phase == Bumping && st.publishers[k].at == i
  }

  predicate PublisherOk(st: State, p: Publisher)
    requires Shaped(st)
  {
    && p.at <= |st.words|
    && (forall j :: 0 <= j < p.at ==> st.words[j] != 0 && KeyOf(st.words[j]) != p.want)
    && (p.phase != Scanning && !p.phase.Done? ==> p.at < |st.words|)
    && match p.phase
       case Scanning => true
       case Waiting(_) => KeyOf(st.words[p.at]) == p.want
       case Claiming => true
       case Writing(n) =>
         st.words[p.at] == p.want + CLAIM_BIT && n <= |p.name| < |st.names[p.at]| && st.names[p.at][..n] == p.name[..n]
       case Storing => st.words[p.at] == p.want + CLAIM_BIT && Holds(st.names[p.at], p.name)
       case Bumping => st.words[p.at] == p.want && Holds(st.names[p.at], p.name)
       case Comparing(n) =>
         st.words[p.at] == p.want && n <= |p.name| < |st.names[p.at]| && st.names[p.at][..n] == p.name[..n]
       case Done(ok) => ok ==> p.at < |st.words| && st.words[p.at] == p.want && Holds(st.names[p.at], p.name)
  }

  predicate Dense(words: seq<nat>) {
    forall i, j :: 0 <= i < j < |words| && words[j] != 0 ==> words[i] != 0
  }

  predicate OneSlotEach(words: seq<nat>) {
    forall i, j :: 0 <= i < j < |words| && words[i] != 0 && words[j] != 0 ==> KeyOf(words[i]) != KeyOf(words[j])
  }

  predicate OwnersApart(st: State) {
    forall k, l :: 0 <= k < l < |st.publishers| && Owns(st.publishers[k]) && Owns(st.publishers[l])
      ==> st.publishers[k].at != st.publishers[l].at
  }

  predicate Inv(st: State, capacity: nat) {
    && Shaped(st) && (forall i :: 0 <= i < |st.names| ==> |st.names[i]| == capacity)
    && (forall i :: 0 <= i < |st.words| ==> SlotOk(st, i))
    && (forall k :: 0 <= k < |st.publishers| ==>
          Callable(st.publishers[k], capacity) && PublisherOk(st, st.publishers[k]))
    && Dense(st.words) && OneSlotEach(st.words) && OwnersApart(st)
  }

  lemma InitOk(st: State, capacity: nat)
    requires Init(st, capacity)
    ensures Inv(st, capacity)
  {
  }

  /** A publisher that only looks on disturbs nothing. */
  lemma LookingKeeps(st: State, capacity: nat, k: nat, p: Publisher)
    requires Inv(st, capacity) && k < |st.publishers| && PublisherOk(st, p) && !Owns(p)
    requires p.want == st.publishers[k].want && p.name == st.publishers[k].name && !Owns(st.publishers[k])
    ensures Inv(Moved(st, k, p), capacity)
  {
    var st' := Moved(st, k, p);
    forall i | 0 <= i < |st'.words|
      ensures SlotOk(st', i)
    {
      SlotStays(st, st', k, i);
    }
  }

  /** A slot none of whose particulars change is as good as before, if publisher k, who moved, is the same
      caller and did not stop announcing it. */
  lemma SlotStays(st: State, st': State, k: nat, i: nat)
    requires Shaped(st) && Shaped(st') && k < |st.publishers| && i < |st.words| == |st'.words| && SlotOk(st, i)
    requires st'.words[i] == st.words[i] && st'.bumped[i] == st.bumped[i] && st.generation <= st'.generation
    requires IsPublished(st.words[i]) ==> st'.names[i] == st.names[i]
    requires |st'.publishers| == |st.publishers|
    requires forall l :: 0 <= l < |st.publishers| && l != k ==> st'.publishers[l] == st.publishers[l]
    requires st'.publishers[k].want == st.publishers[k].want && st'.publishers[k].name == st.publishers[k].name
    requires st.publishers[k].phase == Bumping ==> st.publishers[k].at != i
    ensures SlotOk(st', i)
  {
    if IsPublished(st.words[i]) {
      var l :| 0 <= l < |st.publishers| && st.publishers[l].want == st.words[i]
               && Holds(st.names[i], st.publishers[l].name);
      assert st'.publishers[l].want == st.publishers[l].want;
      if st.bumped[i] == None {
        var m :| 0 <= m < |st.publishers| && st.publishers[m].phase == Bumping && st.publishers[m].at == i;
        assert st'.publishers[m] == st.publishers[m];
      }
    }
  }

  /** Taking a free slot: every slot before it belongs to another key, and every slot after it is free. */
  lemma ClaimKeeps(st: State, capacity: nat, k: nat)
    requires Inv(st, capacity) && k < |st.publishers| && st.publishers[k].phase == Claiming
    requires st.words[st.publishers[k].at] == 0
    ensures var p := st.publishers[k];
      Inv(Moved(st, k, p.(phase := Writing(0))).(words := st.words[p.at := p.want + CLAIM_BIT]), capacity)
  {
    var p := st.publishers[k];
    var st' := Moved(st, k, p.(phase := Writing(0))).(words := st.words[p.at := p.want + CLAIM_BIT]);
    forall i | 0 <= i < |st'.words|
      ensures SlotOk(st', i)
    {
      assert SlotOk(st, i);
      if i != p.at {
        SlotStays(st, st', k, i);
      }
    }
    forall l | 0 <= l < |st.publishers|
      ensures PublisherOk(st', st'.publishers[l])
    {
      assert PublisherOk(st, st.publishers[l]);
    }
    assert forall j :: p.at < j < |st.words| ==> st.words[j] == 0;
  }

  /** Writing a byte of a claimed slot: no reader looks there yet, and no other publisher writes there. */
  lemma WritingKeeps(st: State, capacity: nat, k: nat, seen: nat, st': State)
    requires Inv(st, capacity) && k < |st.publishers| && st.publishers[k].phase.Writing? && Step(st, k, seen, st')
    ensures Inv(st', capacity)
  {
    var p := st.publishers[k];
    forall i | 0 <= i < |st'.words|
      ensures SlotOk(st', i)
    {
      SlotStays(st, st', k, i);
    }
    forall l | 0 <= l < |st.publishers|
      ensures PublisherOk(st', st'.publishers[l])
    {
      assert PublisherOk(st, st.publishers[l]) && PublisherOk(st, p);
      if l == k && p.phase.written == |p.name| {
        assert st'.names[p.at][..|p.name|] == st.names[p.at][..|p.name|];
      } else if l == k {
        assert st'.names[p.at][..p.phase.written + 1] == st.names[p.at][..p.phase.written] + [p.name[p.phase.written]];
      }
    }
  }

  lemma StoringKeeps(st: State, capacity: nat, k: nat, seen: nat, st': State)
    requires Inv(st, capacity) && k < |st.publishers| && st.publishers[k].phase.Storing? && Step(st, k, seen, st')
    ensures Inv(st', capacity)
  {
    var p := st.publishers[k];
    forall i | 0 <= i < |st'.words|
      ensures SlotOk(st', i)
    {
      assert SlotOk(st, i);
      if i == p.at {
        assert st'.publishers[k].want == p.want && st'.publishers[k].phase == Bumping;
      } else {
        SlotStays(st, st', k, i);
      }
    }
    forall l | 0 <= l < |st.publishers|
      ensures PublisherOk(st', st'.publishers[l])
    {
      assert PublisherOk(st, st.publishers[l]) && PublisherOk(st, p);
    }
  }

  lemma BumpingKeeps(st: State, capacity: nat, k: nat, seen: nat, st': State)
    requires Inv(st, capacity) && k < |st.publishers| && st.publishers[k].phase.Bumping? && Step(st, k, seen, st')
    ensures Inv(st', capacity)
  {
    var p := st.publishers[k];
    forall i | 0 <= i < |st'.words|
      ensures SlotOk(st', i)
    {
      assert SlotOk(st, i);
      if i == p.at {
        assert st'.publishers[k].want == p.want && st'.publishers[k].name == p.name;
      } else {
        SlotStays(st, st', k, i);
      }
    }
    forall l | 0 <= l < |st.publishers|
      ensures PublisherOk(st', st'.publishers[l])
    {
      assert PublisherOk(st, st.publishers[l]);
    }
  }

  /** Reading one more byte of the published name. */
  lemma ComparingKeeps(st: State, capacity: nat, k: nat, seen: nat, st': State)
    requires Inv(st, capacity) && k < |st.publishers| && st.publishers[k].phase.Comparing? && Step(st, k, seen, st')
    ensures Inv(st', capacity)
  {
    var p := st.publishers[k];
    var bytes := st.names[p.at];
    var n := p.phase.read;
    assert SlotOk(st, p.at);
    if n < |p.name| && bytes[n] == p.name[n] {
      assert bytes[..n + 1] == bytes[..n] + [bytes[n]];
    }
    LookingKeeps(st, capacity, k, st'.publishers[k]);
  }

  lemma StepKeeps(st: State, capacity: nat, k: nat, seen: nat, st': State)
    requires Inv(st, capacity) && k < |st.publishers| && Step(st, k, seen, st')
    ensures Inv(st', capacity)
  {
    var p := st.publishers[k];
    assert PublisherOk(st, p);
    match p.phase
    case Scanning =>
      if p.at < |st.words| {
        assert SlotOk(st, p.at);
        SeenIsSettled(st, p, seen);
      }
      LookingKeeps(st, capacity, k, st'.publishers[k]);
    case Waiting(_) =>
      assert SlotOk(st, p.at);
      LookingKeeps(st, capacity, k, st'.publishers[k]);
    case Claiming =>
      if st.words[p.at] == 0 {
        ClaimKeeps(st, capacity, k);
      } else {
        assert SlotOk(st, p.at);
        SeenIsSettled(st, p, seen);
        LookingKeeps(st, capacity, k, st'.publishers[k]);
      }
    case Writing(_) => WritingKeeps(st, capacity, k, seen, st');
    case Storing => StoringKeeps(st, capacity, k, seen, st');
    case Bumping => BumpingKeeps(st, capacity, k, seen, st');
    case Comparing(_) => ComparingKeeps(st, capacity, k, seen, st');
    case Done(_) =>
  }

  /** Whatever a load returns short of free, it names the key the slot has for good. */
  lemma SeenIsSettled(st: State, p: Publisher, seen: nat)
    requires Shaped(st) && p.at < |st.words| && SlotOk(st, p.at) && PublisherOk(st, p) && 0 < p.want < CLAIM_BIT
    requires (p.phase == Scanning || p.phase == Claiming) && |p.name| < |st.names[p.at]|
    requires MaySee(st.words[p.at], seen)
    ensures seen != 0 ==> KeyOf(seen) == KeyOf(st.words[p.at]) != 0 && st.words[p.at] != 0
    ensures PublisherOk(st, Loaded(p, seen)) && !Owns(Loaded(p, seen))
  {
  }

  // ---- Whole runs ---------------------------------------------------------

  ghost predicate Follows(st: State, st': State) {
    Shaped(st) && exists k, seen :: 0 <= k < |st.publishers| && Step(st, k, seen, st')
  }

  /** An interleaving of the publishers' actions. One that dies just stops appearing in it. */
  ghost predicate IsRun(run: seq<State>, capacity: nat) {
    && run != [] && Init(run[0], capacity)
    && forall i :: 0 < i < |run| ==> Follows(run[i - 1], run[i])
  }

  lemma {:induction false} RunKeeps(run: seq<State>, capacity: nat, i: nat)
    requires IsRun(run, capacity) && i < |run|
    ensures Inv(run[i], capacity) && |run[i].words| == |run[0].words|
  {
    if i == 0 {
      InitOk(run[0], capacity);
    } else {
      RunKeeps(run, capacity, i - 1);
      assert Follows(run[i - 1], run[i]);
      var k, seen :| 0 <= k < |run[i - 1].publishers| && Step(run[i - 1], k, seen, run[i]);
      StepKeeps(run[i - 1], capacity, k, seen, run[i]);
    }
  }

  /** No key is ever in two slots, and the slots taken are a prefix of the table: as many as claimed_names
      counts. */
  lemma OneSlotPerKey(run: seq<State>, capacity: nat, a: nat) returns (n: nat)
    requires IsRun(run, capacity) && a < |run|
    ensures var words := run[a].words;
      && (forall i, j :: 0 <= i < j < |words| && words[i] != 0 && words[j] != 0 ==> KeyOf(words[i]) != KeyOf(words[j]))
      && n <= |words| && forall i :: 0 <= i < |words| ==> (words[i] != 0 <==> i < n)
  {
    RunKeeps(run, capacity, a);
    var words := run[a].words;
    n := 0;
    while n < |words| && words[n] != 0
      invariant n <= |words| && forall i :: 0 <= i < n ==> words[i] != 0
    {
      n := n + 1;
    }
  }

  /** A slot once taken keeps its key, and once published its word and its bytes. */
  predicate Settled(was: State, now: State, i: nat)
    requires Shaped(was) && Shaped(now) && i < |was.words| == |now.words|
  {
    && (was.words[i] != 0 ==> now.words[i] != 0 && KeyOf(now.words[i]) == KeyOf(was.words[i]))
    && (IsPublished(was.words[i]) ==> now.words[i] == was.words[i] && now.names[i] == was.names[i])
  }

  lemma SlotsSettle(st: State, capacity: nat, k: nat, seen: nat, st': State)
    requires Inv(st, capacity) && k < |st.publishers| && Step(st, k, seen, st')
    ensures Shaped(st') && |st'.words| == |st.words| && forall i :: 0 <= i < |st.words| ==> Settled(st, st', i)
  {
    assert PublisherOk(st, st.publishers[k]);
    forall i | 0 <= i < |st.words|
      ensures Settled(st, st', i)
    {
      assert SlotOk(st, i);
    }
  }

  lemma SettledOn(a: State, b: State, c: State, i: nat)
    requires Shaped(a) && Shaped(b) && Shaped(c) && i < |a.words| == |b.words| == |c.words|
    requires Settled(a, b, i) && Settled(b, c, i)
    ensures Settled(a, c, i)
  {
  }

  /** One action of a run. */
  lemma ActionSettles(run: seq<State>, capacity: nat, b: nat, i: nat)
    requires IsRun(run, capacity) && 0 < b < |run| && i < |run[0].words|
    ensures Shaped(run[b - 1]) && Shaped(run[b]) && |run[b - 1].words| == |run[b].words| == |run[0].words|
    ensures Settled(run[b - 1], run[b], i)
  {
    RunKeeps(run, capacity, b - 1);
    assert Follows(run[b - 1], run[b]);
    var k, seen :| 0 <= k < |run[b - 1].publishers| && Step(run[b - 1], k, seen, run[b]);
    SlotsSettle(run[b - 1], capacity, k, seen, run[b]);
  }

  lemma {:induction false} KeysStay(run: seq<State>, capacity: nat, a: nat, b: nat, i: nat)
    requires IsRun(run, capacity) && a <= b < |run| && i < |run[0].words|
    ensures Shaped(run[a]) && Shaped(run[b]) && |run[a].words| == |run[b].words| == |run[0].words|
    ensures Settled(run[a], run[b], i)
    decreases b
  {
    if a == b {
      RunKeeps(run, capacity, a);
    } else {
      KeysStay(run, capacity, a, b - 1, i);
      ActionSettles(run, capacity, b, i);
      SettledOn(run[a], run[b - 1], run[b], i);
    }
  }

  /** A lookup that finds a key published reads, now or however much later it copies the bytes, the whole of
      the name one publisher of that key supplied. */
  lemma LookupIsWhole(run: seq<State>, capacity: nat, a: nat, b: nat, i: nat) returns (name: string)
    requires IsRun(run, capacity) && a <= b < |run| && i < |run[a].words| && IsPublished(run[a].words[i])
    ensures Shaped(run[b]) && i < |run[b].names| && CString(run[b].names[i]) == name
    ensures exists k :: 0 <= k < |run[a].publishers| && run[a].publishers[k].want == run[a].words[i]
                        && run[a].publishers[k].name == name
  {
    RunKeeps(run, capacity, a);
    KeysStay(run, capacity, a, b, i);
    assert SlotOk(run[a], i);
    var k :| 0 <= k < |run[a].publishers| && run[a].publishers[k].want == run[a].words[i]
             && Holds(run[a].names[i], run[a].publishers[k].name);
    name := run[a].publishers[k].name;
    HeldIsRead(run[b].names[i], name);
  }

  /** All the publishers of a key that are told they succeeded supplied the same name, and it is the one
      readers see. */
  lemma SuccessMeansAgreement(run: seq<State>, capacity: nat, a: nat, k: nat, l: nat)
    requires IsRun(run, capacity) && a < |run| && k < |run[a].publishers| && l < |run[a].publishers|
    requires run[a].publishers[k].phase == run[a].publishers[l].phase == Done(true)
    requires run[a].publishers[k].want == run[a].publishers[l].want
    ensures run[a].publishers[k].name == run[a].publishers[l].name
    ensures Shaped(run[a]) && exists i :: 0 <= i < |run[a].words| && run[a].words[i] == run[a].publishers[k].want
                                          && CString(run[a].names[i]) == run[a].publishers[k].name
  {
    RunKeeps(run, capacity, a);
    var st := run[a];
    var p, q := st.publishers[k], st.publishers[l];
    assert PublisherOk(st, p) && PublisherOk(st, q);
    HeldIsRead(st.names[p.at], p.name);
    HeldIsRead(st.names[q.at], q.name);
    assert KeyOf(st.words[p.at]) == KeyOf(st.words[q.at]);
  }

  /** How many actions a publisher can still take at its slot. */
  function ActionsHere(p: Publisher, capacity: nat): nat {
    match p.phase
    case Scanning => MAX_POLLS + capacity + 9
    case Claiming => MAX_POLLS + capacity + 8
    case Waiting(polls) => capacity + 6 + if polls <= MAX_POLLS then MAX_POLLS - polls + 1 else 0
    case Writing(written) => 3 + if written < capacity then capacity - written else 0
    case Storing => 2
    case Bumping => 1
    case Comparing(read) => 1 + if read < capacity then capacity - read else 0
    case Done(_) => 0
  }

  /** How many more actions a publisher can take, whatever the others do: nobody can keep it waiting. */
  function ActionsLeft(p: Publisher, slots: nat, capacity: nat): nat
    requires p.at <= slots
  {
    ActionsHere(p, capacity) + Beyond(slots - p.at, capacity)
  }

  function Beyond(slots: nat, capacity: nat): nat {
    if slots == 0 then 0 else MAX_POLLS + capacity + 10 + Beyond(slots - 1, capacity)
  }

  lemma EveryActionCounts(st: State, capacity: nat, k: nat, seen: nat, st': State)
    requires Inv(st, capacity) && k < |st.publishers| && Step(st, k, seen, st')
    ensures var p, p' := st.publishers[k], st'.publishers[k];
      && |p.name| < capacity && p.at <= |st.words|
      && p'.name == p.name && p'.at <= |st.words|
      && ActionsLeft(p', |st.words|, capacity) < ActionsLeft(p, |st.words|, capacity)
    ensures forall l :: 0 <= l < |st.publishers| && l != k ==> st'.publishers[l] == st.publishers[l]
  {
    var p, p' := st.publishers[k], st'.publishers[k];
    assert PublisherOk(st, p);
    assert p.at < |st.words| ==>
             Beyond(|st.words| - p.at, capacity) == MAX_POLLS + capacity + 10 + Beyond(|st.words| - p.at - 1, capacity);
  }
}
