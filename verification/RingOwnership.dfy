/** How rings pass from owner to owner through their claim words: threads of many sessions in many
    processes, which may die at any step, and one collector that drains and frees. */
module RingOwnership {
  import opened Options
  import opened Arith

  // ---- The claim word -----------------------------------------------------

  const RING_FREE: nat := 0
  const RING_ACTIVE: nat := 1
  const RING_RETIRED: nat := 2

  /** The owner word as it is stored: process, session tag and state. */
  function Packed(pid: nat, tag: nat, state: nat): nat {
    pid * 0x1_0000_0000 + tag % 0x100_0000 * 0x100 + state
  }

  function StateOf(word: nat): nat {
    word % 0x100
  }

  function PidOf(word: nat): nat {
    word / 0x1_0000_0000
  }

  /** What retire stores in place of an owner's word. */
  function RetiredWord(word: nat): nat {
    word / 0x100 * 0x100 + RING_RETIRED
  }

  /** State and process survive the packing, two sessions whose tags differ below 2^24 never share a word,
      and retiring keeps whose ring it was. */
  lemma PackingKeepsApart(pid: nat, tag: nat, state: nat, pid2: nat, tag2: nat)
    requires state < 0x100 && tag < 0x100_0000 && tag2 < 0x100_0000
    ensures StateOf(Packed(pid, tag, state)) == state && PidOf(Packed(pid, tag, state)) == pid
    ensures Packed(pid, tag, state) == Packed(pid2, tag2, state) <==> pid == pid2 && tag == tag2
    ensures RetiredWord(Packed(pid, tag, state)) == Packed(pid, tag, RING_RETIRED)
  {
    Unpacked(pid, tag, state);
    Unpacked(pid2, tag2, state);
  }

  /** The packed word comes apart again. */
  lemma Unpacked(pid: nat, tag: nat, state: nat)
    requires state < 0x100 && tag < 0x100_0000
    ensures var word := Packed(pid, tag, state);
      && StateOf(word) == state && word / 0x100 == pid * 0x100_0000 + tag
      && PidOf(word) == pid && word % 0x1_0000_0000 == tag * 0x100 + state
  {
    var word := Packed(pid, tag, state);
    DivUnique(tag, 0x100_0000, 0, tag);
    assert word == pid * 0x1_0000_0000 + tag * 0x100 + state;
    DivUnique(word, 0x100, pid * 0x100_0000 + tag, state);
    DivUnique(word, 0x1_0000_0000, pid, tag * 0x100 + state);
  }

  /** The same word, taken apart. */
  datatype Word = Free | Active(pid: nat, tag: nat) | Retired(pid: nat, tag: nat)

  // ---- The system ---------------------------------------------------------

  /** `carried` is the head that whoever acquires the owner word is sure to see: its last release was made
      after that head was stored. */
  datatype Ring = Ring(owner: Word, head: nat, carried: nat)

  /** Where a thread is inside a stamp: outside, trying ring i, about to load the head of the ring it
      claimed, or storing a sample it has not published yet. */
  datatype Phase = Resting | Claiming(i: nat) | Attaching | Storing

  /** The ring a thread's exit hook will retire, and the session it was claimed in. */
  datatype Hook = Hook(tag: nat, ring: nat)

  /** A thread, with the binding it caches: the session, and the ring in it if it got one. */
  datatype Thread = Thread(mod: nat, alive: bool, session: nat, ring: Option<nat>, next: nat, phase: Phase,
                           hook: Option<Hook>)

  /** A module of some process: the session its hot path names, its own or that of another module of its
      process, and one it is shutting down, with the next ring to retire. Sessions are known by their tags,
      0 standing for none. */
  datatype Module = Module(pid: nat, alive: bool, session: Option<nat>, ending: Option<Hook>)

  /** Where the collector is in freeing a ring. */
  datatype Task = Sweeping | Seen(i: nat, word: Word) | Drained(i: nat, word: Word)

  datatype State = State(rings: seq<Ring>, cursors: seq<nat>, threads: seq<Thread>, modules: seq<Module>,
                         nextTag: nat, task: Task)

  datatype Action =
    | StartSession(m: nat)
    | JoinSession(m: nat, host: nat)
    | LeaveSession(m: nat)
    | BeginStamp(t: nat)
    | TryClaim(t: nat, looksTaken: bool)
    | Attach(t: nat, seen: nat, stamping: bool)
    | Publish(t: nat)
    | Exit(t: nat)
    | BeginShutdown(m: nat)
    | RetireOne(m: nat)
    | Die(pid: nat)
    | Reclaim(i: nat)
    | Drain(i: nat, to: nat)
    | SeeRetired(i: nat)
    | CheckHead(seen: nat)
    | Release
    | NewCollector(at: seq<nat>)
    | ReuseTable

  /** Swap an active word for the retired one, if it is still there. What the releasing side has stored, or
      knows to be stored, goes with it. */
  function Retire(rings: seq<Ring>, i: nat, word: Word): seq<Ring>
    requires i < |rings| && word.Active?
  {
    var r := rings[i];
    if r.owner == word then rings[i := Ring(Retired(word.pid, word.tag), r.head, r.head)] else rings
  }

  /** A ring as its owner, or someone on the owner's behalf, hands it back. */
  function HandedBack(r: Ring): Ring
    requires r.owner.Active?
  {
    Ring(Retired(r.owner.pid, r.owner.tag), r.head, r.head)
  }

  predicate InModule(st: State, t: nat) {
    t < |st.threads| && st.threads[t].alive && st.threads[t].mod < |st.modules|
    && st.modules[st.threads[t].mod].alive
  }

  /** No thread of the module was ever bound to this session. */
  predicate NewTo(st: State, m: nat, tag: nat) {
    forall t :: 0 <= t < |st.threads| && st.threads[t].mod == m ==>
      st.threads[t].session != tag && (st.threads[t].hook.Some? ==> st.threads[t].hook.value.tag != tag)
  }

  /** The thread is inside a stamp of its module's session. */
  predicate InFlight(st: State, t: nat) {
    InModule(st, t) && st.threads[t].phase != Resting
  }

  predicate Enabled(st: State, a: Action) {
    match a
    case StartSession(m) =>
      m < |st.modules| && st.modules[m].alive && st.modules[m].session == None && st.modules[m].ending == None
    case JoinSession(m, host) =>
      && m < |st.modules| && st.modules[m].alive && st.modules[m].session == None && st.modules[m].ending == None
      && host < |st.modules| && st.modules[host].alive && st.modules[host].session.Some?
      && st.modules[host].pid == st.modules[m].pid && NewTo(st, m, st.modules[host].session.value)
    case LeaveSession(m) =>
      && m < |st.modules| && st.modules[m].alive && st.modules[m].session.Some?
      && forall t :: 0 <= t < |st.threads| && st.threads[t].mod == m ==> !InFlight(st, t)
    case BeginStamp(t) =>
      InModule(st, t) && st.threads[t].phase == Resting && st.modules[st.threads[t].mod].session.Some?
    case TryClaim(t, _) => InFlight(st, t) && st.threads[t].phase.Claiming?
    case Attach(t, seen, _) =>
      InFlight(st, t) && st.threads[t].phase == Attaching && st.threads[t].ring.Some?
      && (var i := st.threads[t].ring.value;
          i < |st.rings| && st.rings[i].carried <= seen <= st.rings[i].head)
    case Publish(t) =>
      InFlight(st, t) && st.threads[t].phase == Storing && st.threads[t].ring.Some?
      && st.threads[t].ring.value < |st.rings|
    case Exit(t) =>
      InModule(st, t) && st.threads[t].phase == Resting
      && (st.threads[t].hook.Some? ==> st.threads[t].hook.value.ring < |st.rings|)
    case BeginShutdown(m) =>
      && m < |st.modules| && st.modules[m].alive && st.modules[m].session.Some? && st.modules[m].ending == None
      && (forall n :: 0 <= n < |st.modules| && n != m ==> st.modules[n].session != st.modules[m].session)
      && forall t :: 0 <= t < |st.threads| && st.threads[t].mod == m ==> !InFlight(st, t)
    case RetireOne(m) => m < |st.modules| && st.modules[m].alive && st.modules[m].ending.Some?
    case Die(pid) => true
    case Reclaim(i) =>
      i < |st.rings| && st.rings[i].owner.Active?
      && forall m :: 0 <= m < |st.modules| && st.modules[m].pid == st.rings[i].owner.pid ==> !st.modules[m].alive
    case Drain(i, to) => i < |st.rings| == |st.cursors| && st.cursors[i] <= to <= st.rings[i].head
    case SeeRetired(i) => i < |st.rings| && st.rings[i].owner.Retired?
    case CheckHead(seen) =>
      st.task.Seen? && st.task.i < |st.rings| && st.rings[st.task.i].carried <= seen <= st.rings[st.task.i].head
    case Release => st.task.Drained? && st.task.i < |st.rings|
    case NewCollector(at) =>
      |at| == |st.rings| && forall i :: 0 <= i < |at| ==> at[i] <= st.rings[i].head
    case ReuseTable =>
      forall m :: 0 <= m < |st.modules| && st.modules[m].alive ==>
        st.modules[m].session == None && st.modules[m].ending == None
  }

  function Put(st: State, t: nat, th: Thread): State
    requires t < |st.threads|
  {
    st.(threads := st.threads[t := th])
  }

  function Next(st: State, a: Action): State
    requires Enabled(st, a)
  {
    match a
    case StartSession(m) =>
      st.(modules := st.modules[m := st.modules[m].(session := Some(st.nextTag))], nextTag := st.nextTag + 1)
    case JoinSession(m, host) =>
      st.(modules := st.modules[m := st.modules[m].(session := st.modules[host].session)])
    case LeaveSession(m) =>
      st.(modules := st.modules[m := st.modules[m].(session := None)])
    case BeginStamp(t) =>
      var th := st.threads[t];
      var tag := st.modules[th.mod].session.value;
      if th.session != tag then Put(st, t, th.(session := tag, ring := None, next := 0, phase := Claiming(0)))
      else if th.ring.Some? then Put(st, t, th.(phase := Storing))
      else st
    case TryClaim(t, looksTaken) =>
      var th := st.threads[t];
      var i := th.phase.i;
      if i >= |st.rings| then Put(st, t, th.(phase := Resting))
      else if looksTaken || st.rings[i].owner != Free then Put(st, t, th.(phase := Claiming(i + 1)))
      else
        Put(st, t, th.(ring := Some(i), phase := Attaching, hook := Some(Hook(th.session, i))))
        .(rings := st.rings[i := st.rings[i].(owner := Active(st.modules[th.mod].pid, th.session))])
    case Attach(t, seen, stamping) =>
      Put(st, t, st.threads[t].(next := seen, phase := if stamping then Storing else Resting))
    case Publish(t) =>
      var th := st.threads[t];
      var i := th.ring.value;
      Put(st, t, th.(next := th.next + 1, phase := Resting))
      .(rings := st.rings[i := st.rings[i].(head := th.next + 1)])
    case Exit(t) =>
      var th := st.threads[t];
      var md := st.modules[th.mod];
      var gone := Put(st, t, th.(alive := false));
      if th.hook.Some? && md.session == Some(th.hook.value.tag)
      then gone.(rings := Retire(st.rings, th.hook.value.ring, Active(md.pid, th.hook.value.tag)))
      else gone
    case BeginShutdown(m) =>
      var md := st.modules[m];
      st.(modules := st.modules[m := md.(session := None, ending := Some(Hook(md.session.value, 0)))])
    case RetireOne(m) =>
      var md := st.modules[m];
      var h := md.ending.value;
      if h.ring >= |st.rings| then st.(modules := st.modules[m := md.(ending := None)])
      else st.(modules := st.modules[m := md.(ending := Some(Hook(h.tag, h.ring + 1)))],
               rings := Retire(st.rings, h.ring, Active(md.pid, h.tag)))
    case Die(pid) =>
      st.(modules := seq(|st.modules|, m requires 0 <= m < |st.modules| =>
            if st.modules[m].pid == pid then st.modules[m].(alive := false) else st.modules[m]))
    case Reclaim(i) => st.(rings := Retire(st.rings, i, st.rings[i].owner))
    case Drain(i, to) => st.(cursors := st.cursors[i := to])
    case SeeRetired(i) => st.(task := Seen(i, st.rings[i].owner))
    case CheckHead(seen) =>
      var i := st.task.i;
      st.(task := if i < |st.cursors| && st.cursors[i] >= seen then Drained(i, st.task.word) else Sweeping)
    case Release =>
      var i := st.task.i;
      st.(task := Sweeping,
          rings := if st.rings[i].owner == st.task.word then st.rings[i := st.rings[i].(owner := Free)] else st.rings)
    case NewCollector(at) => st.(cursors := at, task := Sweeping)
    case ReuseTable =>
      st.(rings := seq(|st.rings|, i requires 0 <= i < |st.rings| => Ring(Free, st.rings[i].head, st.rings[i].head)),
          cursors := seq(|st.rings|, i requires 0 <= i < |st.rings| => st.rings[i].head), task := Sweeping)
  }

  // ---- What every action keeps --------------------------------------------

  /** Thread t may publish into a ring: it is bound to one in the session its module stamps into. */
  predicate Writes(st: State, t: nat) {
    && InModule(st, t) && st.threads[t].ring.Some?
    && st.modules[st.threads[t].mod].session == Some(st.threads[t].session)
  }

  /** A writer holds its ring's word, its exit hook will give that ring back, and its own copy of the head
      is the head. */
  predicate WriterOk(st: State, t: nat)
    requires Writes(st, t)
  {
    var th := st.threads[t];
    var i := th.ring.value;
    && i < |st.rings| && st.rings[i].owner == Active(st.modules[th.mod].pid, th.session)
    && th.hook == Some(Hook(th.session, i))
    && (if th.phase == Attaching then st.rings[i].carried == st.rings[i].head else th.next == st.rings[i].head)
  }

  predicate ThreadOk(st: State, t: nat)
    requires t < |st.threads|
  {
    var th := st.threads[t];
    && th.mod < |st.modules| && th.session < st.nextTag
    && (th.hook.Some? ==> th.hook.value.ring < |st.rings| && th.hook.value.tag < st.nextTag)
    && (InFlight(st, t) ==> st.modules[th.mod].session == Some(th.session))
    && (InFlight(st, t) && !th.phase.Claiming? ==> th.ring.Some?)
    && (InFlight(st, t) && th.phase.Claiming? ==> th.ring == None)
    && (th.hook.Some? && st.modules[th.mod].session == Some(th.hook.value.tag) ==>
          th.session == th.hook.value.tag && th.ring == Some(th.hook.value.ring))
    && (Writes(st, t) ==> WriterOk(st, t))
  }

  predicate RingOk(st: State, i: nat)
    requires i < |st.rings| == |st.cursors|
  {
    var r := st.rings[i];
    && r.carried <= r.head && st.cursors[i] <= r.head && (!r.owner.Active? ==> r.carried == r.head)
  }

  /** Only modules of one process share a session, none is in a session that is being shut down, and no
      session has a tag yet to be given out. */
  predicate TagsApart(st: State) {
    && (forall m :: 0 <= m < |st.modules| ==>
          && (st.modules[m].session.Some? ==> st.modules[m].session.value < st.nextTag)
          && (st.modules[m].ending.Some? ==> st.modules[m].ending.value.tag < st.nextTag)
          && (st.modules[m].session.Some? && st.modules[m].ending.Some? ==>
                st.modules[m].session.value != st.modules[m].ending.value.tag))
    && (forall m, n :: 0 <= m < |st.modules| && 0 <= n < |st.modules| && m != n && st.modules[m].session.Some? ==>
          && (st.modules[n].session == st.modules[m].session ==> st.modules[n].pid == st.modules[m].pid)
          && (st.modules[n].ending.Some? ==> st.modules[n].ending.value.tag != st.modules[m].session.value))
  }

  predicate OneWriterEach(st: State) {
    forall t, u :: 0 <= t < u < |st.threads| && Writes(st, t) && Writes(st, u) ==>
      st.threads[t].ring != st.threads[u].ring
  }

  predicate TaskOk(st: State)
    requires |st.rings| == |st.cursors|
  {
    match st.task
    case Sweeping => true
    case Seen(i, word) => i < |st.rings| && word.Retired? && st.rings[i].owner == word
    case Drained(i, word) =>
      i < |st.rings| && word.Retired? && st.rings[i].owner == word && st.cursors[i] == st.rings[i].head
  }

  predicate Inv(st: State) {
    && |st.rings| == |st.cursors| && st.nextTag > 0
    && (forall t :: 0 <= t < |st.threads| ==> ThreadOk(st, t))
    && (forall i :: 0 <= i < |st.rings| ==> RingOk(st, i))
    && TagsApart(st) && OneWriterEach(st) && TaskOk(st)
  }

  /** A table as create() lays it out, before any session. */
  ghost predicate Init(st: State) {
    && |st.rings| == |st.cursors| && st.nextTag == 1 && st.task == Sweeping
    && (forall i :: 0 <= i < |st.rings| ==> st.rings[i] == Ring(Free, 0, 0) && st.cursors[i] == 0)
    && (forall t :: 0 <= t < |st.threads| ==>
          st.threads[t].mod < |st.modules| && st.threads[t].session == 0 && st.threads[t].ring == None
          && st.threads[t].phase == Resting && st.threads[t].hook == None)
    && (forall m :: 0 <= m < |st.modules| ==> st.modules[m].session == None && st.modules[m].ending == None)
  }

  lemma InitOk(st: State)
    requires Init(st)
    ensures Inv(st)
  {
  }

  /** Threads and rings carry over when nothing about them has changed. */
  lemma ThreadsStay(st: State, st': State)
    requires Inv(st) && st'.threads == st.threads && st'.modules == st.modules && st'.nextTag == st.nextTag
    requires |st'.rings| == |st.rings|
    requires forall i :: 0 <= i < |st.rings| ==> RingStays(st, st', i)
    ensures forall t :: 0 <= t < |st'.threads| ==> ThreadOk(st', t)
    ensures TagsApart(st') && OneWriterEach(st')
  {
    forall t | 0 <= t < |st'.threads|
      ensures ThreadOk(st', t)
    {
      assert ThreadOk(st, t);
      if Writes(st', t) {
        assert Writes(st, t);
        assert RingStays(st, st', st.threads[t].ring.value);
      }
    }
    forall t, u | 0 <= t < u < |st'.threads| && Writes(st', t) && Writes(st', u)
      ensures st'.threads[t].ring != st'.threads[u].ring
    {
      assert Writes(st, t) && Writes(st, u);
    }
  }

  /** A ring some thread may be writing is left alone. */
  ghost predicate RingStays(st: State, st': State, i: nat)
    requires i < |st.rings| == |st'.rings|
  {
    st'.rings[i] == st.rings[i] || forall t :: 0 <= t < |st.threads| && Writes(st, t) ==> st.threads[t].ring != Some(i)
  }

  lemma StartSessionKeeps(st: State, m: nat)
    requires Inv(st) && Enabled(st, StartSession(m))
    ensures Inv(Next(st, StartSession(m)))
  {
    var st' := Next(st, StartSession(m));
    forall t | 0 <= t < |st'.threads|
      ensures ThreadOk(st', t) && (Writes(st', t) ==> Writes(st, t))
    {
      assert ThreadOk(st, t);
    }
    forall t, u | 0 <= t < u < |st'.threads| && Writes(st', t) && Writes(st', u)
      ensures st'.threads[t].ring != st'.threads[u].ring
    {
      assert Writes(st, t) && Writes(st, u);
    }
    forall i | 0 <= i < |st'.rings|
      ensures RingOk(st', i)
    {
      assert RingOk(st, i);
    }
  }

  lemma JoinSessionKeeps(st: State, m: nat, host: nat)
    requires Inv(st) && Enabled(st, JoinSession(m, host))
    ensures Inv(Next(st, JoinSession(m, host)))
  {
    var st' := Next(st, JoinSession(m, host));
    forall t | 0 <= t < |st'.threads|
      ensures ThreadOk(st', t) && (Writes(st', t) ==> Writes(st, t))
    {
      assert ThreadOk(st, t);
    }
    forall t, u | 0 <= t < u < |st'.threads| && Writes(st', t) && Writes(st', u)
      ensures st'.threads[t].ring != st'.threads[u].ring
    {
      assert Writes(st, t) && Writes(st, u);
    }
    forall i | 0 <= i < |st'.rings|
      ensures RingOk(st', i)
    {
      assert RingOk(st, i);
    }
  }

  lemma LeaveSessionKeeps(st: State, m: nat)
    requires Inv(st) && Enabled(st, LeaveSession(m))
    ensures Inv(Next(st, LeaveSession(m)))
  {
    FewerWriters(st, Next(st, LeaveSession(m)));
  }

  lemma BeginStampKeeps(st: State, t: nat)
    requires Inv(st) && Enabled(st, BeginStamp(t))
    ensures Inv(Next(st, BeginStamp(t)))
  {
    var st' := Next(st, BeginStamp(t));
    OthersStay(st, st', t);
    assert ThreadOk(st, t);
    forall j | 0 <= j < |st'.rings|
      ensures RingOk(st', j)
    {
      assert RingOk(st, j);
    }
  }

  /** When one thread moves, and no ring another one writes changes, the others are as they were. */
  lemma OthersStay(st: State, st': State, t: nat)
    requires Inv(st) && t < |st.threads| == |st'.threads| && st'.threads == st.threads[t := st'.threads[t]]
    requires st'.modules == st.modules && st'.nextTag == st.nextTag && |st'.rings| == |st.rings|
    requires forall i :: 0 <= i < |st.rings| ==> st'.rings[i] == st.rings[i] || OnlyWriter(st, t, i)
    requires Writes(st', t) ==> (Writes(st, t) && st'.threads[t].ring == st.threads[t].ring)
                                || OnlyWriter(st, t, st'.threads[t].ring.value)
    ensures forall u :: 0 <= u < |st'.threads| && u != t ==> ThreadOk(st', u)
    ensures TagsApart(st') && OneWriterEach(st')
  {
    forall u | 0 <= u < |st'.threads| && u != t
      ensures ThreadOk(st', u) && Writes(st', u) == Writes(st, u)
    {
      assert ThreadOk(st, u);
    }
    forall u, v | 0 <= u < v < |st'.threads| && Writes(st', u) && Writes(st', v)
      ensures st'.threads[u].ring != st'.threads[v].ring
    {
      assert u != t ==> Writes(st, u);
      assert v != t ==> Writes(st, v);
    }
  }

  /** Nobody but thread t may be writing ring i. */
  ghost predicate OnlyWriter(st: State, t: nat, i: nat) {
    forall u :: 0 <= u < |st.threads| && u != t && Writes(st, u) ==> st.threads[u].ring != Some(i)
  }

  lemma WriterIsAlone(st: State, t: nat)
    requires Inv(st) && t < |st.threads| && Writes(st, t)
    ensures OnlyWriter(st, t, st.threads[t].ring.value)
  {
  }

  ghost predicate Unwritten(st: State, i: nat) {
    forall t :: 0 <= t < |st.threads| && Writes(st, t) ==> st.threads[t].ring != Some(i)
  }

  /** A free or retired ring, or one of a session no module names, has no writer. */
  lemma UnownedHasNoWriter(st: State, i: nat)
    requires Inv(st) && i < |st.rings|
    requires st.rings[i].owner.Active? ==>
      forall m :: 0 <= m < |st.modules| && st.modules[m].alive && st.modules[m].pid == st.rings[i].owner.pid ==>
        st.modules[m].session != Some(st.rings[i].owner.tag)
    ensures Unwritten(st, i)
  {
    forall t | 0 <= t < |st.threads| && Writes(st, t)
      ensures st.threads[t].ring != Some(i)
    {
      assert ThreadOk(st, t) && WriterOk(st, t);
    }
  }

  lemma TryClaimKeeps(st: State, t: nat, looksTaken: bool)
    requires Inv(st) && Enabled(st, TryClaim(t, looksTaken))
    ensures Inv(Next(st, TryClaim(t, looksTaken)))
  {
    var st' := Next(st, TryClaim(t, looksTaken));
    var i := st.threads[t].phase.i;
    assert ThreadOk(st, t);
    if i < |st.rings| {
      if st.rings[i].owner == Free {
        UnownedHasNoWriter(st, i);
      }
      assert RingOk(st, i);
    }
    OthersStay(st, st', t);
    forall j | 0 <= j < |st'.rings|
      ensures RingOk(st', j)
    {
      assert RingOk(st, j);
    }
  }

  lemma AttachKeeps(st: State, t: nat, seen: nat, stamping: bool)
    requires Inv(st) && Enabled(st, Attach(t, seen, stamping))
    ensures Inv(Next(st, Attach(t, seen, stamping)))
  {
    var st' := Next(st, Attach(t, seen, stamping));
    assert ThreadOk(st, t) && WriterOk(st, t);
    OthersStay(st, st', t);
    forall j | 0 <= j < |st'.rings|
      ensures RingOk(st', j)
    {
      assert RingOk(st, j);
    }
  }

  lemma PublishKeeps(st: State, t: nat)
    requires Inv(st) && Enabled(st, Publish(t))
    ensures Inv(Next(st, Publish(t)))
  {
    var st' := Next(st, Publish(t));
    assert ThreadOk(st, t) && WriterOk(st, t);
    WriterIsAlone(st, t);
    OthersStay(st, st', t);
    forall j | 0 <= j < |st'.rings|
      ensures RingOk(st', j)
    {
      assert RingOk(st, j);
    }
  }

  /** A thread's exit hands back the ring it writes, and nobody else's. */
  lemma ExitKeeps(st: State, t: nat)
    requires Inv(st) && Enabled(st, Exit(t))
    ensures Inv(Next(st, Exit(t)))
    ensures Writes(st, t) ==> WriterOk(st, t) && st.rings[st.threads[t].ring.value].owner.Active?
    ensures Next(st, Exit(t)).rings ==
            if Writes(st, t) then
              var i := st.threads[t].ring.value;
              st.rings[i := HandedBack(st.rings[i])]
            else st.rings
  {
    var st' := Next(st, Exit(t));
    assert ThreadOk(st, t);
    var th := st.threads[t];
    if th.hook.Some? && st.modules[th.mod].session == Some(th.hook.value.tag) {
      assert Writes(st, t);
      WriterIsAlone(st, t);
    }
    OthersStay(st, st', t);
    forall j | 0 <= j < |st'.rings|
      ensures RingOk(st', j)
    {
      assert RingOk(st, j);
    }
  }

  lemma BeginShutdownKeeps(st: State, m: nat)
    requires Inv(st) && Enabled(st, BeginShutdown(m))
    ensures Inv(Next(st, BeginShutdown(m)))
  {
    var st' := Next(st, BeginShutdown(m));
    FewerWriters(st, st');
  }

  /** When modules only let go of sessions, or die, there are only fewer writers. */
  lemma FewerWriters(st: State, st': State)
    requires Inv(st) && st'.threads == st.threads && st'.rings == st.rings && st'.cursors == st.cursors
    requires st'.nextTag == st.nextTag && st'.task == st.task && |st'.modules| == |st.modules|
    requires forall m :: 0 <= m < |st.modules| ==> LetsGo(st.modules[m], st'.modules[m])
    requires TagsApart(st')
    requires forall t :: 0 <= t < |st.threads| && InFlight(st', t) ==>
               st.threads[t].mod < |st.modules|
               && st'.modules[st.threads[t].mod].session == st.modules[st.threads[t].mod].session
    ensures Inv(st')
  {
    forall t | 0 <= t < |st'.threads|
      ensures ThreadOk(st', t) && (Writes(st', t) ==> Writes(st, t))
    {
      assert ThreadOk(st, t);
      assert LetsGo(st.modules[st.threads[t].mod], st'.modules[st.threads[t].mod]);
    }
    forall t, u | 0 <= t < u < |st'.threads| && Writes(st', t) && Writes(st', u)
      ensures st'.threads[t].ring != st'.threads[u].ring
    {
      assert Writes(st, t) && Writes(st, u);
    }
    forall i | 0 <= i < |st'.rings|
      ensures RingOk(st', i)
    {
      assert RingOk(st, i);
    }
  }

  predicate LetsGo(was: Module, now: Module) {
    && now.pid == was.pid && (now.alive ==> was.alive)
    && (now.session == was.session || now.session == None)
  }

  /** Shutdown hands the next ring back if its session holds it, and then nobody is writing that. */
  lemma RetireOneKeeps(st: State, m: nat)
    requires Inv(st) && Enabled(st, RetireOne(m))
    ensures Inv(Next(st, RetireOne(m)))
    ensures var h, word := st.modules[m].ending.value, Active(st.modules[m].pid, st.modules[m].ending.value.tag);
      if h.ring < |st.rings| && st.rings[h.ring].owner == word then
        Next(st, RetireOne(m)).rings == st.rings[h.ring := HandedBack(st.rings[h.ring])] && Unwritten(st, h.ring)
      else Next(st, RetireOne(m)).rings == st.rings
  {
    var st' := Next(st, RetireOne(m));
    var h := st.modules[m].ending.value;
    var mid := st.(rings := st'.rings);
    if h.ring < |st.rings| {
      RetireUnowned(st, h.ring, Active(st.modules[m].pid, h.tag));
      if st.rings[h.ring].owner == Active(st.modules[m].pid, h.tag) {
        UnownedHasNoWriter(st, h.ring);
      }
    }
    FewerWriters(mid, st');
  }

  /** Retiring a ring nobody writes. */
  lemma RetireUnowned(st: State, i: nat, word: Word)
    requires Inv(st) && i < |st.rings| && word.Active?
    requires forall m :: 0 <= m < |st.modules| && st.modules[m].alive && st.modules[m].pid == word.pid ==>
               st.modules[m].session != Some(word.tag)
    ensures Inv(st.(rings := Retire(st.rings, i, word)))
  {
    var st' := st.(rings := Retire(st.rings, i, word));
    if st.rings[i].owner == word {
      UnownedHasNoWriter(st, i);
    }
    ThreadsStay(st, st');
    forall j | 0 <= j < |st'.rings|
      ensures RingOk(st', j)
    {
      assert RingOk(st, j);
    }
  }

  lemma DieKeeps(st: State, pid: nat)
    requires Inv(st)
    ensures Inv(Next(st, Die(pid)))
  {
    FewerWriters(st, Next(st, Die(pid)));
  }

  /** A dead process's ring is handed back on its behalf; nobody is writing it. */
  lemma ReclaimKeeps(st: State, i: nat)
    requires Inv(st) && Enabled(st, Reclaim(i))
    ensures Inv(Next(st, Reclaim(i)))
    ensures Next(st, Reclaim(i)).rings == st.rings[i := HandedBack(st.rings[i])] && Unwritten(st, i)
  {
    UnownedHasNoWriter(st, i);
    RetireUnowned(st, i, st.rings[i].owner);
  }

  /** The collector's own moves. */
  lemma CollectorKeeps(st: State, a: Action)
    requires Inv(st) && Enabled(st, a)
    requires a.Drain? || a.SeeRetired? || a.CheckHead? || a.Release? || a.NewCollector? || a.ReuseTable?
    ensures Inv(Next(st, a))
  {
    var st' := Next(st, a);
    if a.Release? {
      UnownedHasNoWriter(st, st.task.i);
    } else if a.ReuseTable? {
      assert forall t :: !Writes(st, t);
    }
    ThreadsStay(st, st');
    forall j | 0 <= j < |st'.rings|
      ensures RingOk(st', j)
    {
      assert RingOk(st, j);
    }
    if st.task != Sweeping {
      assert RingOk(st, st.task.i);
    }
  }

  lemma ActionKeeps(st: State, a: Action)
    requires Inv(st) && Enabled(st, a)
    ensures Inv(Next(st, a))
  {
    match a
    case StartSession(m) => StartSessionKeeps(st, m);
    case JoinSession(m, host) => JoinSessionKeeps(st, m, host);
    case LeaveSession(m) => LeaveSessionKeeps(st, m);
    case BeginStamp(t) => BeginStampKeeps(st, t);
    case TryClaim(t, looksTaken) => TryClaimKeeps(st, t, looksTaken);
    case Attach(t, seen, stamping) => AttachKeeps(st, t, seen, stamping);
    case Publish(t) => PublishKeeps(st, t);
    case Exit(t) => ExitKeeps(st, t);
    case BeginShutdown(m) => BeginShutdownKeeps(st, m);
    case RetireOne(m) => RetireOneKeeps(st, m);
    case Die(pid) => DieKeeps(st, pid);
    case Reclaim(i) => ReclaimKeeps(st, i);
    case _ => CollectorKeeps(st, a);
  }

  // ---- Whole runs ---------------------------------------------------------

  ghost predicate Reaches(st: State, actions: seq<Action>, end: State)
    decreases |actions|
  {
    if actions == [] then end == st
    else Enabled(st, actions[0]) && Reaches(Next(st, actions[0]), actions[1..], end)
  }

  lemma {:induction false} ReachesOk(st: State, actions: seq<Action>, end: State)
    requires Inv(st) && Reaches(st, actions, end)
    ensures Inv(end)
    decreases |actions|
  {
    if actions != [] {
      ActionKeeps(st, actions[0]);
      ReachesOk(Next(st, actions[0]), actions[1..], end);
    }
  }

  /** Whatever has happened, a ring has at most one writer, and a writer's own count is the ring's head, the
      ring's word being its session's. */
  lemma OneWriter(st: State, actions: seq<Action>, end: State, i: nat)
    requires Init(st) && Reaches(st, actions, end) && i < |end.rings|
    ensures forall t, u :: 0 <= t < u < |end.threads| && Writes(end, t) && Writes(end, u) ==>
              !(end.threads[t].ring == end.threads[u].ring == Some(i))
    ensures forall t :: 0 <= t < |end.threads| && Writes(end, t) && end.threads[t].ring == Some(i) ==>
              end.rings[i].owner == Active(end.modules[end.threads[t].mod].pid, end.threads[t].session)
              && (end.threads[t].phase != Attaching ==> end.threads[t].next == end.rings[i].head)
  {
    InitOk(st);
    ReachesOk(st, actions, end);
    forall t | 0 <= t < |end.threads| && Writes(end, t) && end.threads[t].ring == Some(i)
      ensures end.rings[i].owner == Active(end.modules[end.threads[t].mod].pid, end.threads[t].session)
      ensures end.threads[t].phase != Attaching ==> end.threads[t].next == end.rings[i].head
    {
      assert ThreadOk(end, t);
    }
  }

  /** A new owner goes on exactly where the last one stopped: the head it loads is the head. */
  lemma AttachSeesTheHead(st: State, t: nat, seen: nat, stamping: bool)
    requires Inv(st) && Enabled(st, Attach(t, seen, stamping))
    ensures seen == st.rings[st.threads[t].ring.value].head
  {
    assert ThreadOk(st, t) && WriterOk(st, t);
  }

  /** No action ever lowers a head, and only a publish raises one, by one. */
  lemma HeadsOnlyRise(st: State, a: Action, i: nat)
    requires Inv(st) && Enabled(st, a) && i < |st.rings|
    ensures i < |Next(st, a).rings|
    ensures var was, now := st.rings[i].head, Next(st, a).rings[i].head;
      now == if a.Publish? && st.threads[a.t].ring == Some(i) then was + 1 else was
  {
    if a.Publish? {
      assert ThreadOk(st, a.t) && WriterOk(st, a.t);
    }
  }

  lemma {:induction false} HeadsNeverFall(st: State, actions: seq<Action>, end: State, i: nat)
    requires Inv(st) && Reaches(st, actions, end) && i < |st.rings|
    ensures i < |end.rings| && st.rings[i].head <= end.rings[i].head
    decreases |actions|
  {
    if actions != [] {
      HeadsOnlyRise(st, actions[0], i);
      ActionKeeps(st, actions[0]);
      HeadsNeverFall(Next(st, actions[0]), actions[1..], end, i);
    }
  }

  /** The collector frees a ring only when it was retired, nobody can publish into it, and the cursor has
      reached a head that is final. */
  lemma FreedOnlyWhenDrained(st: State, i: nat)
    requires Inv(st) && Enabled(st, Release) && i < |st.rings| && !st.rings[i].owner.Free?
    requires Next(st, Release).rings[i].owner == Free
    ensures st.rings[i].owner.Retired? && st.cursors[i] == st.rings[i].head && Unwritten(st, i)
  {
    UnownedHasNoWriter(st, i);
  }

  /** Only the collector frees rings, short of a whole table being taken over between sessions. */
  lemma NobodyElseFrees(st: State, a: Action, i: nat)
    requires Inv(st) && Enabled(st, a) && i < |st.rings| && !st.rings[i].owner.Free?
    requires Next(st, a).rings[i].owner == Free
    ensures a.Release? || a.ReuseTable?
  {
  }
}
