/** The ring table and its users as they are coded, each with everybody else free to act between any two of
    its memory accesses. Each access is one action of RingOwnership. */
module RingTables {
  import opened Options
  import opened RingOwnership

  /** Later on the same table: heads have only risen, and the dead are dead. */
  predicate Onward(a: State, b: State) {
    && |b.rings| == |a.rings| && |b.threads| == |a.threads| && |b.modules| == |a.modules|
    && (forall i :: 0 <= i < |a.rings| ==> a.rings[i].head <= b.rings[i].head)
    && (forall t :: 0 <= t < |a.threads| ==> b.threads[t].mod == a.threads[t].mod)
    && (forall m :: 0 <= m < |a.modules| ==>
          b.modules[m].pid == a.modules[m].pid && (b.modules[m].alive ==> a.modules[m].alive))
  }

  lemma OnwardThrough(a: State, b: State, c: State)
    requires Onward(a, b) && Onward(b, c)
    ensures Onward(a, c)
  {
    forall i | 0 <= i < |a.rings|
      ensures a.rings[i].head <= c.rings[i].head
    {
      assert a.rings[i].head <= b.rings[i].head;
    }
    forall m | 0 <= m < |a.modules|
      ensures c.modules[m].pid == a.modules[m].pid && (c.modules[m].alive ==> a.modules[m].alive)
    {
      assert b.modules[m].pid == a.modules[m].pid;
    }
  }

  lemma ActionIsOnward(st: State, a: Action)
    requires Inv(st) && Enabled(st, a)
    ensures Onward(st, Next(st, a))
  {
    forall i | 0 <= i < |st.rings|
      ensures i < |Next(st, a).rings| && st.rings[i].head <= Next(st, a).rings[i].head
    {
      HeadsOnlyRise(st, a, i);
    }
  }

  // ---- What each may count on ---------------------------------------------

  /** A thread of a live session keeps its binding, and the ring it writes, while others act. */
  predicate ThreadUndisturbed(a: State, b: State, t: nat) {
    && Onward(a, b) && InModule(a, t) && InModule(b, t) && b.threads[t] == a.threads[t]
    && b.modules[a.threads[t].mod].session == a.modules[a.threads[t].mod].session
    && (Writes(a, t) ==> a.threads[t].ring.value < |a.rings| &&
                         b.rings[a.threads[t].ring.value] == a.rings[a.threads[t].ring.value])
  }

  /** An action that is not thread t's, nor the end of its process or of its module's session. */
  predicate NotOf(st: State, a: Action, t: nat)
    requires InModule(st, t)
  {
    && a != BeginStamp(t) && !(a.TryClaim? && a.t == t) && !(a.Attach? && a.t == t)
    && a != Publish(t) && a != Exit(t)
    && a != Die(st.modules[st.threads[t].mod].pid)
    && a != BeginShutdown(st.threads[t].mod) && a != LeaveSession(st.threads[t].mod)
  }

  lemma OthersLeaveThread(st: State, a: Action, t: nat)
    requires Inv(st) && Enabled(st, a) && InModule(st, t) && st.modules[st.threads[t].mod].session.Some?
    requires NotOf(st, a, t)
    ensures ThreadUndisturbed(st, Next(st, a), t)
  {
    ActionIsOnward(st, a);
    assert ThreadOk(st, t);
    if Writes(st, t) {
      assert WriterOk(st, t);
      WriterIsAlone(st, t);
      WrittenRingStays(st, a, t);
    }
  }

  lemma ThreadUndisturbedThrough(a: State, b: State, c: State, t: nat)
    requires ThreadUndisturbed(a, b, t) && ThreadUndisturbed(b, c, t)
    ensures ThreadUndisturbed(a, c, t)
  {
    OnwardThrough(a, b, c);
  }

  lemma WrittenRingStays(st: State, a: Action, t: nat)
    requires Inv(st) && Enabled(st, a) && Writes(st, t) && WriterOk(st, t) && NotOf(st, a, t)
    ensures Next(st, a).rings[st.threads[t].ring.value] == st.rings[st.threads[t].ring.value]
  {
    match a
    case Publish(u) =>
      assert ThreadOk(st, u);
    case Exit(u) => assert ThreadOk(st, u);
    case _ =>
  }

  /** While others act, the collector's cursors and place stay as they are, and so does a ring that is retired
      or that a dead process holds; no ring is freed. */
  predicate CollectorUndisturbed(a: State, b: State) {
    && Onward(a, b) && b.cursors == a.cursors && b.task == a.task
    && (forall i :: 0 <= i < |a.rings| && (a.rings[i].owner.Retired? || HeldByDead(a, i)) ==> b.rings[i] == a.rings[i])
    && (forall i :: 0 <= i < |a.rings| && !a.rings[i].owner.Free? ==> !b.rings[i].owner.Free?)
  }

  predicate NotCollectors(a: Action) {
    !(a.Drain? || a.SeeRetired? || a.CheckHead? || a.Release? || a.Reclaim? || a.NewCollector? || a.ReuseTable?)
  }

  lemma OthersLeaveCollector(st: State, a: Action)
    requires Inv(st) && Enabled(st, a) && NotCollectors(a)
    ensures CollectorUndisturbed(st, Next(st, a))
  {
    ActionIsOnward(st, a);
    if a.Publish? {
      assert ThreadOk(st, a.t);
    }
  }

  lemma CollectorUndisturbedThrough(a: State, b: State, c: State)
    requires CollectorUndisturbed(a, b) && CollectorUndisturbed(b, c)
    ensures CollectorUndisturbed(a, c)
  {
    OnwardThrough(a, b, c);
    forall i | 0 <= i < |a.rings| && HeldByDead(a, i)
      ensures c.rings[i] == a.rings[i]
    {
      StillDead(a, b, i);
    }
  }

  /** A module shutting down keeps its place, and nobody gets a ring under the session it is ending. */
  predicate ModuleUndisturbed(a: State, b: State, m: nat) {
    && Onward(a, b) && m < |a.modules| && b.modules[m] == a.modules[m] && a.modules[m].ending.Some?
    && forall i :: 0 <= i < |a.rings| ==> Took(a, b, m, i)
  }

  predicate Took(a: State, b: State, m: nat, i: nat)
    requires m < |a.modules| && a.modules[m].ending.Some? && i < |a.rings| == |b.rings|
  {
    var word := Active(a.modules[m].pid, a.modules[m].ending.value.tag);
    b.rings[i].owner == word ==> a.rings[i].owner == word
  }

  predicate NotOfModule(st: State, a: Action, m: nat)
    requires m < |st.modules|
  {
    && a != StartSession(m) && !(a.JoinSession? && a.m == m) && a != LeaveSession(m)
    && a != RetireOne(m) && a != BeginShutdown(m) && a != Die(st.modules[m].pid)
  }

  lemma OthersLeaveModule(st: State, a: Action, m: nat)
    requires Inv(st) && Enabled(st, a) && m < |st.modules| && st.modules[m].ending.Some? && NotOfModule(st, a, m)
    ensures ModuleUndisturbed(st, Next(st, a), m)
  {
    ActionIsOnward(st, a);
    if a.TryClaim? {
      assert ThreadOk(st, a.t);
    }
  }

  lemma ModuleUndisturbedThrough(a: State, b: State, c: State, m: nat)
    requires ModuleUndisturbed(a, b, m) && ModuleUndisturbed(b, c, m)
    ensures ModuleUndisturbed(a, c, m)
  {
    OnwardThrough(a, b, c);
    forall i | 0 <= i < |a.rings|
      ensures Took(a, c, m, i)
    {
      assert Took(a, b, m, i) && Took(b, c, m, i);
    }
  }

  /** One state follows another by some action. */
  ghost predicate Follows(a: State, b: State) {
    exists act :: Enabled(a, act) && b == Next(a, act)
  }

  ghost predicate IsRun(moments: seq<State>) {
    moments != [] && forall i :: 0 < i < |moments| ==> Follows(moments[i - 1], moments[i])
  }

  /** At one of these moments ring k was not free. */
  ghost predicate Taken(moments: seq<State>, k: nat) {
    exists j :: 0 <= j < |moments| && k < |moments[j].rings| && moments[j].rings[k].owner != Free
  }

  /** Ring k, free until now, becomes one of this thread's session. */
  ghost predicate JustClaimed(a: State, b: State, t: nat, k: nat) {
    && k < |a.rings| && k < |b.rings| && a.rings[k].owner == Free && InModule(b, t)
    && b.rings[k].owner == Active(b.modules[b.threads[t].mod].pid, b.threads[t].session)
  }

  /** The last thing that happened is that the thread claimed ring k. */
  ghost predicate EndsInClaim(moments: seq<State>, t: nat, k: nat) {
    |moments| >= 2 && JustClaimed(moments[|moments| - 2], moments[|moments| - 1], t, k)
  }

  /** Thread t has tried ring k of n: past the last it rests without one; else the ring was taken, or looked
      so, and the next is tried, or it is the thread's. */
  ghost predicate Tried(moments: seq<State>, th: Thread, t: nat, k: nat, n: nat, sure: set<nat>) {
    if k >= n then th.phase == Resting && th.ring == None
    else
      || (th.phase == Claiming(k + 1) && (k in sure ==> Taken(moments, k)))
      || (th.phase == Attaching && th.ring == Some(k) && EndsInClaim(moments, t, k))
  }

  lemma TryClaimTakes(st: State, t: nat, looksTaken: bool)
    requires Inv(st) && InModule(st, t) && Enabled(st, TryClaim(t, looksTaken))
    ensures var st', k := Next(st, TryClaim(t, looksTaken)), st.threads[t].phase.i;
            && InModule(st', t) && SameSession(st, st', t)
            && if k >= |st.rings| then st'.threads[t].phase == Resting && st'.threads[t].ring == None
               else if looksTaken || st.rings[k].owner != Free then st'.threads[t].phase == Claiming(k + 1)
               else st'.threads[t].phase == Attaching && st'.threads[t].ring == Some(k) && JustClaimed(st, st', t, k)
  {
    assert ThreadOk(st, t);
  }

  /** Every one of these rings was taken at some moment. */
  ghost predicate AllTaken(moments: seq<State>, sure: set<nat>, n: nat) {
    forall k :: k in sure && k < n ==> Taken(moments, k)
  }

  lemma TakenStill(moments: seq<State>, later: seq<State>, sure: set<nat>, n: nat)
    requires moments <= later && AllTaken(moments, sure, n)
    ensures AllTaken(later, sure, n)
  {
    forall k | k in sure && k < n
      ensures Taken(later, k)
    {
      assert Taken(moments, k);
      var j :| 0 <= j < |moments| && k < |moments[j].rings| && moments[j].rings[k].owner != Free;
      assert later[j] == moments[j];
    }
  }

  lemma TakenNow(known: seq<State>, later: seq<State>, st: State, k: nat)
    requires known <= later && known != [] && known[|known| - 1] == st && k < |st.rings|
    requires Taken(known, k) || st.rings[k].owner != Free
    ensures Taken(later, k)
  {
    if st.rings[k].owner != Free {
      assert later[|known| - 1] == st;
    } else {
      assert AllTaken(known, {k}, k + 1);
      TakenStill(known, later, {k}, k + 1);
      assert k in {k};
    }
  }

  class RingTable {
    var st: State
    /** The states there have been since the stamp under way began. */
    var moments: seq<State>

    ghost predicate Valid()
      reads this
    {
      Inv(st)
    }

    ghost predicate Traced()
      reads this
    {
      IsRun(moments) && moments[|moments| - 1] == st
    }

    method Act(a: Action)
      requires Valid() && Enabled(st, a)
      modifies this
      ensures Valid() && st == Next(old(st), a) && Onward(old(st), st)
      ensures moments == old(moments) + [st] && (old(Traced()) ==> Traced())
    {
      ActionKeeps(st, a);
      ActionIsOnward(st, a);
      assert Follows(st, Next(st, a));
      st := Next(st, a);
      moments := moments + [st];
    }

    // ---- An instrumented thread -------------------------------------------

    /** Everybody but thread t acts, any number of times; t's process lives, and its session is not ended
        under a stamp. */
    method OthersRun(t: nat)
      requires Valid() && InModule(st, t) && st.modules[st.threads[t].mod].session.Some?
      modifies this
      ensures Valid() && ThreadUndisturbed(old(st), st, t)
      ensures old(moments) <= moments && (old(Traced()) ==> Traced())
    {
      NothingHappened(st, t);
      var actions: int := *;
      while actions > 0
        invariant Valid() && ThreadUndisturbed(old(st), st, t)
        invariant old(moments) <= moments && (old(Traced()) ==> Traced())
      {
        actions := actions - 1;
        var a: Action := *;
        if Enabled(st, a) && NotOf(st, a, t) {
          ghost var before := st;
          OthersLeaveThread(st, a, t);
          Act(a);
          ThreadUndisturbedThrough(old(st), before, st, t);
        }
      }
    }

    /** Claim a free ring for the thread's session, the first found free; none when all look taken. Of the
        rings in `sure` the thread sees no word from before the stamp began; another, though free, may look
        taken. */
    method Claim(t: nat, sure: set<nat>) returns (i: Option<nat>)
      requires Valid() && Traced() && InModule(st, t) && st.threads[t].phase == Claiming(0)
      modifies this
      ensures Valid() && Onward(old(st), st) && InModule(st, t)
      ensures SameSession(old(st), st, t) && Traced() && old(moments) <= moments
      ensures i.Some? ==> i.value < |st.rings| && st.threads[t].ring == i && st.threads[t].phase == Attaching
      ensures i.Some? ==> EndsInClaim(moments, t, i.value) && AllTaken(moments, sure, i.value)
      ensures i == None ==> st.threads[t].ring == None && st.threads[t].phase == Resting
      ensures i == None ==> AllTaken(moments, sure, |st.rings|)
    {
      assert ThreadOk(st, t);
      NothingHappened(st, t);
      var count := |st.rings|;
      for k := 0 to count
        invariant Valid() && Onward(old(st), st) && InModule(st, t) && SameSession(old(st), st, t)
        invariant st.threads[t].phase == Claiming(k) && |st.rings| == count
        invariant Traced() && old(moments) <= moments && AllTaken(moments, sure, k)
      {
        ghost var before := st;
        ghost var known := moments;
        TryRing(t, sure);
        OnwardThrough(old(st), before, st);
        TakenStill(known, moments, sure, k);
        if st.threads[t].phase == Attaching {
          return Some(k);
        }
      }
      ghost var before := st;
      ghost var known := moments;
      TryRing(t, sure);
      OnwardThrough(old(st), before, st);
      TakenStill(known, moments, sure, count);
      return None;
    }

    /** Load ring k's word and, if it looks free, try to swap it. */
    method TryRing(t: nat, sure: set<nat>)
      requires Valid() && Traced() && InModule(st, t) && st.threads[t].phase.Claiming?
      modifies this
      ensures Valid() && Onward(old(st), st) && InModule(st, t) && SameSession(old(st), st, t)
      ensures Traced() && old(moments) <= moments
      ensures Tried(moments, st.threads[t], t, old(st.threads[t].phase.i), |st.rings|, sure)
    {
      assert ThreadOk(st, t);
      OthersRun(t);
      ghost var mid := st;
      var looksTaken := LooksTaken(st.threads[t].phase.i, sure);
      Swap(t, looksTaken, sure);
      OnwardThrough(old(st), mid, st);
    }

    /** Swap ring k's word, if the load before found it free. */
    method Swap(t: nat, looksTaken: bool, ghost sure: set<nat>)
      requires Valid() && Traced() && InModule(st, t) && InFlight(st, t) && st.threads[t].phase.Claiming?
      requires looksTaken && st.threads[t].phase.i in sure && st.threads[t].phase.i < |st.rings| ==>
                 Taken(moments, st.threads[t].phase.i)
      modifies this
      ensures Valid() && Onward(old(st), st) && InModule(st, t) && SameSession(old(st), st, t)
      ensures Traced() && old(moments) <= moments
      ensures Tried(moments, st.threads[t], t, old(st.threads[t].phase.i), |st.rings|, sure)
    {
      ghost var mid, known, k := st, moments, st.threads[t].phase.i;
      TryClaimTakes(mid, t, looksTaken);
      Act(TryClaim(t, looksTaken));
      assert moments[|known| - 1] == mid;
      if k in sure && k < |st.rings| && st.threads[t].phase == Claiming(k + 1) {
        TakenNow(known, moments, mid, k);
      }
    }

    /** A relaxed load of ring k's word. It returns a word the ring has or had, for a ring the thread is sure
        of since the stamp began. */
    method LooksTaken(k: nat, sure: set<nat>) returns (taken: bool)
      requires Traced()
      ensures taken && k in sure && k < |st.rings| ==> Taken(moments, k)
    {
      if k < |st.rings| {
        assert k < |moments[|moments| - 1].rings| && moments[|moments| - 1].rings[k].owner == st.rings[k].owner;
        var word: Word;
        word :| k in sure ==>
          exists j :: 0 <= j < |moments| && k < |moments[j].rings| && moments[j].rings[k].owner == word;
        taken := word != Free;
      } else {
        taken := true;
      }
    }

    /** The thread's ring in its module's session, claimed now if this is the first stamp in it; none when
        the thread is to use the shared ring: its claim in this session failed, now or before. A ring comes
        with the thread's count at the ring's head. */
    method BoundWriter(t: nat, sure: set<nat>) returns (bound: bool)
      requires Valid() && InModule(st, t) && st.threads[t].phase == Resting
      requires st.modules[st.threads[t].mod].session.Some?
      modifies this
      ensures Valid() && Onward(old(st), st) && InModule(st, t) && SameModule(old(st), st, t)
      ensures st.modules[st.threads[t].mod].session == Some(st.threads[t].session)
      ensures bound <==> st.threads[t].ring.Some?
      ensures st.threads[t].phase == if bound then Storing else Resting
      ensures bound ==> Writes(st, t) && WriterOk(st, t)
      ensures old(Writes(st, t)) ==>
        bound && st.threads[t].ring == old(st.threads[t].ring) && st.rings == old(st.rings)
      ensures Traced() && moments[0] == old(st)
      ensures !bound ==> old(Unbound(st, t)) || AllTaken(moments, sure, |st.rings|)
      ensures old(Unbound(st, t)) ==> !bound
    {
      ghost var first := st;
      moments := [st];
      Act(BeginStamp(t));
      if st.threads[t].phase.Claiming? {
        ghost var before := st;
        var i := Claim(t, sure);
        OnwardThrough(first, before, st);
        if i.Some? {
          before := st;
          AttachNow(t);
          OnwardThrough(first, before, st);
        }
      }
      bound := st.threads[t].ring.Some?;
      assert ThreadOk(st, t);
    }

    /** Take over the claimed ring where its last owner stopped. */
    method AttachNow(t: nat)
      requires Valid() && InModule(st, t) && st.threads[t].phase == Attaching
      modifies this
      ensures Valid() && Onward(old(st), st) && InModule(st, t) && SameSession(old(st), st, t)
      ensures st.threads[t].ring == old(st.threads[t].ring) && st.threads[t].ring.Some?
      ensures st.threads[t].phase == Storing
      ensures old(moments) <= moments && (old(Traced()) ==> Traced())
    {
      assert ThreadOk(st, t);
      OthersRun(t);
      ghost var mid := st;
      assert ThreadOk(st, t) && WriterOk(st, t);
      var i := st.threads[t].ring.value;
      var seen: nat;
      seen :| st.rings[i].carried <= seen <= st.rings[i].head;
      Act(Attach(t, seen, true));
      OnwardThrough(old(st), mid, st);
    }

    /** A stamp: bind if need be, and publish into the thread's ring, or into the shared one. */
    method Stamp(t: nat, sure: set<nat>) returns (own: bool)
      requires Valid() && InModule(st, t) && st.threads[t].phase == Resting
      requires st.modules[st.threads[t].mod].session.Some?
      modifies this
      ensures Valid() && Onward(old(st), st) && InModule(st, t) && SameModule(old(st), st, t)
      ensures own <==> st.threads[t].ring.Some?
      ensures own ==> Writes(st, t) && st.threads[t].phase == Resting && WriterOk(st, t)
      ensures own ==>
        var i := st.threads[t].ring.value;
        && i < |old(st).rings| && old(st).rings[i].head < st.rings[i].head == st.threads[t].next
        && (old(Writes(st, t)) ==>
              old(st.threads[t].ring) == Some(i) && st.rings[i].head == old(st).rings[i].head + 1)
      ensures Traced() && moments[0] == old(st)
      ensures old(Unbound(st, t)) ==> !own
      ensures !own ==> old(Unbound(st, t)) || AllTaken(moments, sure, |st.rings|)
    {
      ghost var first := st;
      own := BoundWriter(t, sure);
      if own {
        ghost var bound := st;
        OthersRun(t);
        ghost var mid := st;
        assert ThreadOk(st, t);
        OnwardThrough(first, bound, mid);
        Act(Publish(t));
        OnwardThrough(first, mid, st);
        assert ThreadOk(st, t);
      }
    }

    /** A thread exits: the ring it holds in its module's live session, if any, is handed back. */
    method ExitThread(t: nat)
      requires Valid() && InModule(st, t) && st.threads[t].phase == Resting
      modifies this
      ensures Valid() && Onward(old(st), st) && t < |st.threads| && !st.threads[t].alive
      ensures old(Writes(st, t)) ==>
        var th := old(st.threads[t]);
        && th.hook == Some(Hook(th.session, th.ring.value)) && th.ring.value < |st.rings|
        && st.rings[th.ring.value].owner == Retired(old(st.modules)[th.mod].pid, th.session)
        && st.rings[th.ring.value].head == th.next
    {
      assert ThreadOk(st, t);
      NothingHappened(st, t);
      ghost var first := st;
      if st.modules[st.threads[t].mod].session.Some? {
        OthersRun(t);
        assert ThreadOk(st, t);
      }
      ghost var mid := st;
      Act(Exit(t));
      OnwardThrough(first, mid, st);
    }

    // ---- The collector ----------------------------------------------------

    /** Everybody but the collector acts, any number of times. */
    method ProducersRun()
      requires Valid()
      modifies this
      ensures Valid() && CollectorUndisturbed(old(st), st)
    {
      assert Onward(st, st);
      var actions: int := *;
      while actions > 0
        invariant Valid() && CollectorUndisturbed(old(st), st)
      {
        actions := actions - 1;
        var a: Action := *;
        if Enabled(st, a) && NotCollectors(a) {
          ghost var before := st;
          OthersLeaveCollector(st, a);
          Act(a);
          CollectorUndisturbedThrough(old(st), before, st);
        }
      }
    }

    /** Free every retired ring the merge has drained: those freed were, and every ring found retired with
        the cursor at its head is. */
    method ReleaseRetiredRings() returns (freed: seq<nat>)
      requires Valid() && st.task == Sweeping
      modifies this
      ensures Valid() && Onward(old(st), st) && st.task == Sweeping && st.cursors == old(st.cursors)
      ensures forall i :: i in freed ==> i < |st.rings|
      ensures forall i :: i in freed && old(st.rings)[i].owner.Retired? ==> Ready(old(st), i)
      ensures forall i :: 0 <= i < |st.rings| ==> Ready(old(st), i) ==> i in freed
    {
      freed := [];
      assert Onward(st, st);
      var count := |st.rings|;
      for i := 0 to count
        invariant Valid() && Onward(old(st), st) && st.task == Sweeping && st.cursors == old(st.cursors)
        invariant |st.rings| == count && forall j :: j in freed ==> j < i
        invariant forall j :: i <= j < count && old(st.rings)[j].owner.Retired? ==> st.rings[j] == old(st.rings)[j]
        invariant forall j :: j in freed && old(st.rings)[j].owner.Retired? ==> Ready(old(st), j)
        invariant forall j :: 0 <= j < i ==> Ready(old(st), j) ==> j in freed
      {
        ghost var before := st;
        var done := ReleaseRing(i);
        OnwardThrough(old(st), before, st);
        if done {
          freed := freed + [i];
        }
      }
    }

    /** Free ring i if it is retired and drained. What its word and head read is what they are. */
    method ReleaseRing(i: nat) returns (done: bool)
      requires Valid() && st.task == Sweeping && i < |st.rings|
      modifies this
      ensures Valid() && Onward(old(st), st) && st.task == Sweeping && st.cursors == old(st.cursors)
      ensures old(st.rings)[i].owner.Retired? ==> (done <==> Ready(old(st), i))
      ensures done ==> st.rings[i].owner == Free
      ensures forall j :: 0 <= j < |st.rings| && j != i && old(st.rings)[j].owner.Retired? ==>
                st.rings[j] == old(st.rings)[j]
    {
      ghost var first := st;
      ProducersRun();
      if !st.rings[i].owner.Retired? {
        return false;
      }
      ghost var a := st;
      Act(SeeRetired(i));
      OnwardThrough(first, a, st);
      ghost var b := st;
      ProducersRun();
      OnwardThrough(first, b, st);
      var seen := LoadHead(i);
      if st.cursors[i] < seen {
        ghost var c := st;
        Act(CheckHead(seen));
        OnwardThrough(first, c, st);
        return false;
      }
      ghost var c := st;
      Act(CheckHead(seen));
      OnwardThrough(first, c, st);
      FreeDrained(i, first);
      done := true;
    }

    /** The head, as the collector may see it: no older than the retiring it has acquired. */
    method LoadHead(i: nat) returns (seen: nat)
      requires Valid() && i < |st.rings| && st.rings[i].owner.Retired?
      ensures st.rings[i].carried <= seen && seen == st.rings[i].head
    {
      assert RingOk(st, i);
      seen :| st.rings[i].carried <= seen <= st.rings[i].head;
    }

    method FreeDrained(i: nat, ghost first: State)
      requires Valid() && i < |st.rings| && st.task == Drained(i, st.rings[i].owner) && Onward(first, st)
      modifies this
      ensures Valid() && Onward(first, st) && st.task == Sweeping && st.cursors == old(st.cursors)
      ensures st.rings[i].owner == Free
      ensures forall j :: 0 <= j < |st.rings| && j != i && old(st.rings)[j].owner.Retired? ==>
                st.rings[j] == old(st.rings)[j]
    {
      ghost var mid := st;
      ProducersRun();
      OnwardThrough(first, mid, st);
      ghost var late := st;
      Act(Release);
      OnwardThrough(first, late, st);
    }

    /** Retire, on its behalf, every ring held by a process that is gone, with its head as it was left. */
    method ReclaimDeadRings()
      requires Valid()
      modifies this
      ensures Valid() && Onward(old(st), st) && st.cursors == old(st.cursors) && st.task == old(st.task)
      ensures forall i :: 0 <= i < |st.rings| && HeldByDead(old(st), i) ==> st.rings[i] == HandedBack(old(st).rings[i])
    {
      assert Onward(st, st);
      var count := |st.rings|;
      for i := 0 to count
        invariant Valid() && Onward(old(st), st) && |st.rings| == count
        invariant st.cursors == old(st.cursors) && st.task == old(st.task)
        invariant forall j :: 0 <= j < i && HeldByDead(old(st), j) ==> st.rings[j] == HandedBack(old(st).rings[j])
        invariant forall j :: i <= j < count && HeldByDead(old(st), j) ==> st.rings[j] == old(st).rings[j]
      {
        ghost var before := st;
        ReclaimRing(i);
        OnwardThrough(old(st), before, st);
        forall j | 0 <= j < count && HeldByDead(old(st), j)
          ensures j > i ==> st.rings[j] == old(st).rings[j]
          ensures j <= i ==> st.rings[j] == HandedBack(old(st).rings[j])
        {
          StillDead(old(st), before, j);
        }
      }
    }

    /** A ring held by a dead process ends up retired with its head final; any other is left alone. */
    method ReclaimRing(i: nat)
      requires Valid() && i < |st.rings|
      modifies this
      ensures Valid() && Onward(old(st), st) && st.cursors == old(st.cursors) && st.task == old(st.task)
      ensures HeldByDead(old(st), i) ==> st.rings[i] == HandedBack(old(st).rings[i])
      ensures forall j :: 0 <= j < |st.rings| && (j == i ==> !HeldByDead(old(st), j)) ==>
                (old(st).rings[j].owner.Retired? || HeldByDead(old(st), j) ==> st.rings[j] == old(st).rings[j])
    {
      ghost var first := st;
      ProducersRun();
      ghost var mid := st;
      if HeldByDead(st, i) {
        Act(Reclaim(i));
        OnwardThrough(first, mid, st);
      } else if HeldByDead(first, i) {
        StillDead(first, mid, i);
      }
    }

    // ---- The end of a session ---------------------------------------------

    /** Everybody but module m acts, any number of times, and its process lives. */
    method OtherModulesRun(m: nat)
      requires Valid() && m < |st.modules| && st.modules[m].ending.Some?
      modifies this
      ensures Valid() && ModuleUndisturbed(old(st), st, m)
    {
      assert Onward(st, st) && ModuleUndisturbed(st, st, m);
      var actions: int := *;
      while actions > 0
        invariant Valid() && ModuleUndisturbed(old(st), st, m)
      {
        actions := actions - 1;
        var a: Action := *;
        if Enabled(st, a) && NotOfModule(st, a, m) {
          ghost var before := st;
          OthersLeaveModule(st, a, m);
          Act(a);
          ModuleUndisturbedThrough(old(st), before, st, m);
        }
      }
    }

    /** End a module's session: detach it, then hand back every ring its threads still hold. */
    method Shutdown(m: nat)
      requires Valid() && Enabled(st, BeginShutdown(m))
      modifies this
      ensures Valid() && Onward(old(st), st) && m < |st.modules|
      ensures st.modules[m] == old(st.modules[m]).(session := None, ending := None)
      ensures AllHandedBack(st, st.modules[m].pid, old(st.modules[m]).session.value, |st.rings|)
    {
      ghost var tag := st.modules[m].session.value;
      var md := st.modules[m];
      Act(BeginShutdown(m));
      var count := |st.rings|;
      for i := 0 to count
        invariant Valid() && Onward(old(st), st) && |st.rings| == count && m < |st.modules|
        invariant st.modules[m] == md.(session := None, ending := Some(Hook(tag, i)))
        invariant AllHandedBack(st, md.pid, tag, i)
      {
        ghost var before := st;
        RetireRing(m, i, tag);
        OnwardThrough(old(st), before, st);
      }
      ghost var last := st;
      OtherModulesRun(m);
      StillHandedBack(last, st, m, |st.rings|);
      OnwardThrough(old(st), last, st);
      last := st;
      Act(RetireOne(m));
      OnwardThrough(old(st), last, st);
    }

    method RetireRing(m: nat, i: nat, ghost tag: nat)
      requires Valid() && m < |st.modules| && i < |st.rings| && st.modules[m].alive
      requires st.modules[m].ending == Some(Hook(tag, i)) && AllHandedBack(st, st.modules[m].pid, tag, i)
      modifies this
      ensures Valid() && Onward(old(st), st) && m < |st.modules|
      ensures st.modules[m] == old(st.modules[m]).(ending := Some(Hook(tag, i + 1)))
      ensures AllHandedBack(st, st.modules[m].pid, tag, i + 1)
    {
      ghost var first := st;
      OtherModulesRun(m);
      StillHandedBack(first, st, m, i);
      ghost var mid := st;
      Act(RetireOne(m));
      OnwardThrough(first, mid, st);
    }
  }

  /** No ring is held by this session any more. */
  ghost predicate AllHandedBack(st: State, pid: nat, tag: nat, n: nat) {
    forall i :: 0 <= i < n && i < |st.rings| ==> st.rings[i].owner != Active(pid, tag)
  }

  lemma StillHandedBack(a: State, b: State, m: nat, n: nat)
    requires m < |a.modules| && a.modules[m].ending.Some? && ModuleUndisturbed(a, b, m)
    requires AllHandedBack(a, a.modules[m].pid, a.modules[m].ending.value.tag, n)
    ensures AllHandedBack(b, a.modules[m].pid, a.modules[m].ending.value.tag, n)
  {
    forall i | 0 <= i < n && i < |b.rings|
      ensures b.rings[i].owner != Active(a.modules[m].pid, a.modules[m].ending.value.tag)
    {
      assert Took(a, b, m, i);
    }
  }

  /** The ring is retired, and the cursor has reached its head. */
  predicate Ready(st: State, i: nat)
    requires i < |st.rings| == |st.cursors|
  {
    st.rings[i].owner.Retired? && st.cursors[i] == st.rings[i].head
  }

  /** The ring's word names a process of which nothing is left. */
  predicate HeldByDead(st: State, i: nat)
    requires i < |st.rings|
  {
    && st.rings[i].owner.Active?
    && forall m :: 0 <= m < |st.modules| && st.modules[m].pid == st.rings[i].owner.pid ==> !st.modules[m].alive
  }

  lemma StillDead(a: State, b: State, i: nat)
    requires Onward(a, b) && i < |a.rings| && HeldByDead(a, i)
    ensures b.rings[i].owner == a.rings[i].owner ==> HeldByDead(b, i)
  {
  }

  lemma NothingHappened(st: State, t: nat)
    requires Inv(st) && InModule(st, t)
    ensures ThreadUndisturbed(st, st, t) && Onward(st, st)
  {
    assert ThreadOk(st, t);
  }

  /** The thread has looked for a ring in its module's session before, and found none. */
  predicate Unbound(st: State, t: nat)
    requires InModule(st, t)
  {
    && st.modules[st.threads[t].mod].session == Some(st.threads[t].session) && st.threads[t].ring == None
  }

  /** The thread is in the same module, and that in the same session. */
  predicate SameModule(a: State, b: State, t: nat)
    requires InModule(a, t) && InModule(b, t)
  {
    && b.threads[t].mod == a.threads[t].mod
    && b.modules[b.threads[t].mod].session == a.modules[a.threads[t].mod].session
  }

  /** And bound, or being bound, to the same session. */
  predicate SameSession(a: State, b: State, t: nat)
    requires InModule(a, t) && InModule(b, t)
  {
    SameModule(a, b, t) && b.threads[t].session == a.threads[t].session
  }
}
