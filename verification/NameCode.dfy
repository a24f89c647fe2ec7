/** Publishing a name as it is coded, with the other publishers free to act between any two of its memory
    accesses. Each access is one action of NameTables. */
module NameCode {
  import opened Options
  import opened NameTables

  /** Later in a run: the same calls are under way, taken slots keep their keys, published ones their names,
      and the generation has only moved on. */
  predicate Later(a: State, b: State) {
    && Shaped(a) && Shaped(b) && |b.words| == |a.words| && |b.publishers| == |a.publishers|
    && a.generation <= b.generation
    && (forall l :: 0 <= l < |a.publishers| ==> SameCall(a.publishers[l], b.publishers[l]))
    && (forall i :: 0 <= i < |a.words| ==> Settled(a, b, i))
  }

  predicate SameCall(p: Publisher, q: Publisher) {
    q.want == p.want && q.name == p.name
  }

  /** What publisher k can count on while the others act: where it is, and the slot it owns. */
  predicate Undisturbed(a: State, b: State, k: nat) {
    && Later(a, b) && k < |a.publishers| && b.publishers[k] == a.publishers[k]
    && (var p := a.publishers[k];
        Owns(p) && p.at < |a.words| ==> b.words[p.at] == a.words[p.at] && b.names[p.at] == a.names[p.at])
  }

  /** One's own action and anybody else's lead on; another's leaves one undisturbed. */
  lemma StepIsLater(st: State, capacity: nat, k: nat, seen: nat, st': State)
    requires Inv(st, capacity) && k < |st.publishers| && Step(st, k, seen, st')
    ensures Later(st, st')
    ensures forall l :: 0 <= l < |st.publishers| && l != k ==> Undisturbed(st, st', l)
  {
    SlotsSettle(st, capacity, k, seen, st');
    CallsStay(st, capacity, k, seen, st');
    forall l | 0 <= l < |st.publishers| && l != k
      ensures Undisturbed(st, st', l)
    {
      OwnedStays(st, capacity, k, seen, st', l);
    }
  }

  lemma CallsStay(st: State, capacity: nat, k: nat, seen: nat, st': State)
    requires Inv(st, capacity) && k < |st.publishers| && Step(st, k, seen, st')
    ensures |st'.publishers| == |st.publishers| && st.generation <= st'.generation
    ensures forall l :: 0 <= l < |st.publishers| ==> SameCall(st.publishers[l], st'.publishers[l])
  {
  }

  /** Nobody else touches the slot a publisher owns. */
  lemma OwnedStays(st: State, capacity: nat, k: nat, seen: nat, st': State, l: nat)
    requires Inv(st, capacity) && k < |st.publishers| && Step(st, k, seen, st') && l < |st.publishers| && l != k
    requires |st'.words| == |st.words| && Shaped(st')
    ensures |st'.publishers| == |st.publishers| && st'.publishers[l] == st.publishers[l]
    ensures Owns(st.publishers[l]) && st.publishers[l].at < |st.words| ==>
              st'.words[st.publishers[l].at] == st.words[st.publishers[l].at]
              && st'.names[st.publishers[l].at] == st.names[st.publishers[l].at]
  {
    assert PublisherOk(st, st.publishers[l]);
  }

  lemma NothingYet(st: State, capacity: nat)
    requires Inv(st, capacity)
    ensures Later(st, st)
  {
  }

  lemma LaterThrough(a: State, b: State, c: State)
    requires Later(a, b) && Later(b, c)
    ensures Later(a, c)
  {
    forall i | 0 <= i < |a.words|
      ensures Settled(a, c, i)
    {
      assert Settled(a, b, i) && Settled(b, c, i);
    }
  }

  lemma UndisturbedThrough(a: State, b: State, c: State, k: nat)
    requires Undisturbed(a, b, k) && Undisturbed(b, c, k)
    ensures Undisturbed(a, c, k)
  {
    LaterThrough(a, b, c);
  }

  class NameTable {
    const capacity: nat
    var st: State

    ghost predicate Valid()
      reads this
    {
      Inv(st, capacity)
    }

    /** The others act, any number of times. */
    method OthersRun(k: nat)
      requires Valid() && k < |st.publishers|
      modifies this
      ensures Valid() && Undisturbed(old(st), st, k)
    {
      NothingYet(st, capacity);
      var actions: int := *;
      while actions > 0
        invariant Valid() && Undisturbed(old(st), st, k)
      {
        actions := actions - 1;
        ghost var before := st;
        var l := SomebodyActs(k);
        if l.Some? {
          UndisturbedThrough(old(st), before, st, k);
        }
      }
    }

    /** Some publisher other than k acts, if it can. */
    method SomebodyActs(k: nat) returns (l: Option<nat>)
      requires Valid()
      modifies this
      ensures Valid() && Later(old(st), st) && (l == None ==> st == old(st))
      ensures l.Some? && k < |old(st).publishers| ==> Undisturbed(old(st), st, k)
    {
      var who: int := *;
      var seen: int := *;
      var next: State := *;
      NothingYet(st, capacity);
      if 0 <= who < |st.publishers| && who != k && 0 <= seen && Step(st, who, seen, next) {
        StepIsLater(st, capacity, who, seen, next);
        Act(who, seen, next);
        return Some(who);
      }
      return None;
    }

    /** Publisher k acts once. */
    method Act(k: nat, seen: nat, next: State)
      requires Valid() && k < |st.publishers| && Step(st, k, seen, next)
      modifies this
      ensures Valid() && st == next && Later(old(st), st)
    {
      StepKeeps(st, capacity, k, seen, next);
      StepIsLater(st, capacity, k, seen, next);
      st := next;
    }

    /** Load the word of the slot the publisher is at. */
    method LoadWord(k: nat, known: set<nat>) returns (seen: nat)
      requires Valid() && k < |st.publishers| && st.publishers[k].phase == Scanning
      requires st.publishers[k].at < |st.words| && Aware(st, known)
      modifies this
      ensures Valid() && Later(old(st), st)
      ensures k < |st.publishers| && st.publishers[k] == Loaded(old(st.publishers[k]), seen)
      ensures var i := old(st.publishers[k].at); i in known ==> seen == old(st.words[i])
    {
      OthersRun(k);
      ghost var mid := st;
      var p := st.publishers[k];
      assert Settled(old(st), st, p.at) && MaySee(st.words[p.at], st.words[p.at]);
      seen :| MaySee(st.words[p.at], seen) && (p.at in known ==> seen == st.words[p.at]);
      Act(k, seen, Moved(st, k, Loaded(p, seen)));
      LaterThrough(old(st), mid, st);
    }

    /** Wait, within bounds, for another claimant of the same key to finish; returns the word last seen. */
    method AwaitClaim(k: nat) returns (seen: nat)
      requires Valid() && k < |st.publishers| && st.publishers[k].phase == Waiting(0)
      modifies this
      ensures Valid() && Later(old(st), st) && k < |st.publishers| && KeyOf(seen) == st.publishers[k].want
      ensures st.publishers[k] == old(st.publishers[k]).(phase := if IsClaimed(seen) then Done(false) else Comparing(0))
    {
      var p := st.publishers[k];
      for i := 0 to MAX_POLLS
        invariant Valid() && Later(old(st), st) && k < |st.publishers| && p == old(st.publishers[k])
        invariant st.publishers[k] == p.(phase := Waiting(i))
      {
        ghost var before := st;
        seen := Poll(k, i);
        LaterThrough(old(st), before, st);
        if !IsClaimed(seen) {
          return;
        }
      }
      ghost var before := st;
      seen := Poll(k, MAX_POLLS);
      LaterThrough(old(st), before, st);
    }

    method Poll(k: nat, i: nat) returns (seen: nat)
      requires Valid() && k < |st.publishers| && st.publishers[k].phase == Waiting(i) && i <= MAX_POLLS
      modifies this
      ensures Valid() && Later(old(st), st) && k < |st.publishers| && KeyOf(seen) == st.publishers[k].want
      ensures var next := if i < MAX_POLLS then Waiting(i + 1) else Done(false);
        st.publishers[k] == old(st.publishers[k]).(phase := if IsClaimed(seen) then next else Comparing(0))
    {
      OthersRun(k);
      ghost var mid := st;
      var p := st.publishers[k];
      assert PublisherOk(st, p) && SlotOk(st, p.at);
      var stale: bool := *;
      seen := if stale then p.want + CLAIM_BIT else st.words[p.at];
      Act(k, seen, Moved(st, k, if i < MAX_POLLS && IsClaimed(seen) then p.(phase := Waiting(i + 1))
                                else Resolved(p, seen)));
      LaterThrough(old(st), mid, st);
    }

    /** Whether the published name is this publisher's. */
    method SameName(k: nat) returns (same: bool)
      requires Valid() && k < |st.publishers| && st.publishers[k].phase == Comparing(0)
      modifies this
      ensures Valid() && Later(old(st), st) && k < |st.publishers|
      ensures st.publishers[k] == old(st.publishers[k]).(phase := Done(same))
      ensures same == Agrees(st, st.publishers[k])
    {
      var p := st.publishers[k];
      var n := 0;
      while true
        invariant Valid() && Later(old(st), st) && k < |st.publishers| && p == old(st.publishers[k])
        invariant st.publishers[k] == p.(phase := Comparing(n)) && n <= |p.name|
        decreases |p.name| - n
      {
        ghost var before := st;
        CompareByte(k, n);
        LaterThrough(old(st), before, st);
        if st.publishers[k].phase.Done? {
          return st.publishers[k].phase.ok;
        }
        n := n + 1;
      }
    }

    /** Read byte n of the published name: the end of it, or of the agreement, settles the comparison. */
    method CompareByte(k: nat, n: nat)
      requires Valid() && k < |st.publishers| && st.publishers[k].phase == Comparing(n)
      modifies this
      ensures Valid() && Later(old(st), st) && k < |st.publishers|
      ensures var p := st.publishers[k];
        && p == old(st.publishers[k]).(phase := p.phase)
        && ((p.phase == Comparing(n + 1) && n < |p.name|) || p.phase == Done(Agrees(st, p)))
    {
      OthersRun(k);
      ghost var mid := st;
      var p := st.publishers[k];
      assert PublisherOk(st, p) && SlotOk(st, p.at);
      var bytes := st.names[p.at];
      Judged(bytes, p.name, n);
      var phase := if bytes[n] == '\0' then Done(n == |p.name|)
                   else if n < |p.name| && bytes[n] == p.name[n] then Comparing(n + 1) else Done(false);
      Act(k, 0, Moved(st, k, p.(phase := phase)));
      LaterThrough(old(st), mid, st);
    }

    /** Try to swap the free word for this publisher's claim; a failure returns a word that is not free. */
    method CompareAndSwap(k: nat) returns (won: bool, seen: nat)
      requires Valid() && k < |st.publishers| && st.publishers[k].phase == Claiming
      modifies this
      ensures Valid() && Later(old(st), st) && k < |st.publishers| && (!won ==> seen != 0)
      ensures st.publishers[k] ==
                if won then old(st.publishers[k]).(phase := Writing(0)) else Loaded(old(st.publishers[k]), seen)
    {
      OthersRun(k);
      ghost var mid := st;
      var p := st.publishers[k];
      assert PublisherOk(st, p) && SlotOk(st, p.at);
      seen, won := 0, st.words[p.at] == 0;
      if won {
        Act(k, 0, Moved(st, k, p.(phase := Writing(0))).(words := st.words[p.at := p.want + CLAIM_BIT]));
      } else {
        var stale: bool := *;
        seen := if stale && IsPublished(st.words[p.at]) then st.words[p.at] + CLAIM_BIT else st.words[p.at];
        Act(k, seen, Moved(st, k, Loaded(p, seen)));
      }
      LaterThrough(old(st), mid, st);
    }

    /** Copy the name into the claimed slot, its NUL last. */
    method CopyName(k: nat)
      requires Valid() && k < |st.publishers| && st.publishers[k].phase == Writing(0)
      modifies this
      ensures Valid() && Later(old(st), st) && k < |st.publishers|
      ensures st.publishers[k] == old(st.publishers[k]).(phase := Storing)
    {
      var p := st.publishers[k];
      assert PublisherOk(st, p);
      for n := 0 to |p.name| + 1
        invariant Valid() && Later(old(st), st) && k < |st.publishers| && p == old(st.publishers[k])
        invariant st.publishers[k] == p.(phase := if n <= |p.name| then Writing(n) else Storing)
      {
        ghost var before := st;
        CopyByte(k, n);
        LaterThrough(old(st), before, st);
      }
    }

    method CopyByte(k: nat, n: nat)
      requires Valid() && k < |st.publishers| && st.publishers[k].phase == Writing(n) && n <= |st.publishers[k].name|
      modifies this
      ensures Valid() && Later(old(st), st) && k < |st.publishers|
      ensures var p := old(st.publishers[k]);
        st.publishers[k] == p.(phase := if n < |p.name| then Writing(n + 1) else Storing)
    {
      OthersRun(k);
      ghost var mid := st;
      var p := st.publishers[k];
      assert PublisherOk(st, p);
      var c := if n < |p.name| then p.name[n] else '\0';
      Act(k, 0, Moved(st, k, p.(phase := if n < |p.name| then Writing(n + 1) else Storing))
                .(names := st.names[p.at := st.names[p.at][n := c]]));
      LaterThrough(old(st), mid, st);
    }

    /** Make the name readable, and only then move the generation on. */
    method Announce(k: nat) returns (ghost stored: State)
      requires Valid() && k < |st.publishers| && st.publishers[k].phase == Storing
      modifies this
      ensures Valid() && Later(old(st), stored) && Later(stored, st) && Later(old(st), st) && k < |st.publishers|
      ensures var p := old(st.publishers[k]);
        && st.publishers[k] == p.(phase := Done(true)) && HasName(stored, p) && HasName(st, p)
        && stored.generation < st.generation && stored.bumped[p.at] == None
        && st.bumped[p.at] == Some(st.generation)
    {
      StoreKey(k);
      stored := st;
      BumpGeneration(k);
      LaterThrough(old(st), stored, st);
    }

    method StoreKey(k: nat)
      requires Valid() && k < |st.publishers| && st.publishers[k].phase == Storing
      modifies this
      ensures Valid() && Later(old(st), st) && k < |st.publishers|
      ensures var p := old(st.publishers[k]);
        st.publishers[k] == p.(phase := Bumping) && HasName(st, p) && st.bumped[p.at] == None
    {
      OthersRun(k);
      ghost var mid := st;
      var p := st.publishers[k];
      assert PublisherOk(st, p) && SlotOk(st, p.at);
      HeldIsRead(st.names[p.at], p.name);
      Act(k, 0, Moved(st, k, p.(phase := Bumping)).(words := st.words[p.at := p.want]));
      LaterThrough(old(st), mid, st);
    }

    method BumpGeneration(k: nat)
      requires Valid() && k < |st.publishers| && st.publishers[k].phase == Bumping
      modifies this
      ensures Valid() && Later(old(st), st) && k < |st.publishers|
      ensures var p := old(st.publishers[k]);
        && st.publishers[k] == p.(phase := Done(true)) && HasName(st, p)
        && old(st).generation < st.generation && st.bumped[p.at] == Some(st.generation)
    {
      OthersRun(k);
      ghost var mid := st;
      var p := st.publishers[k];
      assert PublisherOk(st, p);
      HeldIsRead(st.names[p.at], p.name);
      Act(k, 0, Moved(st, k, p.(phase := Done(true)))
                .(generation := st.generation + 1, bumped := st.bumped[p.at := Some(st.generation + 1)]));
      LaterThrough(old(st), mid, st);
    }

    /** What a slot word says about this publisher's key, once known: agreement, conflict, or go on. */
    method Settle(k: nat, seen: nat, p: Publisher) returns (done: bool, ok: bool)
      requires Valid() && k < |st.publishers| && st.publishers[k] == Loaded(p, seen) && p.phase in {Scanning, Claiming}
      modifies this
      ensures Valid() && Later(old(st), st) && k < |st.publishers|
      ensures (done <==> KeyOf(seen) == p.want) && (done ==> HasKey(st, p.at, p.want))
      ensures done && !IsClaimed(seen) ==> ok == Agrees(st, p)
      ensures st.publishers[k] == if done then p.(phase := Done(ok)) else Resolved(p, seen)
    {
      done, ok := KeyOf(seen) == p.want, false;
      assert PublisherOk(st, st.publishers[k]);
      assert Callable(st.publishers[k], capacity);
      ghost var i := p.at;
      var word := seen;
      if done && IsClaimed(seen) {
        word := AwaitClaim(k);
      }
      if done && !IsClaimed(word) {
        ghost var before := st;
        ok := SameName(k);
        LaterThrough(old(st), before, st);
      }
      assert done ==> Settled(old(st), st, i);
    }

    /** Publish a name: find its key or the lowest free slot, and claim, write and announce it there. True
        means every reader of the key sees this name; false that the key's slot was taken by another name,
        or by a claim that never came to an end, or that there was no slot left. When the caller knows of
        the key's slot already, the answer is whether the names agree. */
    method PublishOne(k: nat, known: set<nat>) returns (ok: bool)
      requires Valid() && k < |st.publishers| && st.publishers[k].at == 0 && st.publishers[k].phase == Scanning
      requires Aware(st, known)
      modifies this
      ensures Valid() && Later(old(st), st) && k < |st.publishers| && st.publishers[k].phase == Done(ok)
      ensures ok ==> exists i :: 0 <= i < |st.words| && st.words[i] == st.publishers[k].want
                                 && CString(st.names[i]) == st.publishers[k].name
      ensures !ok ==> KeyTaken(st, st.publishers[k].want) || forall i :: 0 <= i < |st.words| ==> st.words[i] != 0
      ensures forall i :: i in known && old(st.words[i] == st.publishers[k].want) ==>
                ok == (CString(old(st.names[i])) == old(st.publishers[k].name))
    {
      var p := st.publishers[k];
      var slots := |st.words|;
      for i := 0 to slots
        invariant Valid() && Later(old(st), st) && k < |st.publishers|
        invariant st.publishers[k] == p.(at := i) && p == old(st.publishers[k]) && slots == |st.words|
        invariant forall j :: j in known && old(st).words[j] == p.want ==> i <= j
      {
        ghost var before := st;
        StillAware(old(st), st, known);
        var done;
        done, ok := TrySlot(k, known);
        StillAware(before, st, known);
        LaterThrough(old(st), before, st);
        if done {
          return;
        }
      }
      ghost var before := st;
      OthersRun(k);
      ghost var mid := st;
      Act(k, 0, Moved(st, k, st.publishers[k].(phase := Done(false))));
      LaterThrough(old(st), before, mid);
      LaterThrough(old(st), mid, st);
      assert PublisherOk(st, st.publishers[k]);
      return false;
    }

    /** One slot of the scan. */
    method TrySlot(k: nat, known: set<nat>) returns (done: bool, ok: bool)
      requires Valid() && k < |st.publishers| && st.publishers[k].phase == Scanning && st.publishers[k].at < |st.words|
      requires Aware(st, known)
      modifies this
      ensures Valid() && Later(old(st), st) && k < |st.publishers|
      ensures !done ==> st.publishers[k] == old(st.publishers[k]).(at := old(st.publishers[k].at) + 1)
      ensures done ==> st.publishers[k].phase == Done(ok) && Verdict(st, k, ok)
      ensures var i, p := old(st.publishers[k].at), old(st.publishers[k]);
        && (done ==> HasKey(st, i, p.want))
        && (i in known ==> (done <==> old(st.words[i]) == p.want) && (done ==> ok == Agrees(st, p)))
    {
      var p := st.publishers[k];
      var cur := LoadWord(k, known);
      ghost var loaded := st;
      done, ok := Settle(k, cur, p);
      LaterThrough(old(st), loaded, st);
      if done || cur != 0 {
        Judge(k, done, ok);
        return;
      }
      ghost var before := st;
      var won, seen := CompareAndSwap(k);
      LaterThrough(old(st), before, st);
      before := st;
      if won {
        CopyName(k);
        LaterThrough(old(st), before, st);
        before := st;
        ghost var stored := Announce(k);
        LaterThrough(old(st), before, st);
        done, ok := true, true;
      } else {
        done, ok := Settle(k, seen, p.(phase := Claiming));
        LaterThrough(old(st), before, st);
      }
      Judge(k, done, ok);
    }

    // ---- Readers ----------------------------------------------------------

    /** Every publisher acts, any number of times. */
    method AllRun()
      requires Valid()
      modifies this
      ensures Valid() && Later(old(st), st)
    {
      NothingYet(st, capacity);
      var actions: int := *;
      while actions > 0
        invariant Valid() && Later(old(st), st)
      {
        actions := actions - 1;
        ghost var before := st;
        var l := SomebodyActs(|st.publishers|);
        LaterThrough(old(st), before, st);
      }
    }

    /** Load a slot's word, as it is or as it was, but not from before the reader knew it published. */
    method Look(i: nat, known: set<nat>) returns (seen: nat)
      requires Valid() && i < |st.words| && Aware(st, known)
      modifies this
      ensures Valid() && Later(old(st), st) && MaySee(st.words[i], seen)
      ensures i in known ==> seen == old(st.words[i])
    {
      AllRun();
      StillAware(old(st), st, known);
      assert MaySee(st.words[i], st.words[i]);
      seen :| MaySee(st.words[i], seen) && (i in known ==> seen == st.words[i]);
    }

    /** A name, looked up slot by slot while publishers go on: nothing, or the whole name of a slot that has
        the key. A key the reader knows to be published is found. */
    method LookUp(want: nat, known: set<nat>) returns (name: string)
      requires Valid() && IsPublished(want) && Aware(st, known)
      modifies this
      ensures Valid() && Later(old(st), st)
      ensures name != "" ==> exists i :: 0 <= i < |st.words| && st.words[i] == want && CString(st.names[i]) == name
      ensures forall i :: i in known && old(st.words[i]) == want ==> name == CString(old(st.names[i]))
    {
      NothingYet(st, capacity);
      for i := 0 to |st.words|
        invariant Valid() && Later(old(st), st)
        invariant forall j :: j in known && old(st).words[j] == want ==> i <= j
      {
        ghost var before := st;
        StillAware(old(st), st, known);
        var seen := Look(i, known);
        LaterThrough(old(st), before, st);
        if seen == 0 || IsClaimed(seen) {
          continue;
        }
        if seen == want {
          before := st;
          name := ReadName(i);
          LaterThrough(old(st), before, st);
          StillAware(old(st), st, known);
          return;
        }
      }
      return "";
    }

    /** The name a published slot holds. */
    lemma WholeName(i: nat) returns (whole: string)
      requires Valid() && i < |st.words| && IsPublished(st.words[i])
      ensures Holds(st.names[i], whole)
    {
      assert SlotOk(st, i);
      var k :| 0 <= k < |st.publishers| && st.publishers[k].want == st.words[i]
               && Holds(st.names[i], st.publishers[k].name);
      whole := st.publishers[k].name;
    }

    method ReadByte(i: nat, n: nat) returns (c: char)
      requires Valid() && i < |st.words| && n < |st.names[i]|
      modifies this
      ensures Valid() && Later(old(st), st) && n < |st.names[i]| && c == st.names[i][n]
    {
      AllRun();
      assert |st.names[i]| == capacity && |old(st).names[i]| == capacity;
      c := st.names[i][n];
    }

    /** Copy the name of a published slot, a byte at a time. */
    method ReadName(i: nat) returns (name: string)
      requires Valid() && i < |st.words| && IsPublished(st.words[i])
      modifies this
      ensures Valid() && Later(old(st), st) && st.words[i] == old(st.words[i]) && name == CString(st.names[i])
    {
      NothingYet(st, capacity);
      ghost var whole := WholeName(i);
      name := "";
      while true
        invariant Valid() && Later(old(st), st) && Settled(old(st), st, i)
        invariant Holds(st.names[i], whole) && |name| <= |whole| && name == whole[..|name|]
        decreases |whole| - |name|
      {
        ghost var before := st;
        var c := ReadByte(i, |name|);
        LaterThrough(old(st), before, st);
        assert Settled(before, st, i) && Settled(old(st), st, i);
        assert |name| < |whole| ==> c == st.names[i][..|whole|][|name|];
        if c == '\0' {
          HeldIsRead(st.names[i], whole);
          return;
        }
        name := name + [c];
      }
    }

    /** Count the slots taken, from the first to the first that looks free: those counted are taken, and the
        ones the reader knows of up to there are counted. */
    method ClaimedNames(known: set<nat>) returns (n: nat)
      requires Valid() && Aware(st, known)
      modifies this
      ensures Valid() && Later(old(st), st) && n <= |st.words| && (n < |st.words| ==> n !in known)
      ensures forall i :: 0 <= i < n ==> st.words[i] != 0
    {
      NothingYet(st, capacity);
      n := 0;
      while n < |st.words|
        invariant Valid() && Later(old(st), st) && n <= |st.words|
        invariant forall i :: 0 <= i < n ==> st.words[i] != 0
      {
        ghost var before := st;
        StillAware(old(st), st, known);
        var seen := NextWord(n, known);
        LaterThrough(old(st), before, st);
        if seen == 0 {
          return;
        }
        n := n + 1;
      }
    }

    /** Load the word after n taken ones, which stay taken. */
    method NextWord(n: nat, known: set<nat>) returns (seen: nat)
      requires Valid() && n < |st.words| && Aware(st, known) && forall i :: 0 <= i < n ==> st.words[i] != 0
      modifies this
      ensures Valid() && Later(old(st), st) && (seen != 0 ==> st.words[n] != 0) && (seen == 0 ==> n !in known)
      ensures forall i :: 0 <= i < n ==> st.words[i] != 0
    {
      seen := Look(n, known);
      forall i | 0 <= i < n
        ensures st.words[i] != 0
      {
        assert old(st).words[i] != 0 && Settled(old(st), st, i);
      }
    }

    lemma Judge(k: nat, done: bool, ok: bool)
      requires Valid() && k < |st.publishers| && (done ==> st.publishers[k].phase == Done(ok))
      requires done && !ok ==> KeyTaken(st, st.publishers[k].want)
      ensures done ==> Verdict(st, k, ok)
    {
      var p := st.publishers[k];
      assert PublisherOk(st, p);
      if done && ok {
        HeldIsRead(st.names[p.at], p.name);
      }
    }
  }

  /** The publisher's slot is readable, and the name in it is its own. */
  predicate HasName(st: State, p: Publisher) {
    Shaped(st) && p.at < |st.words| && st.words[p.at] == p.want && Agrees(st, p)
  }

  /** The name in the publisher's slot is its own. */
  predicate Agrees(st: State, p: Publisher) {
    p.at < |st.names| && CString(st.names[p.at]) == p.name
  }

  /** What the next byte says when those before it agree. */
  lemma Judged(bytes: seq<char>, name: string, n: nat)
    requires n <= |name| < |bytes| && bytes[..n] == name[..n] && '\0' !in name
    ensures bytes[n] == '\0' && n == |name| ==> CString(bytes) == name
    ensures bytes[n] == '\0' && n < |name| ==> CString(bytes) != name
    ensures bytes[n] != '\0' && (n < |name| ==> bytes[n] != name[n]) ==> CString(bytes) != name
  {
    if CString(bytes) == name {
      ReadIsHeld(bytes, name);
      assert n < |name| ==> bytes[..|name|][n] == bytes[n];
    }
    if bytes[n] == '\0' && n == |name| {
      HeldIsRead(bytes, name);
    }
  }

  /** The slots are published, and this caller knows it: its loads of them do not come from before that. */
  predicate Aware(st: State, known: set<nat>) {
    forall i :: i in known ==> i < |st.words| && IsPublished(st.words[i])
  }

  lemma StillAware(a: State, b: State, known: set<nat>)
    requires Aware(a, known) && Later(a, b)
    ensures Aware(b, known)
    ensures forall i :: i in known ==> b.words[i] == a.words[i] && b.names[i] == a.names[i]
  {
    forall i | i in known
      ensures IsPublished(b.words[i]) && b.words[i] == a.words[i] && b.names[i] == a.names[i]
    {
      assert Settled(a, b, i);
    }
  }

  predicate HasKey(st: State, i: nat, want: nat) {
    i < |st.words| && st.words[i] != 0 && KeyOf(st.words[i]) == want
  }

  /** Some slot is this key's. */
  ghost predicate KeyTaken(st: State, want: nat) {
    exists i :: 0 <= i < |st.words| && st.words[i] != 0 && KeyOf(st.words[i]) == want
  }

  /** What a publisher's answer means. */
  ghost predicate Verdict(st: State, k: nat, ok: bool)
    requires Shaped(st) && k < |st.publishers|
  {
    && (ok ==> exists i :: 0 <= i < |st.words| && st.words[i] == st.publishers[k].want
                           && CString(st.names[i]) == st.publishers[k].name)
    && (!ok ==> KeyTaken(st, st.publishers[k].want))
  }
}
