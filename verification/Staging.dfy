/** Staging the stamps of the shared ring: a stable insertion sort by timestamp. */
module StageOrder {
  import opened Stamps

  /** Shared-ring stamps in time order, equal ones in the order they came. */
  ghost predicate Staged(stage: seq<Sample>) {
    && (forall i :: 0 <= i < |stage| ==> !IsValue(stage[i]))
    && (forall i, j :: 0 <= i < j < |stage| ==> stage[i].timestamp <= stage[j].timestamp)
  }

  /** The stamps of one tick, in order. */
  function Tick(xs: seq<Sample>, t: nat): seq<Sample> {
    if xs == [] then []
    else Tick(xs[..|xs| - 1], t) + if xs[|xs| - 1].timestamp == t then [xs[|xs| - 1]] else []
  }

  lemma {:induction false} TickConcat(a: seq<Sample>, b: seq<Sample>, t: nat)
    ensures Tick(a + b, t) == Tick(a, t) + Tick(b, t)
  {
    if b == [] {
      assert a + b == a;
    } else {
      assert (a + b)[..|a + b| - 1] == a + b[..|b| - 1];
      TickConcat(a, b[..|b| - 1], t);
    }
  }

  lemma {:induction false} TickNone(xs: seq<Sample>, t: nat)
    requires forall i :: 0 <= i < |xs| ==> xs[i].timestamp != t
    ensures Tick(xs, t) == []
  {
    if xs == [] {
    } else {
      TickNone(xs[..|xs| - 1], t);
    }
  }

  /** The stamps of a batch read off the shared ring, which wait for the merge; its values do not, nor
      does anything when there are no rings to merge it with. */
  function Late(batch: seq<Sample>, rings: nat): seq<Sample> {
    if batch == [] then []
    else
      var s := batch[|batch| - 1];
      Late(batch[..|batch| - 1], rings) + if IsValue(s) || rings == 0 then [] else [s]
  }

  /** What of a batch goes straight to the pairer: the rest. */
  function Straight(batch: seq<Sample>, rings: nat): seq<Sample> {
    if batch == [] then []
    else
      var s := batch[|batch| - 1];
      Straight(batch[..|batch| - 1], rings) + if IsValue(s) || rings == 0 then [s] else []
  }

  /** These are the samples of the batch at these positions, in order. */
  ghost predicate Picks(batch: seq<Sample>, at: seq<nat>, part: seq<Sample>) {
    && |at| == |part| && (forall i :: 0 <= i < |at| ==> at[i] < |batch| && part[i] == batch[at[i]])
    && (forall i, j :: 0 <= i < j < |at| ==> at[i] < at[j])
  }

  /** Every sample of a batch goes one way or the other, in order: with rings to merge it with, stamps wait
      and values do not; without, nothing does. */
  ghost predicate SplitInto(batch: seq<Sample>, rings: nat, straight: seq<Sample>, late: seq<Sample>) {
    && multiset(straight) + multiset(late) == multiset(batch) && (rings == 0 ==> straight == batch && late == [])
    && exists at, wait :: SplitAt(batch, rings, straight, late, at, wait)
  }

  ghost predicate SplitAt(batch: seq<Sample>, rings: nat, straight: seq<Sample>, late: seq<Sample>, at: seq<nat>,
                          wait: seq<nat>)
  {
    && Picks(batch, at, straight) && Picks(batch, wait, late)
    && forall j :: 0 <= j < |batch| ==>
         (j in at <==> IsValue(batch[j]) || rings == 0) && (j in wait <==> !IsValue(batch[j]) && rings > 0)
  }

  lemma SplitWhole(batch: seq<Sample>, rings: nat)
    ensures SplitInto(batch, rings, Straight(batch, rings), Late(batch, rings))
  {
    SplitKeepsAll(batch, rings);
    NothingWaits(batch);
    var at, wait := SplitPositions(batch, rings);
  }

  lemma {:induction false} SplitKeepsAll(batch: seq<Sample>, rings: nat)
    ensures multiset(Straight(batch, rings)) + multiset(Late(batch, rings)) == multiset(batch)
  {
    if batch != [] {
      var rest, last := batch[..|batch| - 1], batch[|batch| - 1];
      SplitKeepsAll(rest, rings);
      AddedTo(rest, last, Straight(rest, rings), Late(rest, rings));
      assert batch == rest + [last];
      LastGoes(batch, rings);
    }
  }

  lemma AddedTo(xs: seq<Sample>, y: Sample, a: seq<Sample>, b: seq<Sample>)
    requires multiset(a) + multiset(b) == multiset(xs)
    ensures multiset(a + [y]) + multiset(b) == multiset(xs + [y])
    ensures multiset(a) + multiset(b + [y]) == multiset(xs + [y])
  {
  }

  function Count(xs: seq<Sample>, x: Sample): nat {
    multiset(xs)[x]
  }

  lemma OneMore(xs: seq<Sample>, y: Sample, x: Sample)
    ensures Count(xs + [y], x) == Count(xs, x) + if y == x then 1 else 0
  {
  }

  lemma LastGoes(batch: seq<Sample>, rings: nat)
    requires batch != []
    ensures var rest, last := batch[..|batch| - 1], batch[|batch| - 1];
            if IsValue(last) || rings == 0 then
              Straight(batch, rings) == Straight(rest, rings) + [last] && Late(batch, rings) == Late(rest, rings)
            else
              Straight(batch, rings) == Straight(rest, rings) && Late(batch, rings) == Late(rest, rings) + [last]
  {
  }

  lemma {:induction false} NothingWaits(batch: seq<Sample>)
    ensures Straight(batch, 0) == batch && Late(batch, 0) == []
  {
    if batch != [] {
      NothingWaits(batch[..|batch| - 1]);
    }
  }

  lemma {:induction false} SplitPositions(batch: seq<Sample>, rings: nat) returns (at: seq<nat>, wait: seq<nat>)
    ensures SplitAt(batch, rings, Straight(batch, rings), Late(batch, rings), at, wait)
  {
    if batch == [] {
      at, wait := [], [];
    } else {
      var rest, last := batch[..|batch| - 1], batch[|batch| - 1];
      at, wait := SplitPositions(rest, rings);
      at, wait := SplitGrows(rest, last, rings, Straight(rest, rings), Late(rest, rings), at, wait);
      assert batch == rest + [last];
      LastGoes(batch, rings);
    }
  }

  lemma SplitGrows(rest: seq<Sample>, last: Sample, rings: nat, straight: seq<Sample>, late: seq<Sample>,
                   at: seq<nat>, wait: seq<nat>) returns (at': seq<nat>, wait': seq<nat>)
    requires SplitAt(rest, rings, straight, late, at, wait)
    ensures if IsValue(last) || rings == 0 then SplitAt(rest + [last], rings, straight + [last], late, at', wait')
            else SplitAt(rest + [last], rings, straight, late + [last], at', wait')
  {
    PicksMore(rest, last, at, straight);
    PicksMore(rest, last, wait, late);
    if IsValue(last) || rings == 0 {
      at', wait' := at + [|rest|], wait;
      assert forall j :: j in at' <==> j in at || j == |rest|;
    } else {
      at', wait' := at, wait + [|rest|];
      assert forall j :: j in wait' <==> j in wait || j == |rest|;
    }
  }

  lemma PicksMore(rest: seq<Sample>, last: Sample, at: seq<nat>, part: seq<Sample>)
    requires Picks(rest, at, part)
    ensures Picks(rest + [last], at, part) && Picks(rest + [last], at + [|rest|], part + [last])
    ensures forall j :: j in at ==> j < |rest|
  {
  }

  lemma {:induction false} TickCounts(xs: seq<Sample>, x: Sample)
    ensures Count(Tick(xs, x.timestamp), x) == Count(xs, x)
  {
    if xs != [] {
      var rest, last := xs[..|xs| - 1], xs[|xs| - 1];
      TickCounts(rest, x);
      assert xs == rest + [last];
      OneMore(rest, last, x);
      OneMore(Tick(rest, x.timestamp), last, x);
      TickMore(xs, x.timestamp);
    }
  }

  lemma TickMore(xs: seq<Sample>, t: nat)
    requires xs != []
    ensures var rest, last := xs[..|xs| - 1], xs[|xs| - 1];
            Tick(xs, t) == if last.timestamp == t then Tick(rest, t) + [last] else Tick(rest, t)
  {
  }

  /** A stable sort neither loses nor makes up a stamp. */
  lemma SortKeepsAll(stage: seq<Sample>, arrived: seq<Sample>)
    requires StablySorted(stage, arrived)
    ensures multiset(stage) == multiset(arrived)
  {
    forall x
      ensures multiset(stage)[x] == multiset(arrived)[x]
    {
      TickCounts(stage, x);
      TickCounts(arrived, x);
    }
  }

  /** A batch splits sample by sample. */
  lemma SplitOne(batch: seq<Sample>, i: nat, rings: nat)
    requires i < |batch|
    ensures Late(batch[..i + 1], rings) == Late(batch[..i], rings) + Late([batch[i]], rings)
    ensures Straight(batch[..i + 1], rings) == Straight(batch[..i], rings) + Straight([batch[i]], rings)
  {
    assert batch[..i + 1][..i] == batch[..i];
  }

  /** What has arrived and what has gone straight on, one sample further into a batch. */
  lemma SplitOnto(batch: seq<Sample>, i: nat, rings: nat, arrived: seq<Sample>, was: seq<Sample>)
    requires i < |batch|
    ensures arrived + Late(batch[..i + 1], rings) == (arrived + Late(batch[..i], rings)) + Late([batch[i]], rings)
    ensures was + Straight(batch[..i + 1], rings) == (was + Straight(batch[..i], rings)) + Straight([batch[i]], rings)
  {
    SplitOne(batch, i, rings);
  }

  /** Stably sorted: the stamps of `arrived`, those of one tick in the order they arrived. */
  ghost predicate StablySorted(stage: seq<Sample>, arrived: seq<Sample>) {
    Staged(stage) && |stage| == |arrived| && forall t :: Tick(stage, t) == Tick(arrived, t)
  }

  /** An insertion that has walked s down to position j. */
  lemma InsertedStays(base: seq<Sample>, arrived: seq<Sample>, s: Sample, j: nat)
    requires StablySorted(base, arrived) && !IsValue(s) && j <= |base|
    requires forall i :: 0 <= i < j ==> base[i].timestamp <= s.timestamp
    requires forall i :: j <= i < |base| ==> s.timestamp < base[i].timestamp
    ensures StablySorted(base[..j] + [s] + base[j..], arrived + [s])
  {
    assert base == base[..j] + base[j..];
    forall t ensures Tick(base[..j] + [s] + base[j..], t) == Tick(arrived + [s], t) {
      TickInserted(base[..j], s, base[j..], t);
      TickConcat(arrived, [s], t);
    }
  }

  lemma TickInserted(low: seq<Sample>, s: Sample, high: seq<Sample>, t: nat)
    requires forall i :: 0 <= i < |high| ==> s.timestamp < high[i].timestamp
    ensures Tick(low + [s] + high, t) == Tick(low + high, t) + Tick([s], t)
  {
    TickConcat(low + [s], high, t);
    TickConcat(low, [s], t);
    TickConcat(low, high, t);
    if s.timestamp == t {
      TickNone(high, t);
    } else {
      TickNone([s], t);
    }
    Regroup(Tick(low, t), Tick([s], t), Tick(high, t));
  }

  lemma Regroup(x: seq<Sample>, y: seq<Sample>, z: seq<Sample>)
    requires y == [] || z == []
    ensures x + y + z == x + z + y
  {
  }

  /** Put a stamp where its time belongs, behind those of its own tick. */
  method Insert(stage: seq<Sample>, s: Sample, ghost arrived: seq<Sample>) returns (r: seq<Sample>)
    requires !IsValue(s) && StablySorted(stage, arrived)
    ensures StablySorted(r, arrived + [s])
  {
    r := stage + [s];
    var j := |stage|;
    while j > 0 && r[j - 1].timestamp > r[j].timestamp
      invariant 0 <= j <= |stage| && r == stage[..j] + [s] + stage[j..]
      invariant forall i :: j <= i < |stage| ==> s.timestamp < stage[i].timestamp
    {
      r := r[j - 1 := r[j]][j := r[j - 1]];
      j := j - 1;
    }
    InsertedStays(stage, arrived, s, j);
  }
}
