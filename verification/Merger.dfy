/** One merge pass over the thread rings and the stage, as it is coded. The producers may publish at
    any moment: `published` is all they ever will, and every head load may find more of it there.
    What a read returns of it is what RingReads and ThreadRings prove. */
module Merging {
  import opened Options
  import opened Stamps
  import opened RingReads
  import opened MergeSpec
  import opened StageOrder
  import opened HeadHeap
  import Heaps
  import PairingSpec
  import PairingRuns
  import Pairing

  /** From state `start` the pairer was handed these samples, one after another, and nothing else. */
  ghost predicate Paired(start: PairingSpec.State, fed: seq<Fed>, end: PairingSpec.State)
    decreases |fed|, 0
  {
    if fed == [] then end == start
    else PairedThen(start, fed[..|fed| - 1], fed[|fed| - 1].s, end)
  }

  ghost predicate PairedThen(start: PairingSpec.State, before: seq<Fed>, s: Sample, end: PairingSpec.State)
    decreases |before|, 1
  {
    exists mid :: Paired(start, before, mid) && PairedNext(mid, s, end)
  }

  ghost predicate PairedNext(mid: PairingSpec.State, s: Sample, end: PairingSpec.State) {
    exists c :: PairedBy(mid, s, c, end)
  }

  ghost predicate PairedBy(mid: PairingSpec.State, s: Sample, c: PairingSpec.Choice, end: PairingSpec.State) {
    && PairingSpec.SpansOk(mid.spans) && PairingSpec.Allowed(mid, PairingSpec.Event(s, c))
    && end == PairingSpec.Step(mid, PairingSpec.Event(s, c))
  }

  lemma PairedOneMore(start: PairingSpec.State, fed: seq<Fed>, mid: PairingSpec.State, f: Fed,
                      c: PairingSpec.Choice, end: PairingSpec.State)
    requires Paired(start, fed, mid) && PairedBy(mid, f.s, c, end)
    ensures Paired(start, fed + [f], end)
  {
    assert (fed + [f])[..|fed|] == fed;
  }

  class Merger {
    const published: seq<seq<Sample>>
    const capacity: nat
    const pairer: Pairing.Pairer

    var heads: seq<nat>
    var cursors: seq<nat>
    var waits: seq<nat>
    var lost: nat
    var stage: seq<Sample>

    /** The pairer as the pass found it. */
    ghost var start: PairingSpec.State
    ghost var lostBefore: nat
    ghost var fed: seq<Fed>
    ghost var from: seq<nat>
    ghost var found: seq<nat>
    ghost var skipped: seq<nat>
    ghost var stops: seq<nat>

    ghost function View(): Pass
      reads this
    {
      Pass(published, heads, cursors, waits, stage, lost, lostBefore, fed, from, found, skipped, stops)
    }

    ghost predicate RingsOk()
      reads this
    {
      View().Ok() && capacity > 1
    }

    ghost predicate PairerOk()
      reads this`start, this`fed, pairer
    {
      pairer.Valid() && Paired(start, fed, pairer.View())
    }

    ghost predicate Valid()
      reads this, pairer
    {
      RingsOk() && PairerOk()
    }

    /** A session over rings with the given histories: the cursors start where the heads are. */
    constructor (published: seq<seq<Sample>>, capacity: nat, heads: seq<nat>, pairer: Pairing.Pairer)
      requires capacity > 1 && pairer.Valid() && |heads| == |published|
      requires forall r :: 0 <= r < |heads| ==> heads[r] <= |published[r]|
      ensures Valid() && this.published == published && this.pairer == pairer
      ensures cursors == this.heads == heads && stage == [] && lost == 0
    {
      this.published, this.capacity, this.pairer := published, capacity, pairer;
      this.heads, cursors, stage, lost, lostBefore := heads, heads, [], 0, 0;
      waits := seq(|heads|, _ => 0);
      fed, from, found, stops, start := [], heads, heads, heads, pairer.View();
      skipped := seq(|heads|, _ => 0);
      new;
      NothingSkipped(|heads|);
    }

    // ---- One ring ---------------------------------------------------------

    method Feed(f: Fed)
      requires PairerOk()
      modifies this`fed, pairer
      ensures PairerOk() && fed == old(fed) + [f]
    {
      ghost var c := pairer.OnEvent(f.s);
      assert PairedBy(old(pairer.View()), f.s, c, pairer.View());
      PairedOneMore(start, fed, old(pairer.View()), f, c, pairer.View());
      fed := fed + [f];
    }

    /** The producer has published this far by now. */
    method LoadHead(src: Source) returns (h: nat)
      requires RingsOk() && View().SourceOk(src)
      modifies this`heads
      ensures RingsOk() && View().SourceOk(src) && old(View()).AdvancesOnly(View(), src.id)
      ensures heads == old(heads)[src.id := h] && old(heads[src.id]) <= h
    {
      h := *;
      if h < heads[src.id] || |published[src.id]| < h {
        h := heads[src.id];
      }
      HeadKeeps(View(), src, h);
      heads := heads[src.id := h];
    }

    /** Hand the head of a source to the pairer. */
    method TakeHead(src: Source) returns (next: Source)
      requires Valid() && View().SourceOk(src) && src.pos < |src.data|
      modifies this`fed, pairer
      ensures Valid() && View().SourceOk(next) && View() == Taken(old(View()), src)
      ensures next == src.(pos := src.pos + 1)
    {
      TakeKeeps(View(), src);
      Feed(Fed(src.id, src.At(), src.data[src.pos]));
      next := src.(pos := src.pos + 1);
    }

    /** Pair the values at the front of the chunk. */
    method FeedValues(src: Source) returns (next: Source)
      requires Valid() && View().SourceOk(src)
      modifies this`fed, pairer
      ensures Valid() && View().SourceOk(next) && old(View()).AdvancesOnly(View(), src.id)
      ensures View() == old(View()).(fed := fed)
      ensures next == src.(pos := next.pos) && src.pos <= next.pos
      ensures next.pos < |next.data| ==> !IsValue(next.data[next.pos])
    {
      next := src;
      while next.pos < |next.data| && IsValue(next.data[next.pos])
        invariant Valid() && View().SourceOk(next) && OnlyValuesAdded(old(fed), fed, src.id)
        invariant View() == old(View()).(fed := fed)
        invariant next == src.(pos := next.pos) && src.pos <= next.pos
        decreases |next.data| - next.pos
      {
        next := TakeHead(next);
      }
    }

    /** Leave the cursor on the first sample not consumed, and note the stamp it waits for. */
    method Park(src: Source)
      requires RingsOk() && View().SourceOk(src)
      requires src.pos < |src.data| ==> !IsValue(src.data[src.pos])
      modifies this`cursors, this`waits
      ensures RingsOk() && View().SourceOk(src) && old(View()).AdvancesOnly(View(), src.id)
      ensures cursors[src.id] == src.At()
      ensures waits[src.id] == if src.pos < |src.data| then src.data[src.pos].timestamp else 0
      ensures View() == old(View()).(cursors := cursors, waits := waits)
    {
      ParkKeeps(View(), src);
      cursors := cursors[src.id := src.At()];
      waits := waits[src.id := if src.pos < |src.data| then src.data[src.pos].timestamp else 0];
    }

    /** Move a cursor onto the first sample a read kept, counting those before it as lost. */
    method PassOver(r: nat, k: Kept)
      requires View().Shaped() && r < |published| && cursors[r] <= k.first
      modifies this`cursors, this`skipped, this`lost
      ensures View() == AfterRead(old(View()), r, k)
    {
      var over := k.first - cursors[r];
      cursors := cursors[r := k.first];
      skipped := skipped[r := skipped[r] + over];
      lost := lost + over;
    }

    /** What a read that saw heads h and h2 copies out of the ring and keeps. */
    method CopyOut(src: Source, h: nat, h2: nat) returns (next: Source)
      requires RingsOk() && View().SourceOk(src) && src.stop.Some? && src.pos == |src.data|
      requires cursors[src.id] == src.At() && waits[src.id] == 0
      requires h <= h2 <= heads[src.id] && cursors[src.id] <= h
      modifies this`cursors, this`skipped, this`lost
      ensures var r := src.id;
        var k := KeptBy(src.At(), Room(src.stop.value, src.At()), h, h2, capacity - 1);
        && View() == AfterRead(old(View()), r, k) && RingsOk()
        && k.end <= |published[r]| && next == Source(published[r][k.first..k.end], 0, k.first, src.stop, r)
        && View().SourceOk(next)
    {
      var r := src.id;
      ReadKeeps(View(), src, capacity - 1, h, h2);
      var k := KeptBy(cursors[r], Room(src.stop.value, cursors[r]), h, h2, capacity - 1);
      PassOver(r, k);
      next := Source(published[r][k.first..k.end], 0, k.first, src.stop, r);
    }

    /** One read of a ring whose chunk is used up. */
    method ReadRing(src: Source) returns (next: Source)
      requires RingsOk() && View().SourceOk(src) && src.stop.Some? && src.pos == |src.data|
      requires cursors[src.id] == src.At() && waits[src.id] == 0
      modifies this`heads, this`cursors, this`skipped, this`lost
      ensures RingsOk() && View().SourceOk(next) && old(View()).AdvancesOnly(View(), src.id)
      ensures next.id == src.id && next.stop == src.stop && next.pos == 0
      ensures next.base == cursors[src.id] && src.At() <= next.base && waits[src.id] == 0
      ensures next.data == [] && next.base == src.At() ==> src.stop.value <= src.At()
      ensures src.stop.value <= src.At() ==> next.data == [] && next.base == src.At()
      ensures next.Ahead() <= Left(src.stop.value, src.At())
    {
      var r := src.id;
      var h := LoadHead(src);
      ghost var m1 := View();
      var h2 := LoadHead(src);
      AdvancesThrough(old(View()), m1, View(), r);
      assert View().RingOk(r);
      assert cursors[r] <= h by {
        assert old(View()).RingOk(r);
      }
      ghost var m2 := View();
      ghost var k := KeptBy(src.At(), Room(src.stop.value, src.At()), h, h2, capacity - 1);
      next := CopyOut(src, h, h2);
      ReadAdvances(m2, r, k);
      AdvancesThrough(old(View()), m2, View(), r);
      ReadFindsSomething(m2, src, capacity - 1, h, h2);
    }

    /** Read until there is a batch or nothing new: a batch wholly overwritten is read again. */
    method Refill(src: Source) returns (next: Source)
      requires RingsOk() && View().SourceOk(src) && src.stop.Some? && src.pos == |src.data|
      requires cursors[src.id] == src.At() && waits[src.id] == 0
      modifies this`heads, this`cursors, this`skipped, this`lost
      ensures RingsOk() && View().SourceOk(next) && old(View()).AdvancesOnly(View(), src.id)
      ensures next.id == src.id && next.stop == src.stop && next.pos == 0
      ensures next.base == cursors[src.id] && src.At() <= next.base && waits[src.id] == 0
      ensures next.data == [] ==> src.stop.value <= next.base
      ensures src.stop.value <= src.At() ==> next.data == []
      ensures next.Ahead() <= src.Ahead()
    {
      next := src;
      while true
        invariant RingsOk() && View().SourceOk(next) && old(View()).AdvancesOnly(View(), src.id)
        invariant src.stop.value <= src.At() ==> next.At() == src.At()
        invariant next.id == src.id && next.stop == src.stop && next.pos == |next.data|
        invariant cursors[src.id] == next.At() && waits[src.id] == 0 && src.At() <= next.At()
        invariant next.Ahead() <= src.Ahead()
        decreases Left(src.stop.value, next.At())
      {
        var before := next.At();
        ghost var m := View();
        next := ReadRing(next);
        AdvancesThrough(old(View()), m, View(), src.id);
        if next.data != [] || next.base == before {
          return;
        }
      }
    }

    /** The first read of a ring in a pass sets how far the pass goes. */
    method SetStop(src: Source) returns (next: Source)
      requires RingsOk() && View().SourceOk(src) && src.stop == None
      modifies this`heads, this`stops
      ensures RingsOk() && View().SourceOk(next) && old(View()).AdvancesOnly(View(), src.id)
      ensures next == src.(stop := Some(stops[src.id])) && cursors == old(cursors) && waits == old(waits)
    {
      var h := LoadHead(src);
      StopKeeps(View(), src);
      stops := stops[src.id := h];
      next := src.(stop := Some(h));
    }

    /** Go through the chunk at hand: to a stamp below the watermark if it has one next to values only,
        or else the cursor is left on the first sample not consumed. */
    method ConsumeChunk(src: Source, w: nat, ghost m: Pass) returns (next: Source, ok: bool)
      requires Valid() && View().SourceOk(src) && m.AdvancesOnly(View(), src.id)
      modifies this`fed, pairer, this`cursors, this`waits
      ensures Valid() && View().SourceOk(next) && m.AdvancesOnly(View(), src.id)
      ensures next.id == src.id && src.At() <= next.At() && src.BoundsOf(next)
      ensures next.stop == src.stop && next.Reach() == src.Reach()
      ensures ok ==> HeadReady(next, w)
      ensures !ok ==> View().Parked(next, w)
    {
      next := FeedValues(src);
      FartherOn(src, next);
      ok := next.pos < |next.data| && next.data[next.pos].timestamp < w;
      if !ok {
        ghost var before := View();
        Park(next);
        AdvancesThrough(old(View()), before, View(), src.id);
      }
      AdvancesThrough(m, old(View()), View(), src.id);
    }

    /** The next chunk of a ring whose last one is used up. */
    method ReadOn(src: Source) returns (next: Source)
      requires RingsOk() && View().SourceOk(src) && src.pos == |src.data|
      requires cursors[src.id] == src.At() && waits[src.id] == 0
      modifies this`heads, this`cursors, this`skipped, this`stops, this`lost
      ensures RingsOk() && View().SourceOk(next) && old(View()).AdvancesOnly(View(), src.id)
      ensures next.id == src.id && next.stop.Some? && (src.stop.Some? ==> next.stop == src.stop)
      ensures next.pos == 0 && next.base == cursors[src.id] && src.At() <= next.base
      ensures if next.data == [] then next.stop.value <= next.base else src.At() < next.stop.value
      ensures src.BoundsOf(next) && (next.data != [] && src.stop.Some? ==> next.Reach() < src.Reach())
    {
      next := src;
      ghost var before := View();
      if next.stop == None {
        next := SetStop(next);
        before := View();
      }
      next := Refill(next);
      AdvancesThrough(old(View()), before, View(), src.id);
    }

    /** With the cursor parked: read on if the chunk was used up. `m` is how things were some time before. */
    method ReadMore(src: Source, w: nat, ghost m: Pass) returns (next: Source, more: bool)
      requires RingsOk() && View().SourceOk(src) && View().Parked(src, w) && m.AdvancesOnly(View(), src.id)
      modifies this`heads, this`cursors, this`skipped, this`stops, this`lost
      ensures RingsOk() && m.AdvancesOnly(View(), src.id)
      ensures next.id == src.id && src.At() <= next.At() && src.BoundsOf(next)
      ensures if more then View().SourceOk(next) else View().Finished(src.id, w)
      ensures more ==> next.stop.Some? && (src.stop == None || next.Reach() < src.Reach())
    {
      next, more := src, false;
      if src.pos == |src.data| {
        next := ReadOn(src);
        AdvancesThrough(m, old(View()), View(), src.id);
        more := next.data != [];
      }
      if !more {
        ParkedIsFinished(View(), next, w);
      }
    }

    /** One chunk of a ring: stop on a stamp below the watermark, or on one past it, or read on. */
    method OneChunk(src: Source, w: nat, ghost m: Pass) returns (next: Source, ok: bool, more: bool)
      requires Valid() && View().SourceOk(src) && m.AdvancesOnly(View(), src.id)
      modifies this`heads, this`cursors, this`waits, this`skipped, this`stops, this`fed, this`lost, pairer
      ensures Valid() && m.AdvancesOnly(View(), src.id)
      ensures next.id == src.id && src.At() <= next.At() && src.BoundsOf(next)
      ensures ok ==> HeadReady(next, w)
      ensures if ok || more then View().SourceOk(next) else View().Finished(src.id, w)
      ensures more ==> !ok && next.stop.Some? && (src.stop == None || next.Reach() < src.Reach())
    {
      more := false;
      next, ok := ConsumeChunk(src, w, m);
      if !ok {
        var parked := next;
        assert PairerOk();
        next, more := ReadMore(parked, w, m);
        assert PairerOk();
        BoundsThrough(src, parked, next);
      }
    }

    /** Go on to the next stamp of a source below the watermark, pairing the values on the way. A ring
        that has none is left with its cursor on the first sample not consumed. */
    method NextStamp(src: Source, w: nat) returns (next: Source, ok: bool)
      requires Valid()
      requires if src.id == |published| then src.pos <= |src.data| && (src.pos < |src.data| ==> HeadReady(src, w))
               else View().SourceOk(src)
      modifies this`heads, this`cursors, this`waits, this`skipped, this`stops, this`fed, this`lost, pairer
      ensures Valid() && MovedOn(old(View()), src, View(), next, ok, w)
      ensures src.BoundsOf(next)
    {
      next, ok := src, src.pos < |src.data|;
      if src.id == |published| {
        return;
      }
      var more := true;
      while more
        invariant Valid() && old(View()).AdvancesOnly(View(), src.id)
        invariant next.id == src.id && src.At() <= next.At() && src.BoundsOf(next)
        invariant !more && ok ==> HeadReady(next, w)
        invariant if more || ok then View().SourceOk(next) else View().Finished(src.id, w)
        decreases more, next.stop == None, next.Reach()
      {
        var chunk := next;
        next, ok, more := OneChunk(chunk, w, old(View()));
        BoundsThrough(src, chunk, next);
      }
    }

    // ---- One pass ---------------------------------------------------------

    /** Pair the stamp at the head of a source. */
    method PairHead(src: Source, w: nat) returns (next: Source)
      requires Valid() && src.id <= |published| && ActiveOk(View(), src, w)
      modifies this`fed, pairer
      ensures Valid() && View() == Taken(old(View()), src) && next == src.(pos := src.pos + 1)
      ensures src.pos < |src.data| && (src.id < |published| ==> View().SourceOk(next) && src.stop.Some?)
    {
      next := src.(pos := src.pos + 1);
      if src.id == |published| {
        ghost var before := View();
        Feed(Fed(src.id, src.At(), src.data[src.pos]));
        StagedKeeps(before, src);
      } else {
        next := TakeHead(src);
      }
    }

    /** Pair the stamp at the head of a source, and go on to its next one. */
    method Advance(src: Source, w: nat) returns (next: Source, ok: bool)
      requires Valid() && src.id <= |published| && ActiveOk(View(), src, w)
      modifies this`heads, this`cursors, this`waits, this`skipped, this`stops, this`fed, this`lost, pairer
      ensures Valid() && MovedOn(Taken(old(View()), src), src.(pos := src.pos + 1), View(), next, ok, w)
      ensures next.Ahead() < src.Ahead()
    {
      ghost var m := View();
      var rest := PairHead(src, w);
      RestReady(m, src, w);
      next, ok := NextStamp(rest, w);
    }

    /** Pair the earliest stamp there is, at the head of source x. */
    method TakeNext(sources: seq<Source>, ghost active: set<nat>, w: nat, x: nat)
      returns (after: seq<Source>, ok: bool)
      requires Valid() && Merging(View(), sources, active, w) && x in active
      requires forall y :: y in active ==> HeadTime(sources[x]) <= HeadTime(sources[y])
      modifies this`heads, this`cursors, this`waits, this`skipped, this`stops, this`fed, this`lost, pairer
      ensures Valid() && Merging(View(), after, if ok then active else active - {x}, w)
      ensures |after| == |sources| && after == sources[x := after[x]] && after[x].Ahead() < sources[x].Ahead()
      ensures after[x].id == sources[x].id && old(View()).SamePass(View())
      ensures |old(fed)| < |fed| && fed[..|old(fed)|] == old(fed) && fed[|old(fed)|].s == sources[x].Head()
    {
      ghost var m := View();
      assert ActiveOk(m, sources[x], w);
      var next: Source;
      next, ok := Advance(sources[x], w);
      AdvanceKeeps(m, sources, active, w, x, View(), next, ok);
      HeadIsFed(m, sources[x], View(), next, ok, w);
      after := sources[x := next];
    }

    /** With one source there is nothing to order it against. */
    method MergeOne(sources: seq<Source>, w: nat) returns (done: seq<Source>)
      requires Valid() && |sources| == 1 && Merging(View(), sources, {0}, w)
      modifies this`heads, this`cursors, this`waits, this`skipped, this`stops, this`fed, this`lost, pairer
      ensures Valid() && Merging(View(), done, {}, w)
      ensures old(View()).SamePass(View())
    {
      done := sources;
      var ok := true;
      while ok
        invariant Valid() && |done| == 1 && Merging(View(), done, if ok then {0} else {}, w)
        invariant old(View()).SamePass(View())
        decreases ok, done[0].Ahead()
      {
        assert {0} - {0} == {};
        done, ok := TakeNext(done, {0}, w, 0);
      }
    }

    /** Of the stamps tied for the earliest, one that pairs cleanly goes next, if there is one. */
    method PreferCleanTie(heap: seq<nat>, sources: seq<Source>) returns (r: seq<nat>)
      requires HaveHeads(heap, sources) && EarliestLast(heap, sources)
      ensures HaveHeads(r, sources) && EarliestLast(r, sources) && multiset(r) == multiset(heap) && |r| == |heap|
      ensures CleanTie(heap, r, sources, pairer.spans)
    {
      var n := |heap| - 1;
      var a := HeadAt(heap, sources, n);
      r := heap;
      if n == 0 {
        return;
      }
      if HeadAt(heap, sources, 0).timestamp != a.timestamp {
        forall k | 0 <= k < n ensures HeadAt(heap, sources, k).timestamp != a.timestamp {
          NoneTied(heap, sources, k);
        }
        return;
      }
      var clean := pairer.CleanNext(a);
      if clean {
        return;
      }
      for i := 0 to n
        invariant forall k :: 0 <= k < i ==> HeadAt(heap, sources, k).timestamp == a.timestamp ==>
                    !PairingSpec.PairsCleanly(pairer.spans, HeadAt(heap, sources, k))
      {
        var b := HeadAt(heap, sources, i);
        if b.timestamp == a.timestamp {
          clean := pairer.CleanNext(b);
          if clean {
            SwapTied(heap, sources, i);
            r := heap[i := heap[n]][n := heap[i]];
            assert HeadAt(r, sources, n) == b;
            return;
          }
        }
      }
    }

    /** A heap over the sources puts the earliest stamp next each time. */
    method MergeByHeap(sources: seq<Source>, w: nat) returns (done: seq<Source>)
      requires Valid() && Merging(View(), sources, Everyone(|sources|), w)
      modifies this`heads, this`cursors, this`waits, this`skipped, this`stops, this`fed, this`lost, pairer
      ensures Valid() && Merging(View(), done, {}, w)
      ensures old(View()).SamePass(View())
    {
      done := sources;
      ghost var active := Everyone(|sources|);
      var heap := FirstHeap(sources);
      while heap != []
        invariant Valid() && Merging(View(), done, active, w) && old(View()).SamePass(View())
        invariant Holds(heap, active) && Heaps.IsHeap(heap, Rank(done))
        decreases AllAhead(done)
      {
        done, heap, active := TakeEarliest(done, heap, active, w);
      }
      assert active == {};
    }

    method FirstHeap(sources: seq<Source>) returns (heap: seq<nat>)
      ensures Holds(heap, Everyone(|sources|)) && Heaps.IsHeap(heap, Rank(sources))
    {
      var first := Numbers(|sources|);
      EveryoneOnce(|sources|);
      heap := Heaps.MakeHeap(first, Rank(sources));
      HoldsPermuted(first, heap, Everyone(|sources|));
    }

    method TakeEarliest(sources: seq<Source>, heap: seq<nat>, ghost active: set<nat>, w: nat)
      returns (after: seq<Source>, left: seq<nat>, ghost active': set<nat>)
      requires Valid() && Merging(View(), sources, active, w)
      requires heap != [] && Holds(heap, active) && Heaps.IsHeap(heap, Rank(sources))
      modifies this`heads, this`cursors, this`waits, this`skipped, this`stops, this`fed, this`lost, pairer
      ensures Valid() && Merging(View(), after, active', w) && old(View()).SamePass(View())
      ensures Holds(left, active') && Heaps.IsHeap(left, Rank(after))
      ensures AllAhead(after) < AllAhead(sources)
      ensures |old(fed)| < |fed| && fed[..|old(fed)|] == old(fed)
      ensures BestNext(sources, active, old(pairer.spans), fed[|old(fed)|].s)
    {
      var order := NextUp(sources, heap, active, w);
      var n := |order| - 1;
      LastIsEarliest(View(), sources, order, active, w);
      var ok;
      after, ok := TakeNext(sources, active, w, order[n]);
      AllAheadUpdate(sources, order[n], after[order[n]]);
      WithoutLast(order, active);
      RanksKeep(order[..n], sources, order[n], after[order[n]]);
      if ok {
        active' := active;
        left := Heaps.PushHeap(order, Rank(after));
        HoldsPermuted(order, left, active);
      } else {
        left, active' := order[..n], active - {order[n]};
      }
    }

    /** Move the earliest head to the back of the heap, or one tied with it that pairs cleanly. */
    method NextUp(sources: seq<Source>, heap: seq<nat>, ghost active: set<nat>, w: nat) returns (order: seq<nat>)
      requires View().Shaped() && AllActiveOk(View(), sources, active, w)
      requires heap != [] && Holds(heap, active) && Heaps.IsHeap(heap, Rank(sources))
      ensures EarliestLast(order, sources) && Holds(order, active) && HaveHeads(order, sources)
      ensures BestNext(sources, active, pairer.spans, HeadAt(order, sources, |order| - 1))
    {
      var popped := Heaps.PopHeap(heap, Rank(sources));
      PoppedIsEarliest(heap, popped, sources);
      HoldsPermuted(heap, popped, active);
      ActiveHaveHeads(View(), sources, popped, active, w);
      order := PreferCleanTie(popped, sources);
      HoldsPermuted(popped, order, active);
      CleanTieIsBest(View(), sources, popped, order, active, pairer.spans, w);
    }

    /** How many staged stamps are below the watermark. */
    method LowerBound(w: nat) returns (n: nat)
      requires Staged(stage)
      ensures n <= |stage| && forall i :: 0 <= i < |stage| ==> (i < n <==> stage[i].timestamp < w)
    {
      n := 0;
      var end := |stage|;
      while n < end
        invariant n <= end <= |stage|
        invariant forall i :: 0 <= i < n ==> stage[i].timestamp < w
        invariant forall i :: end <= i < |stage| ==> w <= stage[i].timestamp
      {
        var mid := (n + end) / 2;
        if stage[mid].timestamp < w {
          n := mid + 1;
        } else {
          end := mid;
        }
      }
    }

    ghost method BeginPass()
      requires Valid()
      modifies this`start, this`lostBefore, this`fed, this`from, this`found, this`skipped, this`stops
      ensures Valid() && View() == Begun(old(View())) && start == pairer.View()
    {
      BegunOk(View());
      start, lostBefore, fed, from, found := pairer.View(), lost, [], cursors, heads;
      skipped, stops := seq(|published|, _ => 0), heads;
    }

    /** The sources with a stamp below the watermark. A ring whose next stamp is known to be past it is
        left alone. */
    method Collect(w: nat) returns (sources: seq<Source>)
      requires Valid() && Staged(stage) && fed == [] && RestUntouched(View(), 0)
      modifies this`heads, this`cursors, this`waits, this`skipped, this`stops, this`fed, this`lost, pairer
      ensures Valid() && Merging(View(), sources, Everyone(|sources|), w) && old(View()).SamePass(View())
    {
      var n := LowerBound(w);
      StageOpens(View(), w, n);
      sources := StageSource(stage, n, |published|);
      for i := 0 to |published|
        invariant Valid() && Collecting(View(), sources, w, i) && old(View()).SamePass(View())
      {
        sources := CollectOne(sources, w, i);
      }
      CollectedIsMerging(View(), sources, w);
    }

    method CollectOne(sources: seq<Source>, w: nat, i: nat) returns (more: seq<Source>)
      requires Valid() && Collecting(View(), sources, w, i) && i < |published|
      modifies this`heads, this`cursors, this`waits, this`skipped, this`stops, this`fed, this`lost, pairer
      ensures Valid() && Collecting(View(), more, w, i + 1) && old(View()).SamePass(View())
    {
      more := sources;
      if waits[i] >= w {
        SkipKeeps(View(), sources, w, i);
        return;
      }
      ghost var m := View();
      OpeningOk(m, sources, w, i);
      var next, ok := NextStamp(Source([], 0, cursors[i], None, i), w);
      CollectKeeps(m, sources, w, i, View(), next, ok);
      if ok {
        more := sources + [next];
      }
    }

    /** One pass: pair every stamp below the watermark, the earliest first. */
    method Merge(w: nat)
      requires Valid() && Staged(stage)
      modifies this, pairer
      ensures Valid() && Staged(stage) && Passed(View(), old(stage), w)
      ensures start == old(pairer.View()) && lostBefore == old(lost)
      ensures from == old(cursors) && found == old(heads)
    {
      BegunOk(View());
      BeginPass();
      ghost var m := View();
      var sources := Collect(w);
      if |sources| == 1 {
        assert Everyone(1) == {0};
        sources := MergeOne(sources, w);
      } else {
        sources := MergeByHeap(sources, w);
      }
      assert m.SamePass(View());
      DropFed(sources, w);
    }

    /** Take what was fed off the front of the stage. */
    method DropFed(sources: seq<Source>, w: nat)
      requires Valid() && Merging(View(), sources, {}, w)
      modifies this`stage
      ensures Valid() && Staged(stage) && Passed(View(), old(stage), w)
      ensures View() == old(View()).(stage := stage)
    {
      var n := 0;
      for i := 0 to |sources|
        invariant n == 0 || n <= |stage|
        invariant forall x :: 0 <= x < i && sources[x].id == |published| ==> n == sources[x].pos
        invariant (forall x :: 0 <= x < i ==> sources[x].id != |published|) ==> n == 0
      {
        if sources[i].id == |published| {
          assert SharedOk(View(), sources[i], w);
          n := sources[i].pos;
        }
      }
      MergedIsPassed(View(), sources, w, n);
      stage := stage[n..];
    }

    // ---- The shared ring --------------------------------------------------

    /** Take a batch off the shared ring: values to the pairer, stamps into the stage, or everything to
        the pairer when there are no thread rings. `arrived` is what the stage has taken in. */
    method ReadShared(batch: seq<Sample>, ghost arrived: seq<Sample>)
      returns (ghost straight: seq<Sample>, ghost late: seq<Sample>)
      requires Valid() && StablySorted(stage, arrived)
      modifies this`stage, this`fed, pairer
      ensures Valid() && View() == old(View()).(stage := stage, fed := fed)
      ensures SplitInto(batch, |published|, straight, late)
      ensures StablySorted(stage, arrived + late) && SamplesOf(fed) == SamplesOf(old(fed)) + straight
      ensures multiset(stage) + multiset(SamplesOf(fed)) ==
              multiset(old(stage)) + multiset(SamplesOf(old(fed))) + multiset(batch)
      ensures |published| == 0 ==> stage == old(stage)
    {
      straight, late := Straight(batch, |published|), Late(batch, |published|);
      ReadEach(batch, arrived);
      SplitWhole(batch, |published|);
      SortKeepsAll(stage, arrived + late);
      SortKeepsAll(old(stage), arrived);
    }

    method ReadEach(batch: seq<Sample>, ghost arrived: seq<Sample>)
      requires Valid() && StablySorted(stage, arrived)
      modifies this`stage, this`fed, pairer
      ensures Valid() && View() == old(View()).(stage := stage, fed := fed)
      ensures StablySorted(stage, arrived + Late(batch, |published|))
      ensures SamplesOf(fed) == SamplesOf(old(fed)) + Straight(batch, |published|)
      ensures |published| == 0 ==> stage == old(stage)
    {
      ghost var late := arrived;
      for i := 0 to |batch|
        invariant Valid() && View() == old(View()).(stage := stage, fed := fed)
        invariant late == arrived + Late(batch[..i], |published|) && StablySorted(stage, late)
        invariant SamplesOf(fed) == SamplesOf(old(fed)) + Straight(batch[..i], |published|)
        invariant |published| == 0 ==> stage == old(stage)
      {
        SplitOnto(batch, i, |published|, arrived, SamplesOf(old(fed)));
        late := ReadOne(i, batch[i], late);
      }
      assert batch[..|batch|] == batch;
    }

    method ReadOne(i: nat, s: Sample, ghost arrived: seq<Sample>) returns (ghost late: seq<Sample>)
      requires Valid() && StablySorted(stage, arrived)
      modifies this`stage, this`fed, pairer
      ensures Valid() && View() == old(View()).(stage := stage, fed := fed)
      ensures late == arrived + Late([s], |published|) && StablySorted(stage, late)
      ensures SamplesOf(fed) == SamplesOf(old(fed)) + Straight([s], |published|)
      ensures |published| == 0 ==> stage == old(stage)
    {
      if IsValue(s) || |published| == 0 {
        StraightKeeps(View(), i, s);
        Feed(Fed(|published| + 1, i, s));
        late := arrived;
      } else {
        StageIsApart(View());
        stage := Insert(stage, s, arrived);
        late := arrived + [s];
      }
    }

    /** A pass as the drain loop runs it: the shared ring first, then the merge. `direct` is what the pairer
        was given before the merge, since the last one began, and `staged` the stage the merge found. */
    method MergePass(batch: seq<Sample>, w: nat, ghost arrived: seq<Sample>)
      returns (ghost direct: seq<Fed>, ghost staged: seq<Sample>, ghost straight: seq<Sample>,
               ghost late: seq<Sample>)
      requires Valid() && StablySorted(stage, arrived)
      modifies this, pairer
      ensures Valid() && Staged(stage)
      ensures Passed(View(), staged, w) && StablySorted(staged, arrived + late)
      ensures SplitInto(batch, |published|, straight, late) && SamplesOf(direct) == SamplesOf(old(fed)) + straight
      ensures multiset(staged) + multiset(SamplesOf(direct)) ==
              multiset(old(stage)) + multiset(SamplesOf(old(fed))) + multiset(batch)
      ensures |published| == 0 ==> staged == old(stage)
      ensures Paired(old(start), direct, start)
      ensures lostBefore == old(lost) && from == old(cursors) && found == old(heads)
    {
      straight, late := ReadShared(batch, arrived);
      staged, direct := stage, fed;
      Merge(w);
    }
  }
}
