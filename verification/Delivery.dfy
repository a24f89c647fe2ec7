/** What a finished pass has delivered. */
module Delivery {
  import opened RingReads
  import opened Stamps
  import opened MergeSpec
  import opened PairingSpec
  import opened PairingRuns
  import opened Merging

  lemma {:induction false} OfComesFrom(fed: seq<Fed>, id: nat, k: nat) returns (i: nat)
    requires k in Of(fed, id)
    ensures i < |fed| && fed[i].source == id && fed[i].index == k
  {
    var last := fed[|fed| - 1];
    if last.source == id && last.index == k {
      i := |fed| - 1;
    } else {
      i := OfComesFrom(fed[..|fed| - 1], id, k);
    }
  }

  lemma {:induction false} OfHolds(fed: seq<Fed>, id: nat, i: nat)
    requires i < |fed| && fed[i].source == id
    ensures fed[i].index in Of(fed, id)
  {
    if i == |fed| - 1 {
    } else {
      OfHolds(fed[..|fed| - 1], id, i);
    }
  }

  /** With rising indices nothing is fed twice. */
  lemma {:induction false} FedOnce(fed: seq<Fed>, id: nat, from: nat, to: nat, i: nat, j: nat)
    requires Rising(Of(fed, id), from, to) && i < j < |fed| && fed[i].source == fed[j].source == id
    ensures fed[i].index < fed[j].index
  {
    var n := |fed| - 1;
    assert Of(fed[..n], id) <= Of(fed, id);
    if j == n {
      OfHolds(fed[..n], id, i);
      var a :| 0 <= a < |Of(fed[..n], id)| && Of(fed[..n], id)[a] == fed[i].index;
      assert Of(fed, id)[a] == fed[i].index && Of(fed, id)[|Of(fed, id)| - 1] == fed[j].index;
    } else {
      assert Rising(Of(fed[..n], id), from, to) by {
        assert forall a :: 0 <= a < |Of(fed[..n], id)| ==> Of(fed[..n], id)[a] == Of(fed, id)[a];
      }
      FedOnce(fed[..n], id, from, to, i, j);
    }
  }

  /** A pass leaves no stamp below the watermark behind that was out when it first read its ring, let
      alone when the pass began; with nothing overwritten, it has paired each of them exactly once. */
  lemma NothingLeftBehind(m: Pass, before: seq<Sample>, w: nat, r: nat, k: nat)
    requires Passed(m, before, w) && r < |m.published| && InTimeOrder(m.published[r])
    requires m.AtStamp(r, k) && m.published[r][k].timestamp < w && m.from[r] <= k < m.stops[r]
    ensures m.found[r] <= m.stops[r] && k < m.cursors[r]
    ensures m.skipped[r] == 0 ==> exists i :: 0 <= i < |m.fed| && m.fed[i] == Fed(r, k, m.published[r][k])
    ensures forall i, j :: 0 <= i < j < |m.fed| && m.fed[i].source == r && m.fed[i].index == k ==>
              !(m.fed[j].source == r && m.fed[j].index == k)
  {
    assert m.Finished(r, w);
    if m.skipped[r] == 0 {
      RisingFull(Of(m.fed, r), m.from[r], m.cursors[r], k);
      var i := OfComesFrom(m.fed, r, k);
      assert TrueSample(m.fed[i], m.published);
    }
    forall i, j | 0 <= i < j < |m.fed| && m.fed[i].source == r && m.fed[i].index == k
      ensures !(m.fed[j].source == r && m.fed[j].index == k)
    {
      if m.fed[j].source == r {
        FedOnce(m.fed, r, m.from[r], m.cursors[r], i, j);
      }
    }
  }

  /** A cursor is left on the first sample not consumed: before it, all the pass has not counted lost
      was fed; from it on, nothing was. */
  lemma CursorIsFirstLeft(m: Pass, before: seq<Sample>, w: nat, r: nat, k: nat)
    requires Passed(m, before, w) && r < |m.published| && m.from[r] <= k
    ensures k in Of(m.fed, r) ==> k < m.cursors[r]
    ensures m.skipped[r] == 0 && k < m.cursors[r] ==> k in Of(m.fed, r)
    ensures m.from[r] + |Of(m.fed, r)| + m.skipped[r] == m.cursors[r] <= m.heads[r]
    ensures m.from[r] + |Of(m.fed, r)| <= m.stops[r]
  {
    assert m.Finished(r, w) && m.RingOk(r);
    if m.skipped[r] == 0 && k < m.cursors[r] {
      RisingFull(Of(m.fed, r), m.from[r], m.cursors[r], k);
    }
  }

  /** How much a pass consumes is bounded by where its stop was, but not which samples: a read reaches
      past the stop exactly when the ring has been lapped that far. */
  lemma ReadPastStop(cursor: nat, stop: nat, h: nat, h2: nat, mask: nat)
    requires cursor < stop <= h <= h2 && mask > 0
    ensures KeptBy(cursor, Room(stop, cursor), h, h2, mask).end > stop
      <==> h > stop && FirstIntact(h, mask) + Room(stop, cursor) > stop
  {
  }

  /** A ring that waits past the watermark holds no stamp below it, now or ever, from its cursor on. */
  lemma WaitingOmitsNothing(m: Pass, w: nat, r: nat, k: nat)
    requires m.Ok() && r < |m.published| && InTimeOrder(m.published[r]) && m.waits[r] >= w
    requires m.AtStamp(r, k) && m.cursors[r] <= k
    ensures w <= m.published[r][k].timestamp
  {
    assert m.RingOk(r);
  }

  /** The staged stamps a pass feeds are those below the watermark, in the order they were staged. */
  lemma StageFedInOrder(m: Pass, before: seq<Sample>, w: nat, k: nat)
    requires Passed(m, before, w) && k < |before|
    ensures k in Of(m.fed, |m.published|) <==> before[k].timestamp < w
  {
    var n := |before| - |m.stage|;
    if k < n {
      RisingFull(Of(m.fed, |m.published|), 0, n, k);
    }
  }

  /** The pairer's part in a pass is a run of the pairer on what the pass fed, so all that holds of runs
      holds of it. */
  lemma {:induction false} PassIsARun(start: State, l: Ledger, fed: seq<Fed>, end: State)
    returns (inputs: seq<Input>, endL: Ledger)
    requires LedgerOk(start, l) && Paired(start, fed, end)
    ensures Reaches(start, l, inputs, end, endL)
    ensures |inputs| == |fed| && forall i :: 0 <= i < |fed| ==> inputs[i].Event? && inputs[i].s == fed[i].s
    decreases |fed|
  {
    if fed == [] {
      inputs, endL := [], l;
    } else {
      var n := |fed| - 1;
      assert PairedThen(start, fed[..n], fed[n].s, end);
      var mid :| Paired(start, fed[..n], mid) && PairedNext(mid, fed[n].s, end);
      var c :| PairedBy(mid, fed[n].s, c, end);
      var earlier, midL := PassIsARun(start, l, fed[..n], mid);
      inputs := earlier + [Event(fed[n].s, c)];
      endL := ReachesOneMore(start, l, earlier, mid, midL, Event(fed[n].s, c));
    }
  }

  lemma {:induction false} ReachesOneMore(st: State, l: Ledger, inputs: seq<Input>, end: State, endL: Ledger,
                                          inp: Input) returns (nextL: Ledger)
    requires LedgerOk(st, l) && Reaches(st, l, inputs, end, endL) && Allowed(end, inp)
    ensures LedgerOk(end, endL) && nextL == Account(end, endL, inp)
    ensures Reaches(st, l, inputs + [inp], Step(end, inp), nextL)
    decreases |inputs|
  {
    LedgerAfter(st, l, inputs, end, endL);
    StepKeepsLedger(end, endL, inp);
    if inputs == [] {
      assert ([inp])[1..] == [];
      nextL := Account(end, endL, inp);
    } else {
      StepKeepsLedger(st, l, inputs[0]);
      assert (inputs + [inp])[1..] == inputs[1..] + [inp];
      nextL := ReachesOneMore(Step(st, inputs[0]), Account(st, l, inputs[0]), inputs[1..], end, endL, inp);
    }
  }
}
