/** The hash table under all of the backend's tables. It never grows; it probes linearly, closes the gap an
    erased entry leaves by moving others back, and can erase by a condition in one pass. The hash is an
    arbitrary function, so nothing here depends on how well it mixes. */
module OpenMaps {
  import opened Options

  // ---- Cyclic slots -------------------------------------------------------

  /** One slot further along the cyclic probe order of a table of `cap` slots. */
  function Next(i: nat, cap: nat): (r: nat)
    requires i < cap
    ensures r < cap
  {
    if i + 1 == cap then 0 else i + 1
  }

  /** How many steps of Next lead from a to b. */
  function Dist(a: nat, b: nat, cap: nat): (r: nat)
    requires a < cap && b < cap
    ensures r < cap
  {
    if a <= b then b - a else b - a + cap
  }

  /** Going forward from k, slot r comes before slot q. */
  predicate Precedes(k: nat, r: nat, q: nat, cap: nat)
    requires k < cap && r < cap && q < cap
  {
    Dist(k, r, cap) < Dist(k, q, cap)
  }

  /** If k reaches h before q, and h reaches j before q, then k reaches j before q. */
  lemma PrecedesTransitive(k: nat, h: nat, j: nat, q: nat, cap: nat)
    requires k < cap && h < cap && j < cap && q < cap
    requires Precedes(k, h, q, cap) && Precedes(h, j, q, cap)
    ensures Precedes(k, j, q, cap)
  {
  }

  predicate IsPow2(n: nat) {
    n == 1 || (n > 1 && n % 2 == 0 && IsPow2(n / 2))
  }

  /** The least power of two that is at least v, and at least 2. */
  function NextPow2(v: nat): (r: nat)
    ensures v <= r && 2 <= r && IsPow2(r)
    ensures r == 2 || r / 2 < v
  {
    if v <= 2 then 2 else 2 * NextPow2((v + 1) / 2)
  }

  /** Bitwise or, a bit at a time. */
  function Or(a: nat, b: nat): nat
    decreases a + b
  {
    if a == 0 && b == 0 then 0
    else 2 * Or(a / 2, b / 2) + if a % 2 == 1 || b % 2 == 1 then 1 else 0
  }

  function Shr(x: nat, s: nat): nat {
    if s == 0 then x else Shr(x / 2, s - 1)
  }

  /** How many bits a number has. */
  function Len(x: nat): nat {
    if x == 0 then 0 else 1 + Len(x / 2)
  }

  /** The source's way of rounding up: spread the highest bit over all those below it. */
  function Smear(x: nat): nat {
    var a := Or(x, Shr(x, 1));
    var b := Or(a, Shr(a, 2));
    var c := Or(b, Shr(b, 4));
    var d := Or(c, Shr(c, 8));
    var e := Or(d, Shr(d, 16));
    Or(e, Shr(e, 32))
  }

  predicate AllOnes(x: nat) {
    x == 0 || (x % 2 == 1 && AllOnes(x / 2))
  }

  /** The s bits from the highest down are ones. */
  predicate TopOnes(x: nat, s: nat) {
    if Len(x) <= s then AllOnes(x) else TopOnes(x / 2, s)
  }

  lemma {:induction false} OrLen(a: nat, b: nat)
    ensures Len(b) <= Len(a) ==> Len(Or(a, b)) == Len(a)
    decreases a
  {
    if a > 0 {
      OrLen(a / 2, b / 2);
    }
  }

  lemma {:induction false} ShrHalf(x: nat, s: nat)
    ensures Shr(x, s) / 2 == Shr(x / 2, s) && Len(Shr(x, s)) <= Len(x)
    decreases s
  {
    if s > 0 {
      ShrHalf(x / 2, s - 1);
    }
  }

  lemma {:induction false} ShrAll(x: nat, s: nat)
    requires Len(x) <= s
    ensures Shr(x, s) == 0
    decreases s
  {
    if s > 0 {
      ShrAll(x / 2, s - 1);
    }
  }

  lemma {:induction false} OrNothing(a: nat)
    ensures Or(a, 0) == a
  {
    if a > 0 {
      OrNothing(a / 2);
    }
  }

  lemma {:induction false} OneOnTop(x: nat)
    ensures TopOnes(x, 1)
  {
    if Len(x) > 1 {
      OneOnTop(x / 2);
    } else {
      assert Len(x / 2) == 0 || x == 0;
    }
  }

  /** Bit j, counted from the lowest, is among the top s. */
  lemma {:induction false} TopBit(x: nat, s: nat, j: nat)
    requires TopOnes(x, s) && j < Len(x) <= j + s
    ensures Shr(x, j) % 2 == 1
    decreases j
  {
    if j > 0 {
      if Len(x) <= s {
        assert AllOnes(x / 2) && Len(x / 2) <= s;
      }
      TopBit(x / 2, s, j - 1);
    }
  }

  /** One step of the smearing doubles the ones on top. */
  lemma {:induction false} OnesDouble(x: nat, s: nat)
    requires TopOnes(x, s)
    ensures TopOnes(Or(x, Shr(x, s)), 2 * s) && Len(Or(x, Shr(x, s))) == Len(x)
    decreases x
  {
    var y := Shr(x, s);
    ShrHalf(x, s);
    OrLen(x, y);
    if Len(x) <= s {
      ShrAll(x, s);
      OrNothing(x);
    } else {
      OnesDouble(x / 2, s);
      assert Or(x, y) / 2 == Or(x / 2, y / 2);
      if Len(x) <= 2 * s {
        TopBit(x, s, s);
      }
    }
  }

  /** A word smeared is all ones up to its highest bit. */
  lemma SmearIsOnes(x: nat)
    requires Len(x) <= 64
    ensures AllOnes(Smear(x)) && Len(Smear(x)) == Len(x)
  {
    OneOnTop(x);
    OnesDouble(x, 1);
    var a := Or(x, Shr(x, 1));
    OnesDouble(a, 2);
    var b := Or(a, Shr(a, 2));
    OnesDouble(b, 4);
    var c := Or(b, Shr(b, 4));
    OnesDouble(c, 8);
    var d := Or(c, Shr(c, 8));
    OnesDouble(d, 16);
    var e := Or(d, Shr(d, 16));
    OnesDouble(e, 32);
  }

  lemma {:induction false} OnesAndOne(y: nat, v: nat)
    requires v >= 2 && AllOnes(y) && Len(y) == Len(v - 1)
    ensures y + 1 == NextPow2(v)
    decreases v
  {
    if v == 2 {
      assert Len(1) == 1 + Len(0) && Len(y) == 1 + Len(y / 2);
    } else {
      assert (v + 1) / 2 - 1 == (v - 1) / 2;
      OnesAndOne(y / 2, (v + 1) / 2);
    }
  }

  /** For every word, smearing rounds up to the least power of two. */
  lemma SmearRoundsUp(v: nat)
    requires v >= 2 && Len(v - 1) <= 64
    ensures Smear(v - 1) + 1 == NextPow2(v)
  {
    SmearIsOnes(v - 1);
    OnesAndOne(Smear(v - 1), v);
  }

  function Home(hash: nat -> nat, key: nat, cap: nat): (r: nat)
    requires cap > 0
    ensures r < cap
  {
    hash(key) % cap
  }

  // ---- What the arrays mean -----------------------------------------------

  /** `pos` names exactly the used slots: no key sits in two of them. */
  ghost predicate Placed(keys: seq<nat>, used: seq<bool>, pos: map<nat, nat>)
    requires |keys| == |used|
  {
    && (forall k :: k in pos ==> pos[k] < |used| && used[pos[k]] && keys[pos[k]] == k)
    && (forall i :: 0 <= i < |used| && used[i] ==> keys[i] in pos && pos[keys[i]] == i)
  }

  /** Every slot from home to entry q is used, the slot `hole` excepted. */
  ghost predicate RunFull(home: nat, used: seq<bool>, q: nat, hole: nat)
    requires home < |used| && q < |used|
  {
    forall r :: 0 <= r < |used| && r != hole && Precedes(home, r, q, |used|) ==> used[r]
  }

  /** Every entry is reachable from its home with no gap, the slot `hole` excepted. */
  ghost predicate Reachable(keys: seq<nat>, used: seq<bool>, hash: nat -> nat, hole: nat)
    requires |keys| == |used|
  {
    forall q :: 0 <= q < |used| && used[q] ==> RunFull(Home(hash, keys[q], |used|), used, q, hole)
  }

  /** The finite map the arrays stand for. */
  ghost function Stored<V>(vals: seq<V>, pos: map<nat, nat>): (m: map<nat, V>)
    requires forall k :: k in pos ==> pos[k] < |vals|
    ensures m.Keys == pos.Keys
  {
    map k | k in pos :: vals[pos[k]]
  }

  /** The map without the entries that satisfy `pred`. */
  function Without<V>(m: map<nat, V>, pred: (nat, V) -> bool): (r: map<nat, V>)
    ensures forall k :: k in r <==> k in m && !pred(k, m[k])
    ensures forall k :: k in r ==> r[k] == m[k]
    ensures |r| <= |m|
  {
    var r := map k | k in m && !pred(k, m[k]) :: m[k];
    assert r.Keys <= m.Keys;
    SubsetNoLarger(r.Keys, m.Keys);
    r
  }

  /** The entries the scan has passed all fail the test, wherever an erase has moved them since. */
  ghost predicate Passed<V>(pos: map<nat, nat>, contents: map<nat, V>, pred: (nat, V) -> bool, i: nat)
    requires contents.Keys == pos.Keys
  {
    forall k :: k in pos && pos[k] < i ==> !pred(k, contents[k])
  }

  /** Closing the gap at i can only bring an entry the scan has not reached to slot i itself. */
  lemma PassedStays<V>(was: map<nat, nat>, now: map<nat, nat>, contents: map<nat, V>, pred: (nat, V) -> bool,
                       i: nat, key: nat, cap: nat)
    requires contents.Keys == was.Keys && now.Keys == was.Keys - {key}
    requires i < cap && MovedBackOnly(i, now, was, cap) && Passed(was, contents, pred, i)
    ensures Passed(now, contents - {key}, pred, i)
  {
  }

  /** What a scan that has reached slot i has done: `order` lists what is gone, all of it satisfying
      `pred`; the rest is untouched; nothing it has passed satisfies `pred`. */
  ghost predicate Swept<V>(before: map<nat, V>, now: map<nat, V>, pos: map<nat, nat>, pred: (nat, V) -> bool,
                           i: nat, order: seq<nat>)
    requires now.Keys == pos.Keys
  {
    && now.Keys <= before.Keys
    && (forall k :: k in now ==> now[k] == before[k])
    && (forall k :: k in before && k !in now ==> pred(k, before[k]))
    && Passed(pos, now, pred, i)
    && Enumerates(order, before.Keys - now.Keys)
  }

  lemma SweptSkip<V>(before: map<nat, V>, now: map<nat, V>, pos: map<nat, nat>, pred: (nat, V) -> bool,
                     i: nat, order: seq<nat>)
    requires now.Keys == pos.Keys && Swept(before, now, pos, pred, i, order)
    requires forall k :: k in pos && pos[k] == i ==> !pred(k, now[k])
    ensures Swept(before, now, pos, pred, i + 1, order)
  {
  }

  lemma SweptAll<V>(before: map<nat, V>, now: map<nat, V>, pos: map<nat, nat>, pred: (nat, V) -> bool,
                    i: nat, order: seq<nat>)
    requires now.Keys == pos.Keys && Swept(before, now, pos, pred, i, order)
    requires forall k :: k in pos ==> pos[k] < i
    ensures now == Without(before, pred)
  {
  }

  lemma SweptErase<V>(before: map<nat, V>, now: map<nat, V>, was: map<nat, nat>, pos: map<nat, nat>,
                      pred: (nat, V) -> bool, i: nat, order: seq<nat>, key: nat, cap: nat)
    requires now.Keys == was.Keys && pos.Keys == was.Keys - {key}
    requires i < cap && MovedBackOnly(i, pos, was, cap)
    requires Swept(before, now, was, pred, i, order) && key in now && pred(key, now[key])
    ensures Swept(before, now - {key}, pos, pred, i, order + [key])
  {
    PassedStays(was, pos, now, pred, i, key, cap);
  }

  /** `order` lists each key of `keys` exactly once. */
  ghost predicate Enumerates(order: seq<nat>, keys: set<nat>)
  {
    && (forall k :: k in order <==> k in keys)
    && (forall a, b :: 0 <= a < b < |order| ==> order[a] != order[b])
  }

  lemma StoredFill<V>(vals: seq<V>, pos: map<nat, nat>, key: nat, i: nat, value: V)
    requires i < |vals| && forall k :: k in pos ==> pos[k] < |vals| && pos[k] != i
    ensures Stored(vals[i := value], pos[key := i]) == Stored(vals, pos)[key := value]
  {
  }

  /** A finite map capped at `room` entries: a present key keeps its value, a new one is refused
      once the map is full. */
  function Inserted<V>(m: map<nat, V>, room: nat, key: nat, value: V): (r: map<nat, V>)
    ensures |m| <= room ==> |r| <= room
    ensures key in r <==> key in m || |m| < room
  {
    if key in m || |m| >= room then m else m[key := value]
  }

  /** No key is further from slot i than it was. */
  ghost predicate MovedBackOnly(i: nat, now: map<nat, nat>, was: map<nat, nat>, cap: nat)
    requires i < cap
  {
    forall k :: k in now ==>
      k in was && was[k] < cap && now[k] < cap && Dist(i, now[k], cap) <= Dist(i, was[k], cap)
  }

  /** A slot met after the hole and before a free slot is further from i than the hole is. */
  lemma BackStep(i: nat, h: nat, j: nat, free: nat, key: nat, now: map<nat, nat>, was: map<nat, nat>, cap: nat)
    requires i < cap && h < cap && j < cap && free < cap && h != j
    requires Precedes(i, h, free, cap) && Precedes(h, j, free, cap)
    requires MovedBackOnly(i, now, was, cap) && key in now && now[key] == j
    ensures Precedes(i, j, free, cap)
    ensures MovedBackOnly(i, now[key := h], was, cap)
  {
  }

  lemma {:induction false} KeysDistinct(keys: seq<nat>, used: seq<bool>, pos: map<nat, nat>, n: nat)
    requires |keys| == |used| && Placed(keys, used, pos) && n <= |used|
    requires forall i :: 0 <= i < n ==> used[i]
    ensures |set i | 0 <= i < n :: keys[i]| == n
  {
    if n == 0 {
    } else {
      KeysDistinct(keys, used, pos, n - 1);
      var less := set i | 0 <= i < n - 1 :: keys[i];
      assert keys[n - 1] !in less by {
        forall i | 0 <= i < n - 1 ensures keys[i] != keys[n - 1] {
          assert pos[keys[i]] == i && pos[keys[n - 1]] == n - 1;
        }
      }
      assert (set i | 0 <= i < n :: keys[i]) == less + {keys[n - 1]};
    }
  }

  /** A table below its load factor has a free slot: otherwise every slot would name its own key. */
  lemma SomeSlotFree(keys: seq<nat>, used: seq<bool>, pos: map<nat, nat>) returns (free: nat)
    requires |keys| == |used| && Placed(keys, used, pos) && |pos| < |used|
    ensures free < |used| && !used[free]
  {
    if forall i :: 0 <= i < |used| ==> used[i] {
      KeysDistinct(keys, used, pos, |used|);
      assert (set i | 0 <= i < |used| :: keys[i]) <= pos.Keys;
      SubsetNoLarger((set i | 0 <= i < |used| :: keys[i]), pos.Keys);
      assert false;
    }
    free :| 0 <= free < |used| && !used[free];
  }

  // ---- One step of each operation, on the slots ---------------------------

  /** A probe for `key` from `home` to slot i has met used slots only, and not the key. */
  ghost predicate ProbeClear(keys: seq<nat>, used: seq<bool>, home: nat, key: nat, i: nat)
    requires |keys| == |used| && home < |used| && i < |used|
  {
    forall r :: 0 <= r < |used| && Precedes(home, r, i, |used|) ==> used[r] && keys[r] != key
  }

  lemma ProbeStep(keys: seq<nat>, used: seq<bool>, home: nat, key: nat, i: nat)
    requires |keys| == |used| && home < |used| && i < |used|
    requires ProbeClear(keys, used, home, key, i) && used[i] && keys[i] != key
    requires exists f :: 0 <= f < |used| && !used[f]
    ensures ProbeClear(keys, used, home, key, Next(i, |used|))
    ensures forall f :: 0 <= f < |used| && !used[f] ==>
      Precedes(i, Next(i, |used|), f, |used|) || f == Next(i, |used|)
  {
  }

  /** A probe that runs into a free slot has looked everywhere the key could be. */
  lemma ProbeComplete(keys: seq<nat>, used: seq<bool>, hash: nat -> nat, pos: map<nat, nat>, key: nat, i: nat)
    requires |keys| == |used| && i < |used| && !used[i]
    requires Placed(keys, used, pos) && Reachable(keys, used, hash, |used|)
    requires ProbeClear(keys, used, Home(hash, key, |used|), key, i)
    ensures key !in pos
  {
  }

  /** Filling the free slot a probe ended on keeps every run intact. */
  lemma InsertKeeps(keys: seq<nat>, used: seq<bool>, hash: nat -> nat, pos: map<nat, nat>, key: nat, i: nat)
    requires |keys| == |used| && i < |used| && !used[i] && key !in pos
    requires Placed(keys, used, pos) && Reachable(keys, used, hash, |used|)
    requires ProbeClear(keys, used, Home(hash, key, |used|), key, i)
    ensures Placed(keys[i := key], used[i := true], pos[key := i])
    ensures Reachable(keys[i := key], used[i := true], hash, |used|)
  {
    forall q | 0 <= q < |used| && used[q]
      ensures RunFull(Home(hash, keys[q], |used|), used[i := true], q, |used|)
    {
      assert RunFull(Home(hash, keys[q], |used|), used, q, |used|);
    }
  }

  /** Dropping the entry at slot i leaves a hole other runs may still need to cross. */
  lemma OpenHoleKeeps(keys: seq<nat>, used: seq<bool>, hash: nat -> nat, pos: map<nat, nat>, i: nat)
    requires |keys| == |used| && i < |used| && used[i]
    requires Placed(keys, used, pos) && Reachable(keys, used, hash, |used|)
    ensures Placed(keys, used[i := false], pos - {keys[i]})
    ensures Reachable(keys, used[i := false], hash, i)
  {
    forall q | 0 <= q < |used| && used[i := false][q]
      ensures RunFull(Home(hash, keys[q], |used|), used[i := false], q, i)
    {
      assert RunFull(Home(hash, keys[q], |used|), used, q, |used|);
    }
  }

  /** Moving the entry at j into the hole h is legal when h lies on its run; j is the new hole. */
  lemma MoveBackKeeps(keys: seq<nat>, used: seq<bool>, hash: nat -> nat, pos: map<nat, nat>, h: nat, j: nat)
    requires |keys| == |used| && h < |used| && j < |used| && !used[h] && used[j]
    requires Placed(keys, used, pos) && Reachable(keys, used, hash, h)
    requires !Precedes(Home(hash, keys[j], |used|), j, h, |used|)
    ensures Placed(keys[h := keys[j]], used[h := true][j := false], pos[keys[j] := h])
    ensures Reachable(keys[h := keys[j]], used[h := true][j := false], hash, j)
  {
    var keys', used' := keys[h := keys[j]], used[h := true][j := false];
    forall q | 0 <= q < |used| && used'[q]
      ensures RunFull(Home(hash, keys'[q], |used|), used', q, j)
    {
      var from := if q == h then j else q;
      assert RunFull(Home(hash, keys[from], |used|), used, from, h);
    }
  }

  /** Entries after the hole, up to slot j, do not have the hole on their run. */
  ghost predicate Settled(keys: seq<nat>, used: seq<bool>, hash: nat -> nat, h: nat, j: nat)
    requires |keys| == |used| && h < |used| && j < |used|
  {
    forall q :: 0 <= q < |used| && q != h && Dist(h, q, |used|) <= Dist(h, j, |used|)
      ==> used[q] && Precedes(Home(hash, keys[q], |used|), q, h, |used|)
  }

  lemma SettledStep(keys: seq<nat>, used: seq<bool>, hash: nat -> nat, h: nat, j: nat)
    requires |keys| == |used| && h < |used| && j < |used| && Settled(keys, used, hash, h, j)
    requires var e := Next(j, |used|); e != h && used[e] && Precedes(Home(hash, keys[e], |used|), e, h, |used|)
    ensures Settled(keys, used, hash, h, Next(j, |used|))
  {
  }

  /** Once the slot after the settled ones is free, nothing beyond it has the hole on its run. */
  lemma HoleClosed(keys: seq<nat>, used: seq<bool>, hash: nat -> nat, h: nat, j: nat)
    requires |keys| == |used| && h < |used| && j < |used|
    requires !used[h] && Reachable(keys, used, hash, h) && Settled(keys, used, hash, h, j)
    requires Next(j, |used|) != h && !used[Next(j, |used|)]
    ensures Reachable(keys, used, hash, |used|)
  {
    var e := Next(j, |used|);
    forall q | 0 <= q < |used| && used[q]
      ensures RunFull(Home(hash, keys[q], |used|), used, q, |used|)
    {
      var k := Home(hash, keys[q], |used|);
      assert RunFull(k, used, q, h);
      if Precedes(k, h, q, |used|) {
        PrecedesTransitive(k, h, e, q, |used|);
      }
    }
  }

  // ---- The table ----------------------------------------------------------

  class OpenMap<V(0)> {
    const hash: nat -> nat
    var keys: array<nat>
    var used: array<bool>
    var vals: array<V>
    var size: nat
    var maxEntries: nat

    /** Where each live key sits. */
    ghost var pos: map<nat, nat>

    ghost predicate Shaped()
      reads this
    {
      && keys.Length == used.Length == vals.Length
      && keys as object != vals as object && used as object != vals as object
    }

    /** The arrays the table is laid out in. */
    ghost function Slots(): set<object>
      reads this
    {
      {keys as object, used, vals}
    }

    ghost predicate Linked(hole: nat)
      reads this, keys, used
    {
      && Shaped()
      && Placed(keys[..], used[..], pos)
      && Reachable(keys[..], used[..], hash, hole)
    }

    ghost function Contents(): map<nat, V>
      requires Shaped() && Placed(keys[..], used[..], pos)
      reads this, keys, used, vals
    {
      Stored(vals[..], pos)
    }

    ghost predicate Valid()
      reads this, keys, used
    {
      && Linked(used.Length)
      && size == |pos|
      && (used.Length > 0 ==> 0 < maxEntries && 2 * maxEntries <= used.Length && size <= maxEntries)
    }

    /** The inner walk of the shift: the first slot after the hole whose entry may fill it, or
        None at the end of the run, where the table needs no further repair. */
    method FindFiller(h: nat, ghost free: nat) returns (filler: Option<nat>)
      requires Linked(h)
      requires h < used.Length && !used[h]
      requires free < used.Length && !used[free] && free != h
      ensures filler == None ==> Reachable(keys[..], used[..], hash, used.Length)
      ensures filler.Some? ==>
        && filler.value < used.Length && used[filler.value]
        && !Precedes(Home(hash, keys[filler.value], used.Length), filler.value, h, used.Length)
        && Precedes(h, filler.value, free, used.Length)
    {
      var j: nat := h;
      while true
        invariant j < used.Length && Settled(keys[..], used[..], hash, h, j)
        invariant Dist(h, j, used.Length) < Dist(h, free, used.Length)
        decreases Dist(j, free, used.Length)
      {
        ghost var last := j;
        j := Next(j, used.Length);
        if !used[j] {
          HoleClosed(keys[..], used[..], hash, h, last);
          return None;
        }
        var k := Home(hash, keys[j], used.Length);
        if Dist(k, h, used.Length) <= Dist(k, j, used.Length) {
          return Some(j);
        }
        SettledStep(keys[..], used[..], hash, h, last);
      }
    }

    /** Move the entry at j into the hole h; j becomes the hole. */
    method MoveBack(h: nat, j: nat)
      requires Linked(h)
      requires h < used.Length && !used[h]
      requires j < used.Length && used[j] && !Precedes(Home(hash, keys[j], used.Length), j, h, used.Length)
      modifies keys, used, vals, this`pos
      ensures Linked(j)
      ensures !used[j] && forall s :: 0 <= s < used.Length && s != h && s != j ==> used[s] == old(used[s])
      ensures pos == old(pos)[old(keys[j]) := h]
      ensures Contents() == old(Contents())
    {
      MoveBackKeeps(keys[..], used[..], hash, pos, h, j);
      ghost var was := Contents();
      keys[h] := keys[j];
      vals[h] := vals[j];
      used[h] := true;
      pos := pos[keys[j] := h];
      used[j] := false;
      assert keys[..] == old(keys[..])[h := old(keys[j])];
      assert used[..] == old(used[..])[h := true][j := false];
    }

    /** A hole on the way of closing the gap at i: free slot ahead, nothing moved forward. */
    ghost predicate Shifting(i: nat, h: nat, free: nat, was: map<nat, nat>, contents: map<nat, V>)
      reads this, keys, used, vals
    {
      && Linked(h)
      && i < used.Length && h < used.Length && free < used.Length
      && !used[h] && !used[free] && Precedes(i, h, free, used.Length)
      && MovedBackOnly(i, pos, was, used.Length)
      && Contents() == contents
    }

    /** Fill the hole at h from further along its run, if anything there may move. */
    method ShiftOnce(i: nat, h: nat, ghost free: nat, ghost was: map<nat, nat>, ghost contents: map<nat, V>)
      returns (next: Option<nat>)
      requires Shifting(i, h, free, was, contents)
      modifies keys, used, vals, this`pos
      ensures Shaped() && Placed(keys[..], used[..], pos)
      ensures next == None ==>
        Linked(used.Length) && MovedBackOnly(i, pos, was, used.Length) && Contents() == contents
      ensures next.Some? ==>
        && Shifting(i, next.value, free, was, contents)
        && Dist(next.value, free, used.Length) < Dist(h, free, used.Length)
    {
      next := FindFiller(h, free);
      if next.Some? {
        BackStep(i, h, next.value, free, keys[next.value], pos, was, used.Length);
        MoveBack(h, next.value);
      }
    }

    /** Shift entries back over the hole at i until the end of its run. Entries move, if at all,
        only backwards on the way from i. */
    method ShiftRun(i: nat, ghost free: nat)
      requires Linked(i) && i < used.Length && free < used.Length && free != i && !used[i] && !used[free]
      modifies keys, used, vals, this`pos
      ensures Linked(used.Length)
      ensures Contents() == old(Contents())
      ensures MovedBackOnly(i, pos, old(pos), used.Length)
    {
      var h := Some(i);
      ghost var was, contents := pos, Contents();
      while h.Some?
        invariant h.Some? ==> Shifting(i, h.value, free, was, contents)
        invariant h == None ==>
          Linked(used.Length) && MovedBackOnly(i, pos, was, used.Length) && Contents() == contents
        decreases h.Some?,
                  if h.Some? && Shifting(i, h.value, free, was, contents) then Dist(h.value, free, used.Length) else 0
      {
        h := ShiftOnce(i, h.value, free, was, contents);
      }
    }

    /** Clear slot i and close the gap. The entry at i is gone; every other entry keeps its value
        and moves, if at all, only backwards on the way from i. */
    method EraseAt(i: nat)
      requires Linked(used.Length) && |pos| < used.Length
      requires i < used.Length && used[i]
      modifies keys, used, vals, this`pos
      ensures Linked(used.Length)
      ensures Contents() == old(Contents()) - {old(keys[i])}
      ensures MovedBackOnly(i, pos, old(pos), used.Length)
    {
      ghost var free := SomeSlotFree(keys[..], used[..], pos);
      OpenHoleKeeps(keys[..], used[..], hash, pos, i);
      used[i] := false;
      pos := pos - {keys[i]};
      assert used[..] == old(used[..])[i := false];
      ShiftRun(i, free);
    }

    /** The walk every lookup makes, from the key's home to the key or to the first free slot. */
    method Probe(key: nat) returns (i: nat)
      requires Valid() && used.Length > 0
      ensures i < used.Length
      ensures ProbeClear(keys[..], used[..], Home(hash, key, used.Length), key, i)
      ensures if key in pos then i == pos[key] else !used[i]
    {
      ghost var free := SomeSlotFree(keys[..], used[..], pos);
      i := Home(hash, key, used.Length);
      while used[i]
        invariant i < used.Length
        invariant ProbeClear(keys[..], used[..], Home(hash, key, used.Length), key, i)
        invariant Dist(Home(hash, key, used.Length), i, used.Length)
                  <= Dist(Home(hash, key, used.Length), free, used.Length)
        decreases Dist(i, free, used.Length)
      {
        if keys[i] == key {
          return;
        }
        ProbeStep(keys[..], used[..], Home(hash, key, used.Length), key, i);
        i := Next(i, used.Length);
      }
      ProbeComplete(keys[..], used[..], hash, pos, key, i);
    }

    /** The slot of a key, if it is in the table. */
    method Find(key: nat) returns (slot: Option<nat>)
      requires Valid()
      ensures slot == if key in pos then Some(pos[key]) else None
    {
      if used.Length == 0 {
        return None;
      }
      var i := Probe(key);
      slot := if used[i] then Some(i) else None;
    }

    /** Write a value through the slot a lookup returned. */
    method Assign(i: nat, value: V)
      requires Valid() && i < used.Length && used[i]
      modifies vals
      ensures Valid()
      ensures Contents() == old(Contents())[keys[i] := value]
    {
      vals[i] := value;
    }

    /** Put a new entry into the free slot its probe ended on. */
    method Fill(i: nat, key: nat, value: V)
      requires Valid() && i < used.Length && !used[i] && key !in pos && size < maxEntries
      requires ProbeClear(keys[..], used[..], Home(hash, key, used.Length), key, i)
      modifies keys, used, vals, this`pos, this`size
      ensures Valid() && pos == old(pos)[key := i]
      ensures Contents() == old(Contents())[key := value]
    {
      InsertKeeps(keys[..], used[..], hash, pos, key, i);
      StoredFill(vals[..], pos, key, i, value);
      keys[i] := key;
      vals[i] := value;
      used[i] := true;
      size := size + 1;
      pos := pos[key := i];
      assert keys[..] == old(keys[..])[i := key];
      assert used[..] == old(used[..])[i := true];
      assert vals[..] == old(vals[..])[i := value];
    }

    /** Add an entry, or find the one already there. None when the table is at capacity and the
        key is new. */
    method Insert(key: nat, value: V) returns (slot: Option<nat>)
      requires Valid()
      modifies keys, used, vals, this`pos, this`size
      ensures Valid()
      ensures Contents() == Inserted(old(Contents()), Room(), key, value)
      ensures key in old(Contents()) || |old(Contents())| >= Room() ==> Contents() == old(Contents())
      ensures key !in old(Contents()) && |old(Contents())| < Room() ==> Contents() == old(Contents())[key := value]
      ensures slot == if key in pos then Some(pos[key]) else None
    {
      if used.Length == 0 {
        return None;
      }
      var i := Probe(key);
      if used[i] {
        return Some(i);
      }
      if size >= maxEntries {
        return None;
      }
      Fill(i, key, value);
      return Some(i);
    }

    /** Erase the entry at a used slot and count it. */
    method ErasePlaced(i: nat)
      requires Valid() && i < used.Length && used[i]
      modifies keys, used, vals, this`pos, this`size
      ensures Valid() && size == old(size) - 1
      ensures Contents() == old(Contents()) - {old(keys[i])}
      ensures MovedBackOnly(i, pos, old(pos), used.Length)
    {
      ghost var was, key := pos, keys[i];
      EraseAt(i);
      assert pos.Keys == Contents().Keys == was.Keys - {key};
      assert |pos.Keys| == |was.Keys| - 1;
      size := size - 1;
    }

    /** Remove an entry, if it is there. */
    method Erase(key: nat) returns (erased: bool)
      requires Valid()
      modifies keys, used, vals, this`pos, this`size
      ensures Valid()
      ensures Contents() == old(Contents()) - {key}
      ensures erased == (key in old(pos))
    {
      if used.Length == 0 {
        return false;
      }
      var i := Probe(key);
      if used[i] {
        ErasePlaced(i);
        return true;
      }
      return false;
    }

    /** One test of the scan: erase the entry at slot i if it satisfies `pred`, or pass over it. */
    method SweepSlot(i: nat, pred: (nat, V) -> bool, order: seq<nat>, ghost before: map<nat, V>)
      returns (next: nat, listed: seq<nat>)
      requires Valid() && i < used.Length && Swept(before, Contents(), pos, pred, i, order)
      modifies keys, used, vals, this`pos, this`size
      ensures Valid() && next <= used.Length && Swept(before, Contents(), pos, pred, next, listed)
      ensures used.Length - next + size < used.Length - i + old(size)
      ensures |listed| + size == |order| + old(size)
    {
      if used[i] && pred(keys[i], vals[i]) {
        ghost var was, held := pos, Contents();
        var key := keys[i];
        ErasePlaced(i);
        assert pos.Keys == Contents().Keys;
        SweptErase(before, held, was, pos, pred, i, order, key, used.Length);
        return i, order + [key];
      }
      SweptSkip(before, Contents(), pos, pred, i, order);
      return i + 1, order;
    }

    /** Erase every entry that satisfies `pred`, in one pass; `order` lists them as erased. A slot
        just vacated is tested again, since the shift may have refilled it. */
    method EraseIf(pred: (nat, V) -> bool) returns (removed: nat, order: seq<nat>)
      requires Valid()
      modifies keys, used, vals, this`pos, this`size
      ensures Valid()
      ensures Contents() == Without(old(Contents()), pred)
      ensures Enumerates(order, old(Contents()).Keys - Contents().Keys)
      ensures removed == |order| == |old(Contents())| - |Contents()|
    {
      order := [];
      ghost var before := Contents();
      var i: nat := 0;
      while i < used.Length
        invariant Valid() && i <= used.Length
        invariant Swept(before, Contents(), pos, pred, i, order) && |order| + size == old(size)
        decreases used.Length - i + size
      {
        i, order := SweepSlot(i, pred, order, before);
      }
      SweptAll(before, Contents(), pos, pred, i, order);
      assert |before.Keys| == old(size) && |Contents().Keys| == size;
      removed := |order|;
    }

    /** Every live key, in slot order. */
    method Keys() returns (order: seq<nat>)
      requires Valid()
      ensures Enumerates(order, Contents().Keys)
    {
      order := [];
      var i: nat := 0;
      while i < used.Length
        invariant i <= used.Length
        invariant forall k :: k in order <==> k in pos && pos[k] < i
        invariant forall a, b :: 0 <= a < b < |order| ==> order[a] != order[b]
      {
        if used[i] {
          order := order + [keys[i]];
        }
        i := i + 1;
      }
    }

    /** Forget all entries; the arrays stay. */
    method Clear()
      requires Valid()
      modifies used, this`pos, this`size
      ensures Valid() && Contents() == map[]
    {
      forall i | 0 <= i < used.Length {
        used[i] := false;
      }
      size := 0;
      pos := map[];
    }

    /** A table not yet sized: it holds nothing and accepts nothing. */
    constructor (hash: nat -> nat)
      ensures Valid() && Contents() == map[] && Room() == 0 && this.hash == hash
      ensures fresh(Slots())
    {
      this.hash := hash;
      keys, used, vals := new nat[0], new bool[0], new V[0];
      size, maxEntries, pos := 0, 0, map[];
    }

    /** Size the table for at least one entry, never to be more than half full, and empty it. */
    method Reset(entries: nat)
      modifies this
      ensures Valid() && Contents() == map[]
      ensures Room() == if entries == 0 then 1 else entries
      ensures IsPow2(used.Length) && 2 * Room() <= used.Length < 4 * Room()
      ensures fresh(Slots())
    {
      maxEntries := if entries == 0 then 1 else entries;
      var cap := NextPow2(2 * maxEntries);
      keys, used, vals := new nat[cap](i => 0), new bool[cap](i => false), new V[cap];
      size, pos := 0, map[];
    }

    /** How many entries the table may hold: none at all before it is sized. */
    ghost function Room(): nat
      reads this
    {
      if used.Length == 0 then 0 else maxEntries
    }
  }

  // ---- Any run of operations ----------------------------------------------

  datatype Op<!V> =
    | Reset(entries: nat)
    | Insert(key: nat, value: V)
    | Find(key: nat)
    | Erase(key: nat)
    | EraseIf(pred: (nat, V) -> bool)
    | Clear

  datatype Answer<V> = Nothing | Held(value: Option<V>) | Erased(yes: bool) | Removed(count: nat)

  /** A capped finite map, and how many entries it may hold. */
  datatype Capped<V> = Capped(entries: map<nat, V>, room: nat)

  ghost function Lookup<V>(m: map<nat, V>, key: nat): Option<V> {
    if key in m then Some(m[key]) else None
  }

  /** What each operation does to a capped finite map. */
  ghost function Apply<V>(c: Capped<V>, op: Op<V>): (Capped<V>, Answer<V>) {
    match op
    case Reset(n) => (Capped(map[], if n == 0 then 1 else n), Nothing)
    case Insert(k, v) =>
      var m := Inserted(c.entries, c.room, k, v);
      (c.(entries := m), Held(Lookup(m, k)))
    case Find(k) => (c, Held(Lookup(c.entries, k)))
    case Erase(k) => (c.(entries := c.entries - {k}), Erased(k in c.entries))
    case EraseIf(p) =>
      var m := Without(c.entries, p);
      (c.(entries := m), Removed(|c.entries| - |m|))
    case Clear => (c.(entries := map[]), Nothing)
  }

  ghost function Answers<V>(c: Capped<V>, ops: seq<Op<V>>): seq<Answer<V>>
    decreases |ops|
  {
    if ops == [] then [] else [Apply(c, ops[0]).1] + Answers(Apply(c, ops[0]).0, ops[1..])
  }

  /** What a lookup's slot holds, as its caller reads it. */
  method Read<V(0)>(t: OpenMap<V>, key: nat, slot: Option<nat>) returns (answer: Answer<V>)
    requires t.Valid() && slot == if key in t.pos then Some(t.pos[key]) else None
    ensures answer == Held(Lookup(t.Contents(), key))
  {
    answer := Held(if slot == None then None else Some(t.vals[slot.value]));
  }

  /** The table as a capped finite map. */
  ghost function View<V(0)>(t: OpenMap<V>): Capped<V>
    reads t, t.keys, t.used, t.vals
    requires t.Valid()
  {
    Capped(t.Contents(), t.Room())
  }

  method PerformErase<V(0)>(t: OpenMap<V>, op: Op<V>) returns (answer: Answer<V>)
    requires t.Valid() && op.Erase?
    modifies t, t.Slots()
    ensures t.Valid() && t.Slots() == old(t.Slots())
    ensures View(t) == Apply(old(View(t)), op).0
    ensures answer == Apply(old(View(t)), op).1
  {
    ghost var c := View(t);
    var yes := t.Erase(op.key);
    assert yes == (op.key in c.entries);
    answer := Erased(yes);
  }

  /** The two operations that can lose many entries. */
  method PerformPurge<V(0)>(t: OpenMap<V>, op: Op<V>) returns (answer: Answer<V>)
    requires t.Valid() && (op.EraseIf? || op.Clear?)
    modifies t, t.Slots()
    ensures t.Valid() && t.Slots() == old(t.Slots())
    ensures View(t) == Apply(old(View(t)), op).0
    ensures answer == Apply(old(View(t)), op).1
  {
    ghost var c := View(t);
    match op
    case EraseIf(p) =>
      var n, _ := t.EraseIf(p);
      answer := Removed(n);
      assert Apply(c, op) == (View(t), answer);
    case Clear =>
      t.Clear();
      answer := Nothing;
      assert Apply(c, op) == (View(t), answer);
  }

  /** Carry out one operation on the table and report what its caller sees. */
  method Perform<V(0)>(t: OpenMap<V>, op: Op<V>) returns (answer: Answer<V>)
    requires t.Valid()
    modifies t, t.Slots()
    ensures t.Valid() && fresh(t.Slots() - old(t.Slots()))
    ensures View(t) == Apply(old(View(t)), op).0
    ensures answer == Apply(old(View(t)), op).1
  {
    ghost var c := View(t);
    match op
    case Reset(n) =>
      t.Reset(n);
      answer := Nothing;
      assert Apply(c, op) == (View(t), answer);
    case Insert(k, v) =>
      var slot := t.Insert(k, v);
      answer := Read(t, k, slot);
      assert Apply(c, op) == (View(t), answer);
    case Find(k) =>
      var slot := t.Find(k);
      answer := Read(t, k, slot);
      assert Apply(c, op) == (View(t), answer);
    case Erase(k) =>
      answer := PerformErase(t, op);
    case _ =>
      answer := PerformPurge(t, op);
  }

  /** For every hash and every sequence of operations, the table answers as a capped finite map. */
  method Run<V(0)>(hash: nat -> nat, ops: seq<Op<V>>) returns (answers: seq<Answer<V>>)
    ensures answers == Answers(Capped(map[], 0), ops)
  {
    var t := new OpenMap<V>(hash);
    answers := [];
    ghost var c := View(t);
    for n := 0 to |ops|
      invariant t.Valid() && View(t) == c && fresh(t) && fresh(t.Slots())
      invariant Answers(Capped(map[], 0), ops) == answers + Answers(c, ops[n..])
    {
      var answer := Perform(t, ops[n]);
      AnswersNext(c, ops, n, answers);
      c := Apply(c, ops[n]).0;
      answers := answers + [answer];
    }
    assert ops[|ops|..] == [];
  }

  /** What has been answered, and what is still to be, as one operation is carried out. */
  lemma AnswersNext<V>(c: Capped<V>, ops: seq<Op<V>>, n: nat, answers: seq<Answer<V>>)
    requires n < |ops|
    ensures var (c', answer) := Apply(c, ops[n]);
      answers + Answers(c, ops[n..]) == (answers + [answer]) + Answers(c', ops[n + 1..])
  {
    AnswersStep(c, ops[n..]);
    assert ops[n..][1..] == ops[n + 1..] && ops[n..][0] == ops[n];
    var (c', answer) := Apply(c, ops[n]);
    Reassociate(answers, [answer], Answers(c', ops[n + 1..]));
  }

  lemma Reassociate<T>(a: seq<T>, b: seq<T>, c: seq<T>)
    ensures a + (b + c) == (a + b) + c
  {
  }

  lemma AnswersStep<V>(c: Capped<V>, ops: seq<Op<V>>)
    requires ops != []
    ensures Answers(c, ops) == [Apply(c, ops[0]).1] + Answers(Apply(c, ops[0]).0, ops[1..])
  {
  }
}
