/** When a restarted local session may take back the ring table of an ended one: other modules may still be
    stamping into it. */
module RetiredTables {
  import opened Options

  /** How many other modules a session can remember. */
  const MAX_MODULES: nat := 8

  /** A session: the geometry of its rings, where they are, the modules noted as stamping into it, and
      whether there were more than it could note. `holds` says its retired entry still owns the table. */
  datatype Session = Session(rings: nat, capacity: nat, local: bool, table: Option<nat>, holds: bool,
                             modules: seq<Option<nat>>, full: bool)

  /** `retired` lists the ended sessions kept, in the order they ended; `hot` is what each module's hot path
      names, module 0 being the host's own. `newest` is the last session each module attached to, and
      `strayed` whether that one had already given its table up when the module attached. */
  datatype State = State(sessions: seq<Session>, retired: seq<nat>, live: Option<nat>, hot: seq<Option<nat>>,
                         newest: seq<Option<nat>>, strayed: seq<bool>, tables: nat)

  ghost predicate Shaped(st: State) {
    && |st.hot| == |st.newest| == |st.strayed| > 0
    && (forall j :: 0 <= j < |st.sessions| ==> |st.sessions[j].modules| == MAX_MODULES)
    && (forall a :: 0 <= a < |st.retired| ==> st.retired[a] < |st.sessions|)
    && (forall a, b :: 0 <= a < b < |st.retired| ==> st.retired[a] < st.retired[b])
    && (st.live.Some? ==> st.live.value < |st.sessions|)
    && (st.live.Some? ==> forall a :: 0 <= a < |st.retired| ==> st.retired[a] < st.live.value)
    && (forall m :: 0 <= m < |st.hot| && st.hot[m].Some? ==> st.hot[m].value < |st.sessions|)
  }

  /** Module m is on the session's list, or the list has overflowed. */
  predicate Noted(s: Session, m: nat) {
    Some(m) in s.modules || s.full
  }

  /** The session has ended, and its entry has given its table up to a later one. */
  predicate GaveUp(st: State, j: nat)
    requires j < |st.sessions|
  {
    st.sessions[j].table.Some? && st.live != Some(j) && !st.sessions[j].holds
  }

  /** What module m stamps into: a session that knows of it, and that has its table unless it had given it
      up before the module came. */
  ghost predicate HotOk(st: State, m: nat)
    requires Shaped(st) && m < |st.hot|
  {
    if st.hot[m] == None then !st.strayed[m]
    else
      var j := st.hot[m].value;
      && st.newest[m] == Some(j)
      && (if m == 0 then st.live == Some(j) else Noted(st.sessions[j], m))
      && (st.strayed[m] <==> GaveUp(st, j))
  }

  ghost predicate NotesOk(st: State, j: nat)
    requires Shaped(st) && j < |st.sessions|
  {
    && (forall m :: Some(m) in st.sessions[j].modules ==>
          m < |st.newest| && st.newest[m].Some? && j <= st.newest[m].value)
    && (st.sessions[j].table.Some? ==> st.sessions[j].table.value < st.tables)
    && (st.sessions[j].holds ==> st.sessions[j].table.Some? && st.live != Some(j))
  }

  predicate Owns(st: State, j: nat)
    requires j < |st.sessions|
  {
    st.sessions[j].table.Some? && (st.live == Some(j) || st.sessions[j].holds)
  }

  /** No table has two owners. */
  ghost predicate OwnersApart(st: State) {
    forall j, k :: 0 <= j < k < |st.sessions| && Owns(st, j) && Owns(st, k) ==>
      st.sessions[j].table != st.sessions[k].table
  }

  /** The sessions that have had a table are local ones with the same rings: the table was made for them. */
  ghost predicate OneGeometry(st: State) {
    forall j :: 0 <= j < |st.sessions| && st.sessions[j].table.Some? ==> AllLike(st.sessions, st.sessions[j])
  }

  /** Whoever shares this session's table has its geometry. */
  ghost predicate AllLike(sessions: seq<Session>, s: Session) {
    && s.local && s.rings > 0
    && forall k :: 0 <= k < |sessions| && sessions[k].table == s.table ==>
         sessions[k].rings == s.rings && sessions[k].capacity == s.capacity
  }

  ghost predicate Inv(st: State) {
    && Shaped(st) && OwnersApart(st) && OneGeometry(st)
    && (forall m :: 0 <= m < |st.hot| ==> HotOk(st, m))
    && (forall j :: 0 <= j < |st.sessions| ==> NotesOk(st, j))
  }

  /** Every module noted in the retired session at `a` is noted in one that ended later. */
  ghost predicate MovedOn(st: State, a: nat)
    requires Shaped(st) && a < |st.retired|
  {
    && !st.sessions[st.retired[a]].full
    && forall m :: Some(m) in st.sessions[st.retired[a]].modules ==> SeenLater(st, a, m)
  }

  ghost predicate SeenLater(st: State, a: nat, m: nat)
    requires Shaped(st)
  {
    exists b :: a < b < |st.retired| && Some(m) in st.sessions[st.retired[b]].modules
  }

  /** Module m's threads publish into this table on their next stamp. */
  ghost predicate CanPublish(st: State, m: nat, table: Option<nat>)
    requires Shaped(st) && m < |st.hot|
  {
    st.hot[m].Some? && table.Some? && st.sessions[st.hot[m].value].table == table
  }

  /** Module m came to a session that had already given this table up. */
  ghost predicate StrayedInto(st: State, m: nat, table: Option<nat>)
    requires Shaped(st) && m < |st.hot|
  {
    st.strayed[m] && CanPublish(st, m, table)
  }

  /** Whoever can publish into a table that may be taken back came too late to the session that gave it up
      before: everybody who was there in time has moved on. */
  lemma MovedOnIsSafe(st: State, a: nat, m: nat)
    requires Inv(st) && st.live == None && a < |st.retired| && m < |st.hot|
    requires st.sessions[st.retired[a]].holds && MovedOn(st, a)
    ensures st.hot[m] != Some(st.retired[a])
    ensures var table := st.sessions[st.retired[a]].table;
      CanPublish(st, m, table) <==> StrayedInto(st, m, table)
  {
    var i := st.retired[a];
    assert HotOk(st, m) && NotesOk(st, i);
    if Some(m) in st.sessions[i].modules {
      LaterIsNewer(st, a, m);
    }
    if st.hot[m].Some? && !st.strayed[m] {
      assert Owns(st, i) && (st.sessions[st.hot[m].value].table.Some? ==> Owns(st, st.hot[m].value));
    }
  }

  /** A table taken back is safe from all other modules exactly when none came too late to a session that
      had given it up. */
  lemma SafeUnlessStrayed(st: State, a: nat)
    requires Inv(st) && st.live == None && a < |st.retired| && st.sessions[st.retired[a]].holds && MovedOn(st, a)
    ensures var table := st.sessions[st.retired[a]].table;
      (forall m :: 0 <= m < |st.hot| ==> !CanPublish(st, m, table))
      <==> (forall m :: 0 <= m < |st.hot| ==> !StrayedInto(st, m, table))
  {
    forall m | 0 <= m < |st.hot|
      ensures var table := st.sessions[st.retired[a]].table;
        CanPublish(st, m, table) <==> StrayedInto(st, m, table)
    {
      MovedOnIsSafe(st, a, m);
    }
  }

  lemma LaterIsNewer(st: State, a: nat, m: nat)
    requires Inv(st) && a < |st.retired| && SeenLater(st, a, m)
    ensures m < |st.newest| && st.newest[m].Some? && st.retired[a] < st.newest[m].value
  {
    var b :| a < b < |st.retired| && Some(m) in st.sessions[st.retired[b]].modules;
    assert NotesOk(st, st.retired[b]);
  }

  /** With more modules stamping than it can note, a session is marked full, and its table never moves on. */
  lemma {:induction false} TooManyIsFull(st: State, a: nat, modules: set<nat>)
    requires Shaped(st) && a < |st.retired| && |modules| > MAX_MODULES
    requires forall m :: m in modules ==> Noted(st.sessions[st.retired[a]], m)
    ensures !MovedOn(st, a)
  {
    var s := st.sessions[st.retired[a]];
    if !s.full {
      FewNoted(s.modules, modules);
    }
  }

  lemma {:induction false} FewNoted(slots: seq<Option<nat>>, modules: set<nat>)
    requires forall m :: m in modules ==> Some(m) in slots
    ensures |modules| <= |slots|
  {
    if slots == [] {
      assert modules == {};
    } else {
      var rest, last := slots[..|slots| - 1], slots[|slots| - 1];
      assert slots == rest + [last];
      var others := if last.Some? then modules - {last.value} else modules;
      FewNoted(rest, others);
    }
  }

  /** What noting module m may change of a session: its list, which then has m or is full. */
  ghost predicate NotedAs(s: Session, s': Session, m: nat) {
    && s' == s.(modules := s'.modules, full := s'.full) && |s'.modules| == |s.modules|
    && (if m == 0 then s' == s else Noted(s', m))
    && (forall x :: Some(x) in s'.modules ==> x == m || Some(x) in s.modules)
    && (forall x :: Noted(s, x) ==> Noted(s', x))
  }

  /** Sessions that differ in nothing that matters to it keep one geometry to a table. */
  lemma GeometryKept(st: State, st': State)
    requires OneGeometry(st) && |st'.sessions| == |st.sessions|
    requires forall j :: 0 <= j < |st.sessions| ==>
      st'.sessions[j].(modules := [], full := false, holds := false)
      == st.sessions[j].(modules := [], full := false, holds := false)
    ensures OneGeometry(st')
  {
    forall j | 0 <= j < |st'.sessions| && st'.sessions[j].table.Some?
      ensures AllLike(st'.sessions, st'.sessions[j])
    {
      assert AllLike(st.sessions, st.sessions[j]);
      forall k | 0 <= k < |st'.sessions| && st'.sessions[k].table == st'.sessions[j].table
        ensures st'.sessions[k].rings == st'.sessions[j].rings && st'.sessions[k].capacity == st'.sessions[j].capacity
      {
        assert st.sessions[k].table == st.sessions[j].table;
      }
    }
  }

  lemma OwnersStay(st: State, st': State)
    requires OwnersApart(st) && |st'.sessions| == |st.sessions|
    requires forall j :: 0 <= j < |st.sessions| && Owns(st', j) ==>
      Owns(st, j) && st'.sessions[j].table == st.sessions[j].table
    ensures OwnersApart(st')
  {
  }

  /** Module m is pointed at a session, or away from all. */
  ghost predicate Attaches(st: State, st': State, m: nat, to: Option<nat>)
    requires Shaped(st)
  {
    && m < |st.hot|
    && (to == None ==> m > 0 && st' == st.(hot := st.hot[m := None], strayed := st.strayed[m := false]))
    && (to.Some? ==>
          && to.value < |st.sessions| == |st'.sessions| && (m == 0 ==> st.live == to && st.newest[m] == to)
          && (st.newest[m].Some? ==> st.newest[m].value <= to.value)
          && NotedAs(st.sessions[to.value], st'.sessions[to.value], m)
          && st' == st.(sessions := st.sessions[to.value := st'.sessions[to.value]], hot := st.hot[m := to],
                        newest := st.newest[m := to], strayed := st.strayed[m := GaveUp(st, to.value)]))
  }

  /** Pointing module m at session j, or away, keeps everything in order. */
  lemma AttachKeeps(st: State, st': State, m: nat, to: Option<nat>)
    requires Inv(st) && Attaches(st, st', m, to)
    ensures Inv(st')
  {
    GeometryKept(st, st');
    OwnersStay(st, st');
    forall j | 0 <= j < |st'.sessions|
      ensures NotesOk(st', j)
    {
      AttachedNotes(st, st', m, to, j);
    }
    forall n | 0 <= n < |st'.hot|
      ensures HotOk(st', n)
    {
      AttachedHot(st, st', m, to, n);
    }
  }

  lemma AttachedNotes(st: State, st': State, m: nat, to: Option<nat>, j: nat)
    requires Inv(st) && Attaches(st, st', m, to) && Shaped(st') && j < |st.sessions|
    ensures NotesOk(st', j)
  {
    assert NotesOk(st, j);
  }

  lemma AttachedHot(st: State, st': State, m: nat, to: Option<nat>, n: nat)
    requires Inv(st) && Attaches(st, st', m, to) && Shaped(st') && n < |st.hot|
    ensures HotOk(st', n)
  {
    assert HotOk(st, n);
  }

  /** Module m can publish into the table exactly if it strayed into a session that gave it up. */
  ghost predicate OnlyStrayed(st: State, m: nat, table: Option<nat>)
    requires Shaped(st) && m < |st.hot|
  {
    CanPublish(st, m, table) <==> StrayedInto(st, m, table)
  }

  lemma StrayedStill(st: State, st': State, m: nat, table: Option<nat>)
    requires Inv(st) && Shaped(st') && m < |st.hot| == |st'.hot| && OnlyStrayed(st, m, table)
    requires st'.hot[m] == st.hot[m] && st'.strayed[m] == st.strayed[m] && st.sessions <= st'.sessions
    ensures OnlyStrayed(st', m, table)
  {
    assert HotOk(st, m);
  }

  /** A retired entry gives its table up: nobody is left in its session. */
  lemma HandOverKeeps(st: State, a: nat)
    requires Inv(st) && st.live == None && a < |st.retired| && st.sessions[st.retired[a]].holds && MovedOn(st, a)
    ensures var i := st.retired[a];
      var st' := st.(sessions := st.sessions[i := st.sessions[i].(holds := false)]);
      && Inv(st')
      && (forall m :: 0 <= m < |st.hot| ==> OnlyStrayed(st', m, st.sessions[i].table))
      && (forall j :: 0 <= j < |st.sessions| && Owns(st', j) ==> st'.sessions[j].table != st.sessions[i].table)
      && AllLike(st'.sessions, st.sessions[i])
  {
    var i := st.retired[a];
    var st' := st.(sessions := st.sessions[i := st.sessions[i].(holds := false)]);
    GeometryKept(st, st');
    assert NotesOk(st, i) && AllLike(st'.sessions, st'.sessions[i]);
    forall m | 0 <= m < |st.hot|
      ensures HotOk(st', m) && OnlyStrayed(st', m, st.sessions[i].table)
    {
      assert HotOk(st, m);
      MovedOnIsSafe(st, a, m);
    }
    forall j | 0 <= j < |st'.sessions|
      ensures NotesOk(st', j) && (Owns(st', j) ==> Owns(st, j) && j != i)
    {
      assert NotesOk(st, j);
    }
    assert Owns(st, i);
  }

  /** A new session over a table nobody owns or can publish into, or over none. */
  lemma StartKeeps(st: State, s: Session)
    requires Inv(st) && st.live == None && !s.holds && !s.full && s.modules == NobodyNoted()
    requires s.table.Some? ==>
      && s.table.value < st.tables && AllLike(st.sessions, s)
      && forall j :: 0 <= j < |st.sessions| && Owns(st, j) ==> st.sessions[j].table != s.table
    ensures var id := |st.sessions|;
      Inv(st.(sessions := st.sessions + [s], live := Some(id), hot := st.hot[0 := Some(id)],
              newest := st.newest[0 := Some(id)]))
  {
    var id := |st.sessions|;
    var st' := st.(sessions := st.sessions + [s], live := Some(id), hot := st.hot[0 := Some(id)],
                   newest := st.newest[0 := Some(id)]);
    GeometryGrows(st, s);
    forall m | 0 <= m < |st'.hot|
      ensures HotOk(st', m)
    {
      assert HotOk(st, m);
    }
    forall j | 0 <= j < |st'.sessions|
      ensures NotesOk(st', j) && (j < id && Owns(st', j) ==> Owns(st, j))
    {
      assert j < id ==> NotesOk(st, j);
    }
  }

  lemma GeometryGrows(st: State, s: Session)
    requires OneGeometry(st) && (s.table.Some? ==> AllLike(st.sessions, s))
    ensures OneGeometry(st.(sessions := st.sessions + [s]))
  {
    forall j | 0 <= j <= |st.sessions| && (st.sessions + [s])[j].table.Some?
      ensures AllLike(st.sessions + [s], (st.sessions + [s])[j])
    {
      if j < |st.sessions| {
        assert AllLike(st.sessions, st.sessions[j]);
      }
    }
  }

  function NobodyNoted(): seq<Option<nat>> {
    seq(MAX_MODULES, _ => None)
  }

  /** Nothing lies in a table not allocated yet. */
  lemma NewTableKeeps(st: State)
    requires Inv(st)
    ensures Inv(st.(tables := st.tables + 1))
    ensures forall j :: 0 <= j < |st.sessions| ==> st.sessions[j].table != Some(st.tables)
  {
    var st' := st.(tables := st.tables + 1);
    forall j | 0 <= j < |st.sessions|
      ensures NotesOk(st', j) && st.sessions[j].table != Some(st.tables) && Owns(st', j) == Owns(st, j)
    {
      assert NotesOk(st, j);
    }
    forall m | 0 <= m < |st.hot|
      ensures HotOk(st', m)
    {
      assert HotOk(st, m);
    }
  }

  lemma ShutdownKeeps(st: State)
    requires Inv(st) && st.live.Some?
    ensures var i := st.live.value;
      Inv(st.(hot := st.hot[0 := None], retired := st.retired + [i], live := None,
              sessions := st.sessions[i := st.sessions[i].(holds := st.sessions[i].table.Some?)]))
  {
    var i := st.live.value;
    var st' := st.(hot := st.hot[0 := None], retired := st.retired + [i], live := None,
                   sessions := st.sessions[i := st.sessions[i].(holds := st.sessions[i].table.Some?)]);
    GeometryKept(st, st');
    forall m | 0 <= m < |st'.hot|
      ensures HotOk(st', m)
    {
      assert HotOk(st, m);
    }
    forall j | 0 <= j < |st'.sessions|
      ensures NotesOk(st', j) && (Owns(st', j) ==> Owns(st, j))
    {
      assert NotesOk(st, j);
    }
  }

  class Host {
    var sessions: seq<Session>
    var retired: seq<nat>
    var live: Option<nat>
    var hot: seq<Option<nat>>
    var tables: nat

    ghost var newest: seq<Option<nat>>
    ghost var strayed: seq<bool>

    ghost function View(): State
      reads this
    {
      State(sessions, retired, live, hot, newest, strayed, tables)
    }

    constructor (modules: nat)
      requires modules > 0
      ensures Inv(View()) && live == None && retired == [] && sessions == [] && tables == 0
      ensures hot == newest == seq(modules, _ => None) && strayed == seq(modules, _ => false)
    {
      sessions, retired, live, tables := [], [], None, 0;
      hot := seq(modules, _ => None);
      newest := seq(modules, _ => None);
      strayed := seq(modules, _ => false);
    }

    /** Whether a module is on a session's list. */
    method HasModule(j: nat, m: nat) returns (found: bool)
      requires j < |sessions|
      ensures found == (Some(m) in sessions[j].modules)
    {
      var modules := sessions[j].modules;
      for k := 0 to |modules|
        invariant Some(m) !in modules[..k]
      {
        if modules[k] == Some(m) {
          return true;
        }
      }
      return false;
    }

    /** Put a module on a session's list, unless it is the one that made the session. */
    method NoteModule(j: nat, m: nat)
      requires Shaped(View()) && j < |sessions|
      modifies this`sessions
      ensures Shaped(View()) && |sessions| == |old(sessions)|
      ensures sessions == old(sessions)[j := sessions[j]]
      ensures NotedAs(old(sessions[j]), sessions[j], m)
      ensures sessions[j].full && !old(sessions[j].full) ==> forall k :: 0 <= k < MAX_MODULES ==>
                sessions[j].modules[k].Some? && sessions[j].modules[k] != Some(m)
    {
      var known := HasModule(j, m);
      if m == 0 || known {
        return;
      }
      var s := sessions[j];
      for k := 0 to MAX_MODULES
        invariant forall i :: 0 <= i < k ==> s.modules[i].Some? && s.modules[i] != Some(m)
      {
        if s.modules[k] == None || s.modules[k] == Some(m) {
          var noted := s.modules[k := Some(m)];
          KeepsTheRest(s.modules, k, m);
          sessions := sessions[j := s.(modules := noted)];
          return;
        }
      }
      sessions := sessions[j := s.(full := true)];
    }

    /** Point a module's hot path at a session, or away from all. Modules move only to newer sessions, which
        may have ended and given their table up before the module comes. */
    method AttachModule(m: nat, to: Option<nat>)
      requires Inv(View()) && 0 < m < |hot|
      requires to.Some? ==>
        to.value < |sessions| && (newest[m].Some? ==> newest[m].value <= to.value)
      modifies this`sessions, this`hot, this`newest, this`strayed
      ensures Inv(View()) && hot == old(hot)[m := to] && |sessions| == |old(sessions)|
      ensures strayed == old(strayed)[m := to.Some? && old(GaveUp(View(), to.value))]
      ensures newest == if to.Some? then old(newest)[m := to] else old(newest)
      ensures forall j :: 0 <= j < |sessions| && to != Some(j) ==> sessions[j] == old(sessions[j])
      ensures to.Some? ==> NotedAs(old(sessions)[to.value], sessions[to.value], m)
      ensures to.Some? ==> Noted(sessions[to.value], m)
    {
      ghost var was := View();
      if to.Some? {
        NoteModule(to.value, m);
        newest := newest[m := to];
      }
      hot := hot[m := to];
      strayed := strayed[m := to.Some? && GaveUp(was, to.value)];
      AttachKeeps(was, View(), m, to);
    }

    /** A thread of module m stamps: it binds to the session its module names, which notes the module, and
        publishes into that session's table. */
    method Stamp(m: nat) returns (table: Option<nat>)
      requires Inv(View()) && m < |hot| && hot[m].Some?
      modifies this`sessions
      ensures Inv(View()) && sessions == old(sessions)[hot[m].value := sessions[hot[m].value]]
      ensures NotedAs(old(sessions)[hot[m].value], sessions[hot[m].value], m)
      ensures table == sessions[hot[m].value].table && (table.Some? ==> CanPublish(View(), m, table))
    {
      ghost var was := View();
      assert HotOk(was, m);
      NoteModule(hot[m].value, m);
      AttachKeeps(was, View(), m, hot[m]);
      table := sessions[hot[m].value].table;
    }

    /** Whether every other module that stamped into a retired session has since stamped into a later one. */
    method ModulesMovedOn(a: nat) returns (moved: bool)
      requires Shaped(View()) && a < |retired|
      ensures moved == MovedOn(View(), a)
    {
      var s := sessions[retired[a]];
      if s.full {
        return false;
      }
      for k := 0 to |s.modules|
        invariant forall i :: 0 <= i < k && s.modules[i].Some? ==> SeenLater(View(), a, s.modules[i].value)
      {
        if s.modules[k].Some? {
          var later := false;
          var b := a + 1;
          while b < |retired| && !later
            invariant a < b <= |retired|
            invariant later <==> exists c :: a < c < b && s.modules[k] in sessions[retired[c]].modules
          {
            later := HasModule(retired[b], s.modules[k].value);
            b := b + 1;
          }
          if !later {
            assert !SeenLater(View(), a, s.modules[k].value);
            return false;
          }
        }
      }
      return true;
    }

    /** The table of an ended local session of this geometry that everybody noted has moved on from. The
        first such there is; None only if there is none. */
    method TakeRetiredTable(rings: nat, capacity: nat) returns (table: Option<nat>)
      requires Inv(View()) && live == None
      modifies this`sessions
      ensures Inv(View()) && |sessions| == |old(sessions)|
      ensures table.Some? ==>
        && (forall m :: 0 <= m < |hot| ==> OnlyStrayed(View(), m, table))
        && (forall j :: 0 <= j < |sessions| && Owns(View(), j) ==> sessions[j].table != table)
        && table.value < tables && OfGeometry(sessions, table.value, rings, capacity)
        && exists a :: 0 <= a < |retired| && TakesOver(old(View()), a, rings, capacity, sessions, table.value)
      ensures table == None ==> sessions == old(sessions) && NoneReusable(old(View()), |retired|, rings, capacity)
    {
      for a := 0 to |retired|
        invariant sessions == old(sessions)
        invariant NoneReusable(View(), a, rings, capacity)
      {
        var r := sessions[retired[a]];
        if r.holds && r.local && r.rings == rings && r.capacity == capacity {
          var moved := ModulesMovedOn(a);
          if moved {
            table := r.table;
            assert NotesOk(View(), retired[a]);
            HandOverKeeps(View(), a);
            sessions := sessions[retired[a] := r.(holds := false)];
            assert TakesOver(old(View()), a, rings, capacity, sessions, table.value);
            return;
          }
        }
      }
      return None;
    }

    /** A table for a new local session: a retired one, or else a new one. */
    method ObtainTable(rings: nat, capacity: nat) returns (table: nat)
      requires Inv(View()) && live == None
      modifies this`sessions, this`tables
      ensures Inv(View()) && |sessions| == |old(sessions)| && table < tables
      ensures Obtained(old(View()), rings, capacity, sessions, table, tables)
      ensures forall m :: 0 <= m < |hot| ==> OnlyStrayed(View(), m, Some(table))
      ensures forall j :: 0 <= j < |sessions| && Owns(View(), j) ==> sessions[j].table != Some(table)
      ensures OfGeometry(sessions, table, rings, capacity)
    {
      var taken := TakeRetiredTable(rings, capacity);
      if taken.Some? {
        return taken.value;
      }
      NewTableKeeps(View());
      table := tables;
      tables := tables + 1;
    }

    /** Start a session: local ones with rings take a retired table or a new one. */
    method Start(rings: nat, capacity: nat, local: bool)
      requires Inv(View()) && live == None
      modifies this
      ensures Inv(View()) && live == Some(|old(sessions)|) && |sessions| == |old(sessions)| + 1
      ensures retired == old(retired) && newest == old(newest)[0 := live]
      ensures hot == old(hot)[0 := live] && strayed == old(strayed)
      ensures forall m :: 0 < m < |hot| ==> OnlyStrayed(View(), m, sessions[live.value].table)
      ensures var s := sessions[|old(sessions)|];
        && s.rings == rings && s.capacity == capacity && s.local == local && !s.holds
        && s.modules == NobodyNoted() && !s.full
        && (s.table.Some? <==> rings > 0 && local)
        && (s.table.Some? ==>
              Obtained(old(View()), rings, capacity, sessions[..|old(sessions)|], s.table.value, tables)
              && OfGeometry(sessions, s.table.value, rings, capacity))
        && (s.table == None ==> sessions[..|old(sessions)|] == old(sessions) && tables == old(tables))
    {
      var table: Option<nat> := None;
      if rings > 0 && local {
        var obtained := ObtainTable(rings, capacity);
        table := Some(obtained);
      }
      var s := Session(rings, capacity, local, table, false, NobodyNoted(), false);
      StartKeeps(View(), s);
      ghost var mid := View();
      var id := |sessions|;
      sessions := sessions + [s];
      live := Some(id);
      hot := hot[0 := Some(id)];
      newest := newest[0 := Some(id)];
      forall m | 0 < m < |hot|
        ensures OnlyStrayed(View(), m, table)
      {
        StrayedStill(mid, View(), m, table);
      }
    }

    /** End the session: its entry joins the retired ones, and takes the table with it. */
    method Shutdown()
      requires Inv(View()) && live.Some?
      modifies this
      ensures Inv(View()) && live == None && retired == old(retired) + [old(live).value]
      ensures hot == old(hot)[0 := None] && strayed == old(strayed) && newest == old(newest) && tables == old(tables)
      ensures var i := old(live).value;
        sessions == old(sessions)[i := old(sessions)[i].(holds := old(sessions)[i].table.Some?)]
    {
      ShutdownKeeps(View());
      hot := hot[0 := None];
      var i := live.value;
      retired := retired + [i];
      sessions := sessions[i := sessions[i].(holds := sessions[i].table.Some?)];
      live := None;
    }
  }

  /** The hypothesis that nobody strays is needed: a module that attaches to the first session once the
      second has its table keeps the table of the third, which is the same. */
  method LateAttach(rings: nat, capacity: nat) returns (h: Host)
    requires rings > 0
    ensures Inv(h.View()) && h.live == Some(2) && |h.hot| == 2 && h.hot[1] == Some(0) && h.strayed[1]
    ensures h.sessions[2].table.Some? && CanPublish(h.View(), 1, h.sessions[2].table)
  {
    h := SecondSession(rings, capacity);
    h.AttachModule(1, Some(0));
    h.Shutdown();
    TakesTheTable(h, rings, capacity);
  }

  /** A session over the table of the one before, which no other module ever stamped into. */
  method SecondSession(rings: nat, capacity: nat) returns (h: Host)
    requires rings > 0
    ensures fresh(h) && Inv(h.View()) && h.live == Some(1) && h.retired == [0] && |h.sessions| == 2
    ensures h.hot == h.newest == [Some(1), None] && h.strayed == [false, false]
    ensures h.sessions[0].table.Some? && !h.sessions[0].holds
    ensures h.sessions[1] == Session(rings, capacity, true, h.sessions[0].table, false, NobodyNoted(), false)
  {
    h := new Host(2);
    h.Start(rings, capacity, true);
    h.Shutdown();
    TakesTheTable(h, rings, capacity);
  }

  /** Starting over with the session that ended last holding its table, and nobody noted there. */
  method TakesTheTable(h: Host, rings: nat, capacity: nat)
    requires Inv(h.View()) && h.live == None && h.retired != [] && rings > 0
    requires var a := |h.retired| - 1;
      && Fits(h.View(), a, rings, capacity) && h.sessions[h.retired[a]].modules == NobodyNoted()
      && !h.sessions[h.retired[a]].full
      && forall b :: 0 <= b < a ==> !Fits(h.View(), b, rings, capacity)
    modifies h
    ensures var a := |old(h.retired)| - 1;
      var i := old(h.retired)[a];
      && Inv(h.View()) && h.live == Some(|old(h.sessions)|) && h.retired == old(h.retired)
      && |h.sessions| == |old(h.sessions)| + 1 && h.newest == old(h.newest)[0 := h.live]
      && h.hot == old(h.hot)[0 := h.live] && h.strayed == old(h.strayed)
      && h.sessions[..|old(h.sessions)|] == old(h.sessions)[i := old(h.sessions)[i].(holds := false)]
      && (var s := h.sessions[|old(h.sessions)|];
          s == Session(rings, capacity, true, old(h.sessions)[i].table, false, NobodyNoted(), false))
  {
    ghost var st, a := h.View(), |h.retired| - 1;
    assert MovedOn(st, a);
    h.Start(rings, capacity, true);
  }

  /** A retired local session of this geometry whose entry still has its table. */
  predicate Fits(st: State, a: nat, rings: nat, capacity: nat)
    requires a < |st.retired| && st.retired[a] < |st.sessions|
  {
    var s := st.sessions[st.retired[a]];
    s.holds && s.local && s.rings == rings && s.capacity == capacity
  }

  /** Every session that has had this table has rings of this number and size. */
  ghost predicate OfGeometry(sessions: seq<Session>, table: nat, rings: nat, capacity: nat) {
    forall j :: 0 <= j < |sessions| && sessions[j].table == Some(table) ==>
      sessions[j].rings == rings && sessions[j].capacity == capacity
  }

  /** None of the first n retired sessions has a table to give. */
  ghost predicate NoneReusable(st: State, n: nat, rings: nat, capacity: nat)
    requires Shaped(st) && n <= |st.retired|
  {
    forall a :: 0 <= a < n && Fits(st, a, rings, capacity) ==> !MovedOn(st, a)
  }

  /** The first retired session with a table to give gives it up. */
  ghost predicate TakesOver(st: State, a: nat, rings: nat, capacity: nat, after: seq<Session>, table: nat)
    requires Shaped(st) && a < |st.retired|
  {
    && Fits(st, a, rings, capacity) && MovedOn(st, a) && NoneReusable(st, a, rings, capacity)
    && st.sessions[st.retired[a]].table == Some(table)
    && after == st.sessions[st.retired[a] := st.sessions[st.retired[a]].(holds := false)]
  }

  /** A table comes from a retired session whenever one has it to give, and is new otherwise. */
  ghost predicate Obtained(st: State, rings: nat, capacity: nat, after: seq<Session>, table: nat, tables: nat)
    requires Shaped(st)
  {
    if NoneReusable(st, |st.retired|, rings, capacity) then
      after == st.sessions && table == st.tables && tables == st.tables + 1
    else
      tables == st.tables
      && exists a :: 0 <= a < |st.retired| && TakesOver(st, a, rings, capacity, after, table)
  }

  lemma KeepsTheRest(slots: seq<Option<nat>>, k: nat, m: nat)
    requires k < |slots| && (slots[k] == None || slots[k] == Some(m))
    ensures Some(m) in slots[k := Some(m)]
    ensures forall x :: Some(x) in slots ==> Some(x) in slots[k := Some(m)]
    ensures forall x :: Some(x) in slots[k := Some(m)] ==> x == m || Some(x) in slots
  {
    assert slots[k := Some(m)][k] == Some(m);
    forall x | Some(x) in slots ensures Some(x) in slots[k := Some(m)] {
      var i :| 0 <= i < |slots| && slots[i] == Some(x);
      assert i != k ==> slots[k := Some(m)][i] == Some(x);
    }
  }
}
