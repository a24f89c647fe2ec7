/** Refreshing the label cache and resolving labels as they are coded, with publishers free to act between
    any two of the collector's loads. Each load is one action of LabelCaches. */
module LabelCode {
  import opened Options
  import opened NameTables
  import opened LabelCaches

  class NameCache {
    const capacity: nat
    var st: State
    var cached: map<Label, string>
    var generation: nat

    ghost var task: Task

    ghost function View(): Collector
      reads this
    {
      Collector(cached, generation, task)
    }

    ghost predicate Valid()
      reads this
    {
      CacheOk(st, View(), capacity)
    }

    /** Publishers act, any number of times. */
    method PublishersRun()
      requires Valid()
      modifies this`st
      ensures Valid() && Beside(old(st), st)
    {
      assert Beside(st, st);
      var actions: int := *;
      while actions > 0
        invariant Valid() && Beside(old(st), st)
      {
        actions := actions - 1;
        var k: int := *;
        var seen: int := *;
        var next: State := *;
        if 0 <= k < |st.publishers| && 0 <= seen && Step(st, k, seen, next) {
          PublisherKeeps(st, capacity, View(), k, seen, next);
          StepIsBeside(st, capacity, k, seen, next);
          BesideThrough(old(st), st, next);
          st := next;
        }
      }
    }

    /** Forget every label when a name has been announced since the cache was begun. The collector does not
        see a generation older than one it knows of. */
    method Refresh(known: nat)
      requires Valid() && task == Idle && known <= st.generation
      modifies this`st, this`cached, this`generation
      ensures Valid() && Beside(old(st), st) && task == Idle
      ensures generation >= old(generation) && known <= generation <= st.generation
      ensures cached == if generation == old(generation) then old(cached) else map[]
    {
      PublishersRun();
      var seen: nat;
      assert known <= st.generation;
      seen :| generation <= seen <= st.generation && known <= seen;
      ghost var before := View();
      if seen != generation {
        cached, generation := map[], seen;
      }
      ActsKeeps(st, capacity, before, seen, false, View());
    }

    /** Look at slot i for the name of a label. */
    method LookAt(q: Label, i: nat) returns (hit: bool)
      requires Valid() && task == Looking(q, i) && i < |st.words|
      modifies this`st, this`task
      ensures Valid() && Beside(old(st), st)
      ensures task == if hit then Reading(q, i, "") else Looking(q, i + 1)
    {
      PublishersRun();
      assert CollectorSees(st, generation, i, st.words[i]);
      var seen: nat;
      seen :| CollectorSees(st, generation, i, seen);
      hit := seen == WantOf(q) && IsPublished(seen);
      ghost var before := View();
      task := if hit then Reading(q, i, "") else Looking(q, i + 1);
      ActsKeeps(st, capacity, before, seen, false, View());
    }

    /** Copy the name found at slot i, and keep the label it makes. */
    method ReadLabel(q: Label, i: nat) returns (text: string)
      requires Valid() && task == Reading(q, i, "") && q !in cached
      modifies this`st, this`task, this`cached
      ensures Valid() && Beside(old(st), st) && Labelled(old(cached), q, text)
    {
      ghost var whole :| Holds(st.names[i], whole);
      var name := "";
      while true
        invariant Valid() && Beside(old(st), st) && task == Reading(q, i, name) && cached == old(cached)
        invariant Holds(st.names[i], whole) && |name| <= |whole| && name == whole[..|name|]
        decreases |whole| - |name|
      {
        ghost var before := st;
        PublishersRun();
        BesideThrough(old(st), before, st);
        assert Stays(before, st, i);
        ByteIsNext(st.names[i], whole, name);
        var b := st.names[i][|name|];
        if b == '\0' {
          text := Keep(q, name);
          return;
        }
        ghost var c := View();
        name := name + [b];
        task := Reading(q, i, name);
        ActsKeeps(st, capacity, c, 0, false, View());
      }
    }

    /** The lookup is over: the label is what its outcome makes it, and is cached if there is room. */
    method Keep(q: Label, name: string) returns (text: string)
      requires Valid() && q !in cached && Outcome(q, name)
      modifies this`task, this`cached
      ensures Valid() && Labelled(old(cached), q, text)
    {
      text := Text(q, name);
      ghost var before := View();
      ActsKeeps(st, capacity, before, 0, true, Finished(before, q, name, true));
      assert LabelOk(st, generation, q, Finished(before, q, name, true).cached[q]);
      var room: bool := *;
      if room {
        cached := cached[q := text];
      }
      task := Idle;
      ActsKeeps(st, capacity, before, 0, room, View());
    }

    /** The next action ends the lookup of this label with this name. */
    ghost predicate Outcome(q: Label, name: string)
      reads this
    {
      || (task.Looking? && task.q == q && task.at >= |st.words| && name == "")
      || (task.Reading? && task.q == q && task.read == name && task.at < |st.names|
          && |name| < |st.names[task.at]| && st.names[task.at][|name|] == '\0')
    }

    /** A label resolved: true to the generation, and cached or not, with nothing else touched. */
    ghost predicate Labelled(was: map<Label, string>, q: Label, text: string)
      reads this
    {
      && task == Idle && Shaped(st) && LabelOk(st, generation, q, text)
      && (cached == was || cached == was[q := text])
    }

    /** A row's label: fixed, cached, or looked up slot by slot. When the cache is up to date and no
        publisher is announcing this key, it is the one the names in the table now make. */
    method LabelOf(q: Label) returns (text: string)
      requires Valid() && task == Idle
      modifies this`st, this`task, this`cached
      ensures Valid() && Beside(old(st), st) && task == Idle
      ensures Fixed(q) || q in old(cached) ==> cached == old(cached)
      ensures cached == old(cached) || cached == old(cached)[q := text]
      ensures q in old(cached) && !Fixed(q) ==> text == old(cached)[q]
      ensures Fixed(q) || LabelOk(st, generation, q, text)
      ensures Fixed(q) || (generation == st.generation && Quiet(st, q)) ==>
        text == Resolve(st, q) && Shown(st, q, text)
    {
      assert Beside(st, st);
      if Fixed(q) {
        return Text(q, "");
      }
      if q in cached {
        text := cached[q];
      } else {
        text := LookUp(q);
      }
      if generation == st.generation && Quiet(st, q) {
        LabelIsCurrent(st, capacity, q, text);
        ResolveShows(st, q);
      }
    }

    method LookUp(q: Label) returns (text: string)
      requires Valid() && task == Idle && q !in cached && !Fixed(q)
      modifies this`st, this`task, this`cached
      ensures Valid() && Beside(old(st), st) && Labelled(old(cached), q, text)
    {
      assert Beside(st, st);
      ghost var idle := View();
      task := Looking(q, 0);
      ActsKeeps(st, capacity, idle, 0, false, View());
      var slots := |st.words|;
      for i := 0 to slots
        invariant Valid() && Beside(old(st), st) && task == Looking(q, i) && cached == old(cached)
      {
        ghost var before := st;
        var hit := LookAt(q, i);
        BesideThrough(old(st), before, st);
        if hit {
          before := st;
          text := ReadLabel(q, i);
          BesideThrough(old(st), before, st);
          return;
        }
      }
      text := Keep(q, "");
    }
  }
}
