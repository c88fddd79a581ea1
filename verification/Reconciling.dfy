/** Which TestRail run a session is about, what collection does to it, and where the session
    then publishes. */
module Reconciling {
  import opened Wrappers
  import opened Chunks
  import opened Results
  import opened TestRailServer

  /** Options of the plugin. An empty name stands for one that is not given. */
  datatype Config = Config(runName: string, planName: string, includeAll: bool, publishBlocked: bool,
                           version: string, closeOnComplete: bool, rules: Rules)

  datatype TestItem = TestItem(skip: bool, marker: Option<seq<nat>>)

  // ----- Which run a session is about -----

  /** Case numbers of the items that will run. */
  function CollectedKeys(items: seq<TestItem>): seq<nat>
  {
    if items == [] then []
    else
      var last := items[|items| - 1];
      CollectedKeys(items[..|items| - 1]) + if !last.skip && last.marker.Some? then last.marker.value else []
  }

  /** The item is marked with that case and will run. */
  predicate Collects(item: TestItem, c: nat)
  {
    match item case TestItem(false, Some(ids)) => c in ids case _ => false
  }

  lemma {:induction false} CollectedAre(items: seq<TestItem>)
    ensures forall c :: c in CollectedKeys(items) <==> exists i :: 0 <= i < |items| && Collects(items[i], c)
  {
    if items != [] {
      var n := |items| - 1;
      CollectedAre(items[..n]);
      forall c
        ensures c in CollectedKeys(items) <==> exists i :: 0 <= i < |items| && Collects(items[i], c)
      {
        assert Collects(items[n], c) ==> exists i :: 0 <= i < |items| && Collects(items[i], c);
        if i :| 0 <= i < n && Collects(items[..n][i], c) {
          assert Collects(items[i], c);
        }
        if i :| 0 <= i < n && Collects(items[i], c) {
          assert Collects(items[..n][i], c);
        }
      }
    }
  }

  lemma {:induction false} KeysJoined(items: seq<TestItem>)
    ensures CollectedKeys(items) ==
            Join(seq(|items|, i requires 0 <= i < |items| =>
              match items[i] case TestItem(false, Some(ids)) => ids case _ => []))
  {
    if items != [] {
      var n := |items| - 1;
      KeysJoined(items[..n]);
      var pieces := seq(n, i requires 0 <= i < n =>
        match items[..n][i] case TestItem(false, Some(ids)) => ids case _ => []);
      var all := seq(|items|, i requires 0 <= i < |items| =>
        match items[i] case TestItem(false, Some(ids)) => ids case _ => []);
      assert all == pieces + [all[n]];
      JoinAppend(pieces, all[n]);
    }
  }

  function AsSet(keys: seq<nat>): set<nat>
  {
    set k | k in keys
  }

  /** The run a plan's first entry of that name holds. */
  function RunInPlan(db: Database, planId: nat, runName: string): Option<nat>
  {
    if planId !in db.entries then None
    else
      match FirstNamed(db.entries[planId], runName)
      case Some(e) => if e.id in db.entryRun then Some(db.entryRun[e.id]) else None
      case None => None
  }

  /** The run that the options name: by number within a named plan, by name within a named
      plan, or by name among the runs outside plans. Completed ones are not considered. */
  function Target(cfg: Config, runId: nat, db: Database): Option<nat>
  {
    if cfg.runName == "" then None
    else if runId != 0 && cfg.planName != "" then Some(runId)
    else if cfg.planName != "" then
      match FirstNamed(Open(db.plans), cfg.planName)
      case Some(p) => RunInPlan(db, p.id, cfg.runName)
      case None => None
    else
      match FirstNamed(Open(db.runs), cfg.runName)
      case Some(r) => Some(r.id)
      case None => None
  }

  /** Collection fails for a run number the server does not know, and for a run name that only
      completed runs have: it is found, but not among the open ones. */
  predicate Raises(cfg: Config, runId: nat, db: Database)
  {
    && cfg.runName != ""
    && if runId != 0 && cfg.planName != "" then runId !in db.tests
       else cfg.planName == "" && Target(cfg, runId, db).None? && FirstNamed(db.runs, cfg.runName).Some?
  }

  /** How the selection of the target run is extended, in each of the three modes. */
  function UpdatePost(cfg: Config, runId: nat, db: Database, target: nat, cases: set<nat>): Post
  {
    if runId != 0 && cfg.planName != "" then UpdateRunInPlanEntry(target, cases)
    else if cfg.planName != "" then
      match FirstNamed(Open(db.plans), cfg.planName)
      case None => UpdateRun(target, cases)
      case Some(p) =>
        UpdatePlanEntry(p.id,
                        if p.id in db.entries && FirstNamed(db.entries[p.id], cfg.runName).Some?
                        then FirstNamed(db.entries[p.id], cfg.runName).value.id else 0, cases)
    else UpdateRun(target, cases)
  }

  /** What collection posts: an update when it brings a case the run lacks, or else nothing;
      if there is no such run yet, the run, preceded by its plan if that is missing too. */
  function Reconciliation(cfg: Config, runId: nat, db: Database, keys: set<nat>): seq<Post>
  {
    if cfg.runName == "" then []
    else
      match Target(cfg, runId, db)
      case Some(t) =>
        var cases := if t in db.tests then db.tests[t].Keys else {};
        if keys <= cases then [] else [UpdatePost(cfg, runId, db, t, cases + keys)]
      case None =>
        if cfg.planName == "" then [AddRun(cfg.runName, cfg.includeAll, keys)]
        else
          match FirstNamed(Open(db.plans), cfg.planName)
          case Some(p) => [AddPlanEntry(p.id, cfg.runName, cfg.includeAll, keys)]
          case None => [AddPlan(cfg.planName), AddPlanEntry(db.nextId, cfg.runName, cfg.includeAll, keys)]
  }

  /** The request itself, when the run is there and lacks a case, in each of the three modes. */
  lemma RequestPosted(cfg: Config, runId: nat, db: Database, keys: set<nat>, t: nat)
    requires cfg.runName != "" && Target(cfg, runId, db) == Some(t) && t in db.tests && !(keys <= db.tests[t].Keys)
    ensures var cases, news := db.tests[t].Keys + keys, Reconciliation(cfg, runId, db, keys);
            if cfg.planName == "" then news == [UpdateRun(t, cases)]
            else if runId != 0 then t == runId && news == [UpdateRunInPlanEntry(t, cases)]
            else
              var plan := FirstNamed(Open(db.plans), cfg.planName);
              && plan.Some? && plan.value.id in db.entries
              && var entry := FirstNamed(db.entries[plan.value.id], cfg.runName);
                 && entry.Some? && entry.value.id in db.entryRun && db.entryRun[entry.value.id] == t
                 && news == [UpdatePlanEntry(plan.value.id, entry.value.id, cases)]
  {
  }

  /** The plan that a session is left with: the first open one of the configured name. */
  function PlanUsed(cfg: Config, planId: nat, db: Database): nat
  {
    if cfg.runName == "" then 0
    else if cfg.planName == "" then planId
    else
      match FirstNamed(Open(db.plans), cfg.planName)
      case Some(p) => p.id
      case None => planId
  }

  /** The run number that a session is left with: none if a run within a plan was found by name. */
  function RunLeft(cfg: Config, runId: nat, before: Database, after: Database): nat
  {
    if cfg.runName == "" then 0
    else if runId != 0 && cfg.planName != "" then runId
    else if cfg.planName != "" && Target(cfg, runId, before).Some? then 0
    else
      match Target(cfg, runId, after)
      case Some(t) => t
      case None => 0
  }

  datatype Lookup = Nowhere | At(runId: nat) | Missing

  /** Where a session that ends with these two ids publishes; Missing is an exception. */
  function Publishes(cfg: Config, runId: nat, planId: nat, db: Database): Lookup
  {
    if runId != 0 then At(runId)
    else if planId != 0 then
      match RunInPlan(db, planId, cfg.runName)
      case Some(r) => At(r)
      case None => Missing
    else Nowhere
  }

  // ----- Facts about searching -----

  lemma {:induction false} FirstNamedFound(rows: seq<Row>, name: string)
    ensures FirstNamed(rows, name).Some? ==>
              FirstNamed(rows, name).value in rows && FirstNamed(rows, name).value.name == name
  {
    if rows != [] {
      FirstNamedFound(rows[1..], name);
    }
  }

  lemma {:induction false} FirstNamedAppend(rows: seq<Row>, row: Row, name: string)
    ensures FirstNamed(rows + [row], name) ==
            if FirstNamed(rows, name).Some? then FirstNamed(rows, name)
            else if row.name == name then Some(row)
            else None
  {
    if rows != [] {
      assert (rows + [row])[1..] == rows[1..] + [row];
      FirstNamedAppend(rows[1..], row, name);
    } else {
      assert [row][1..] == [];
    }
  }

  lemma {:induction false} OpenRows(rows: seq<Row>)
    ensures forall r :: r in Open(rows) ==> r in rows && !r.completed
  {
    if rows != [] {
      OpenRows(rows[1..]);
    }
  }

  lemma {:induction false} OpenAppend(rows: seq<Row>, row: Row)
    requires !row.completed
    ensures Open(rows + [row]) == Open(rows) + [row]
  {
    if rows != [] {
      assert (rows + [row])[1..] == rows[1..] + [row];
      OpenAppend(rows[1..], row);
    } else {
      assert [row][1..] == [];
    }
  }

  lemma {:induction false} NotNamedNotOpen(rows: seq<Row>, name: string)
    ensures FirstNamed(rows, name).None? ==> FirstNamed(Open(rows), name).None?
  {
    if rows != [] {
      NotNamedNotOpen(rows[1..], name);
      if rows[0].completed {
        assert Open(rows) == Open(rows[1..]);
      } else {
        assert Open(rows)[1..] == Open(rows[1..]);
      }
    }
  }

  // ----- One session -----

  /** The named run exists and is on the server. */
  lemma TargetIsKnown(cfg: Config, runId: nat, db: Database)
    requires Consistent(db) && cfg.runName != "" && !Raises(cfg, runId, db) && Target(cfg, runId, db).Some?
    ensures Target(cfg, runId, db).value in db.tests && Target(cfg, runId, db).value != 0
  {
    if !(runId != 0 && cfg.planName != "") {
      if cfg.planName != "" {
        PlanIsKnown(cfg, db);
        var p := FirstNamed(Open(db.plans), cfg.planName).value;
        FirstNamedFound(db.entries[p.id], cfg.runName);
        assert EntriesLinked(db, p.id);
      } else {
        FirstNamedFound(Open(db.runs), cfg.runName);
        OpenRows(db.runs);
      }
    }
  }

  lemma PlanIsKnown(cfg: Config, db: Database)
    requires Consistent(db)
    ensures var p := FirstNamed(Open(db.plans), cfg.planName);
            p.Some? ==> p.value.id in db.entries && p.value.id != 0 && EntriesLinked(db, p.value.id)
  {
    FirstNamedFound(Open(db.plans), cfg.planName);
    OpenRows(db.plans);
  }

  lemma SelectKeeps(cfg: Config, runId: nat, db: Database, t: nat, cases: set<nat>)
    requires Consistent(db) && t in db.tests
    ensures Consistent(Select(db, t, cases))
    ensures Target(cfg, runId, Select(db, t, cases)) == Target(cfg, runId, db)
    ensures Raises(cfg, runId, Select(db, t, cases)) == Raises(cfg, runId, db)
  {
    var after := Select(db, t, cases);
    assert after.tests.Keys == db.tests.Keys;
    forall p | p in after.entries ensures EntriesLinked(after, p) {
      assert EntriesLinked(db, p);
    }
  }

  lemma SelectOwn(db: Database, t: nat)
    requires t in db.tests
    ensures Select(db, t, db.tests[t].Keys) == db
  {
    assert WithCases(db.tests[t], db.tests[t].Keys) == db.tests[t];
  }

  lemma PerformOne(db: Database, post: Post)
    ensures PerformAll(db, [post]) == Perform(db, post)
  {
    assert [post][..0] == [];
  }

  lemma {:induction false} PerformAllAppend(db: Database, a: seq<Post>, b: seq<Post>)
    ensures PerformAll(db, a + b) == PerformAll(PerformAll(db, a), b)
  {
    if b == [] {
      assert a + b == a;
    } else {
      assert (a + b)[..|a + b| - 1] == a + b[..|b| - 1];
      PerformAllAppend(db, a, b[..|b| - 1]);
    }
  }

  lemma PerformTwo(db: Database, first: Post, second: Post)
    ensures PerformAll(db, [first, second]) == Perform(Perform(db, first), second)
  {
    assert [first, second][..1] == [first];
    PerformOne(db, first);
  }

  lemma UpdateSelects(cfg: Config, runId: nat, db: Database, cases: set<nat>)
    requires Consistent(db) && cfg.runName != "" && !Raises(cfg, runId, db) && Target(cfg, runId, db).Some?
    ensures var t := Target(cfg, runId, db).value;
            Perform(db, UpdatePost(cfg, runId, db, t, cases)) == Select(db, t, cases)
  {
  }

  /** Collection on a run that exists: it is still the named run, it has gained exactly the
      collected cases, what it had keeps its status, nothing else changes, and nothing is
      posted exactly when nothing is new. */
  lemma ExtendsExistingRun(cfg: Config, runId: nat, db: Database, keys: set<nat>)
    requires Consistent(db) && cfg.runName != "" && !Raises(cfg, runId, db) && Target(cfg, runId, db).Some?
    ensures var t, news := Target(cfg, runId, db).value, Reconciliation(cfg, runId, db, keys);
            var after := PerformAll(db, news);
            && t in db.tests && Consistent(after) && !Raises(cfg, runId, after) && Target(cfg, runId, after) == Some(t)
            && after == Select(db, t, db.tests[t].Keys + keys)
            && |news| <= 1 && (news == [] <==> keys <= db.tests[t].Keys)
  {
    TargetIsKnown(cfg, runId, db);
    var t := Target(cfg, runId, db).value;
    var cases := db.tests[t].Keys;
    if keys <= cases {
      assert cases + keys == cases;
      SelectOwn(db, t);
    } else {
      UpdateSelects(cfg, runId, db, cases + keys);
      PerformOne(db, UpdatePost(cfg, runId, db, t, cases + keys));
      SelectKeeps(cfg, runId, db, t, cases + keys);
    }
  }

  lemma AddEntryConsistent(db: Database, planId: nat, name: string, includeAll: bool, cases: set<nat>)
    requires Consistent(db) && planId in db.entries && FirstNamed(db.entries[planId], name).None?
    ensures var after := Perform(db, AddPlanEntry(planId, name, includeAll, cases));
            && Consistent(after) && after.plans == db.plans && RunInPlan(after, planId, name) == Some(db.nextId)
            && after.tests == db.tests[db.nextId := Chosen(db, includeAll, cases)]
  {
    PerformConsistent(db, AddPlanEntry(planId, name, includeAll, cases));
    FirstNamedAppend(db.entries[planId], Row(db.nextId + 1, name, false), name);
  }

  lemma AddPlanConsistent(db: Database, name: string)
    requires Consistent(db) && FirstNamed(Open(db.plans), name).None?
    ensures var after := Perform(db, AddPlan(name));
            && Consistent(after) && after.entries[db.nextId] == [] && after.tests == db.tests && after.suite == db.suite
            && FirstNamed(Open(after.plans), name) == Some(Row(db.nextId, name, false))
  {
    PerformConsistent(db, AddPlan(name));
    OpenAppend(db.plans, Row(db.nextId, name, false));
    FirstNamedAppend(Open(db.plans), Row(db.nextId, name, false), name);
  }

  lemma AddRunConsistent(db: Database, name: string, includeAll: bool, cases: set<nat>)
    requires Consistent(db) && FirstNamed(Open(db.runs), name).None?
    ensures var after := Perform(db, AddRun(name, includeAll, cases));
            && Consistent(after) && FirstNamed(Open(after.runs), name) == Some(Row(db.nextId, name, false))
            && after.tests == db.tests[db.nextId := Chosen(db, includeAll, cases)]
  {
    PerformConsistent(db, AddRun(name, includeAll, cases));
    OpenAppend(db.runs, Row(db.nextId, name, false));
    FirstNamedAppend(Open(db.runs), Row(db.nextId, name, false), name);
  }

  /** Without an entry of that name, a plan has no run of that name. */
  lemma NoRunMeansNoEntry(db: Database, planId: nat, name: string)
    requires planId in db.entries && EntriesLinked(db, planId)
    ensures RunInPlan(db, planId, name).None? ==> FirstNamed(db.entries[planId], name).None?
  {
    FirstNamedFound(db.entries[planId], name);
  }

  /** Collection on a run that does not exist: it is created, new, with the collected cases (or
      the whole suite), and from then on it is the run that the same options name. */
  lemma CreatesMissingRun(cfg: Config, runId: nat, db: Database, keys: set<nat>)
    requires Consistent(db) && cfg.runName != "" && !Raises(cfg, runId, db) && Target(cfg, runId, db).None?
    ensures var after := PerformAll(db, Reconciliation(cfg, runId, db, keys));
            && Consistent(after) && !Raises(cfg, runId, after)
            && Target(cfg, runId, after).Some? && Target(cfg, runId, after).value !in db.tests
            && after.tests == db.tests[Target(cfg, runId, after).value := Chosen(db, cfg.includeAll, keys)]
  {
    var news := Reconciliation(cfg, runId, db, keys);
    PerformOne(db, news[0]);
    if cfg.planName == "" {
      AddRunConsistent(db, cfg.runName, cfg.includeAll, keys);
    } else {
      CreatesMissingEntry(cfg, runId, db, keys);
    }
  }

  lemma CreatesMissingEntry(cfg: Config, runId: nat, db: Database, keys: set<nat>)
    requires Consistent(db) && cfg.runName != "" && runId == 0 && cfg.planName != "" && Target(cfg, runId, db).None?
    ensures var after := PerformAll(db, Reconciliation(cfg, runId, db, keys));
            && Consistent(after) && Target(cfg, runId, after).Some? && Target(cfg, runId, after).value !in db.tests
            && after.tests == db.tests[Target(cfg, runId, after).value := Chosen(db, cfg.includeAll, keys)]
  {
    var news := Reconciliation(cfg, runId, db, keys);
    PerformOne(db, news[0]);
    var plan := FirstNamed(Open(db.plans), cfg.planName);
    if plan.Some? {
      PlanIsKnown(cfg, db);
      NoRunMeansNoEntry(db, plan.value.id, cfg.runName);
      AddEntryConsistent(db, plan.value.id, cfg.runName, cfg.includeAll, keys);
    } else {
      PerformTwo(db, news[0], news[1]);
      AddPlanConsistent(db, cfg.planName);
      AddEntryConsistent(Perform(db, news[0]), db.nextId, cfg.runName, cfg.includeAll, keys);
    }
  }

  // ----- A named plan: first the plan, then the run in it -----

  function PlanPosts(cfg: Config, db: Database): seq<Post>
  {
    if FirstNamed(Open(db.plans), cfg.planName).Some? then [] else [AddPlan(cfg.planName)]
  }

  function InPlanPosts(cfg: Config, db: Database, planId: nat, keys: set<nat>): seq<Post>
    requires planId in db.entries
  {
    match RunInPlan(db, planId, cfg.runName)
    case None => [AddPlanEntry(planId, cfg.runName, cfg.includeAll, keys)]
    case Some(run) =>
      var cases := if run in db.tests then db.tests[run].Keys else {};
      if keys <= cases then []
      else [UpdatePlanEntry(planId, FirstNamed(db.entries[planId], cfg.runName).value.id, cases + keys)]
  }

  /** The configured plan is there once its request is carried out. */
  lemma PlanIsThere(cfg: Config, db: Database)
    requires Consistent(db)
    ensures var mid := PerformAll(db, PlanPosts(cfg, db));
            var p := FirstNamed(Open(mid.plans), cfg.planName);
            && Consistent(mid) && p.Some? && p.value.id in mid.entries && p.value.id != 0 &&
               EntriesLinked(mid, p.value.id)
            && (FirstNamed(Open(db.plans), cfg.planName).None? ==>
               mid.entries[p.value.id] == [] && p.value.id == db.nextId)
            && mid.tests == db.tests
  {
    PerformOne(db, AddPlan(cfg.planName));
    if FirstNamed(Open(db.plans), cfg.planName).None? {
      AddPlanConsistent(db, cfg.planName);
    }
    PlanIsKnown(cfg, PerformAll(db, PlanPosts(cfg, db)));
  }

  lemma PlanThenRun(cfg: Config, db: Database, keys: set<nat>)
    requires Consistent(db) && cfg.runName != "" && cfg.planName != ""
    ensures var mid := PerformAll(db, PlanPosts(cfg, db));
            var p := FirstNamed(Open(mid.plans), cfg.planName);
            && p.Some? && p.value.id in mid.entries
            && Reconciliation(cfg, 0, db, keys) == PlanPosts(cfg, db) + InPlanPosts(cfg, mid, p.value.id, keys)
            && (Target(cfg, 0, db).Some? <==> RunInPlan(mid, p.value.id, cfg.runName).Some?)
  {
    PlanIsThere(cfg, db);
    PlanIsKnown(cfg, db);
  }

  lemma InPlanLeaves(cfg: Config, db: Database, planId: nat, keys: set<nat>)
    requires Consistent(db) && planId in db.entries && EntriesLinked(db, planId)
    ensures var after := PerformAll(db, InPlanPosts(cfg, db, planId, keys));
            && after.plans == db.plans
            && (RunInPlan(db, planId, cfg.runName).None? ==> RunInPlan(after, planId, cfg.runName) == Some(db.nextId))
  {
    var news := InPlanPosts(cfg, db, planId, keys);
    if news != [] {
      PerformOne(db, news[0]);
    }
    if RunInPlan(db, planId, cfg.runName).None? {
      NoRunMeansNoEntry(db, planId, cfg.runName);
      AddEntryConsistent(db, planId, cfg.runName, cfg.includeAll, keys);
    }
  }

  // ----- After collection -----

  function AfterCollection(cfg: Config, runId: nat, db: Database, keys: set<nat>): Database
  {
    PerformAll(db, Reconciliation(cfg, runId, db, keys))
  }

  /** What collection leaves behind: a run that the options name, with at least these cases. */
  lemma CollectionNamesRun(cfg: Config, runId: nat, db: Database, keys: set<nat>)
    requires Consistent(db) && cfg.runName != "" && !Raises(cfg, runId, db)
    ensures var mid := AfterCollection(cfg, runId, db, keys);
            && Consistent(mid) && !Raises(cfg, runId, mid)
            && Target(cfg, runId, mid).Some? && Target(cfg, runId, mid).value in mid.tests
            && Target(cfg, runId, mid).value != 0
            && (Target(cfg, runId, db).Some? ==> Target(cfg, runId, mid) == Target(cfg, runId, db))
  {
    if Target(cfg, runId, db).Some? {
      ExtendsExistingRun(cfg, runId, db, keys);
    } else {
      CreatesMissingRun(cfg, runId, db, keys);
    }
    TargetIsKnown(cfg, runId, AfterCollection(cfg, runId, db, keys));
  }

  /** The ids collection leaves lead the end of the session back to that run. */
  lemma LeftIdsPublish(cfg: Config, runId: nat, planId: nat, db: Database, keys: set<nat>)
    requires Consistent(db) && cfg.runName != "" && !Raises(cfg, runId, db)
    ensures var mid := AfterCollection(cfg, runId, db, keys);
            && Target(cfg, runId, mid).Some?
            && Publishes(cfg, RunLeft(cfg, runId, db, mid), PlanUsed(cfg, planId, mid), mid) ==
               At(Target(cfg, runId, mid).value)
  {
    CollectionNamesRun(cfg, runId, db, keys);
    PlanIsKnown(cfg, AfterCollection(cfg, runId, db, keys));
  }
}
