/** The TestRail plugin of plugin.py: collection reconciles a run, reports accumulate results,
    and the end of the session publishes them. */
module TestRailPlugin {
  import opened Wrappers
  import opened Chunks
  import opened Results
  import opened TestRailServer
  import opened Reconciling
  import opened Publishing

  class Plugin {
    const cfg: Config
    const server: Server
    var testrunId: nat
    var testplanId: nat
    var results: seq<Result>
    var nameTests: map<string, Outcome>
    ghost var seen: seq<Report>

    constructor (cfg: Config, server: Server, runId: nat, planId: nat)
      ensures this.cfg == cfg && this.server == server && testrunId == runId && testplanId == planId
      ensures Collecting() && seen == []
    {
      this.cfg, this.server, testrunId, testplanId := cfg, server, runId, planId;
      results, nameTests, seen := [], map[], [];
    }

    /** The results are those of the recorded reports, and the remembered outcome of each base
        test is the last one recorded. */
    ghost predicate Collecting()
      reads this
    {
      && (RecordedAreMarked(cfg.rules, seen); results == AllResults(Recorded(cfg.rules, seen)))
      && (cfg.rules.mergeParametrize ==> Remembers(cfg.rules, seen, nameTests))
    }

    // ----- Searches -----

    static method FindNamed(rows: seq<Row>, name: string) returns (r: Option<Row>)
      ensures r == FirstNamed(rows, name)
    {
      var i := 0;
      while i < |rows|
        invariant i <= |rows| && FirstNamed(rows, name) == FirstNamed(rows[i..], name)
      {
        if rows[i].name == name {
          return Some(rows[i]);
        }
        i := i + 1;
      }
      r := None;
    }

    /** None is an exception. */
    method GetTestrunIdInTestplan() returns (r: Option<nat>)
      ensures r == RunInPlan(server.db, testplanId, cfg.runName)
    {
      if testplanId !in server.db.entries {
        return None;
      }
      var e := FindNamed(server.db.entries[testplanId], cfg.runName);
      r := if e.Some? && e.value.id in server.db.entryRun then Some(server.db.entryRun[e.value.id]) else None;
    }

    /** The case numbers of the items that are marked and not skipped, one item after another. */
    method TestrailKeys(items: seq<TestItem>) returns (keys: seq<nat>)
      ensures keys == CollectedKeys(items)
      ensures keys == Join(seq(|items|, i requires 0 <= i < |items| =>
                match items[i] case TestItem(false, Some(ids)) => ids case _ => []))
      ensures forall c :: c in keys <==> exists i :: 0 <= i < |items| && Collects(items[i], c)
    {
      KeysJoined(items);
      CollectedAre(items);
      keys := [];
      for i := 0 to |items|
        invariant keys == CollectedKeys(items[..i])
      {
        assert items[..i + 1][..i] == items[..i];
        if !items[i].skip && items[i].marker.Some? {
          keys := keys + items[i].marker.value;
        }
      }
      assert items[..|items|] == items;
    }

    // ----- pytest_collection_modifyitems -----

    /** A set grows by another exactly when that brings something new. */
    static lemma GrowsByNews(a: set<nat>, b: set<nat>)
      ensures |a + b| > |a| <==> !(b <= a)
    {
      assert a + b == a + (b - a);
      if b - a == {} {
        assert b <= a;
      }
    }

    /** The run's cases with the collected ones, and whether they are more. */
    method UpdatedKeys(run: nat, keys: seq<nat>) returns (cases: set<nat>, more: bool)
      requires run in server.db.tests
      ensures cases == server.db.tests[run].Keys + AsSet(keys)
      ensures more <==> !(AsSet(keys) <= server.db.tests[run].Keys)
    {
      var testsList := server.db.tests[run].Keys;
      cases := testsList + AsSet(keys);
      more := |cases| > |testsList|;
      GrowsByNews(testsList, AsSet(keys));
    }

    /** A run given by number, in a named plan. */
    method ExtendNumberedRun(keys: seq<nat>) returns (raised: bool)
      requires Consistent(server.db) && cfg.runName != "" && testrunId != 0 && cfg.planName != ""
      modifies this`testplanId, server
      ensures raised == Raises(cfg, testrunId, old(server.db))
      ensures raised ==> server.db == old(server.db) && server.posts == old(server.posts)
      ensures !raised ==>
                var news := Reconciliation(cfg, testrunId, old(server.db), AsSet(keys));
                server.posts == old(server.posts) + news && server.db == PerformAll(old(server.db), news)
      ensures !raised ==> testplanId == PlanUsed(cfg, old(testplanId), server.db)
    {
      raised := false;
      var plan := FindNamed(Open(server.db.plans), cfg.planName);
      if plan.Some? {
        testplanId := plan.value.id;
      }
      if testrunId !in server.db.tests {
        return true;
      }
      var updateTrKeys, more := UpdatedKeys(testrunId, keys);
      PerformOne(server.db, UpdateRunInPlanEntry(testrunId, updateTrKeys));
      if more {
        server.Send(UpdateRunInPlanEntry(testrunId, updateTrKeys));
      }
    }

    /** The first open plan of the configured name, created if there is none. */
    method FindOrAddPlan()
      requires Consistent(server.db)
      modifies this`testplanId, server
      ensures server.posts == old(server.posts) + PlanPosts(cfg, old(server.db))
      ensures server.db == PerformAll(old(server.db), PlanPosts(cfg, old(server.db)))
      ensures var p := FirstNamed(Open(server.db.plans), cfg.planName); p.Some? && p.value.id == testplanId
    {
      var plan := FindNamed(Open(server.db.plans), cfg.planName);
      PlanIsThere(cfg, server.db);
      if plan.Some? {
        testplanId := plan.value.id;
      } else {
        testplanId := server.db.nextId;
        PerformOne(server.db, AddPlan(cfg.planName));
        server.Send(AddPlan(cfg.planName));
      }
    }

    /** The plan has the run. Its number is forgotten again, and looked up anew to publish. */
    method ExtendEntry(entry: Row, keys: seq<nat>)
      requires Consistent(server.db) && testplanId in server.db.entries
      requires FirstNamed(server.db.entries[testplanId], cfg.runName) == Some(entry)
      modifies this`testrunId, server
      ensures testrunId == 0 && RunInPlan(old(server.db), testplanId, cfg.runName).Some?
      ensures server.posts == old(server.posts) + InPlanPosts(cfg, old(server.db), testplanId, AsSet(keys))
      ensures server.db == PerformAll(old(server.db), InPlanPosts(cfg, old(server.db), testplanId, AsSet(keys)))
    {
      FirstNamedFound(server.db.entries[testplanId], cfg.runName);
      assert EntriesLinked(server.db, testplanId);
      testrunId := server.db.entryRun[entry.id];
      var updateTrKeys, more := UpdatedKeys(testrunId, keys);
      PerformOne(server.db, UpdatePlanEntry(testplanId, entry.id, updateTrKeys));
      if more {
        server.Send(UpdatePlanEntry(testplanId, entry.id, updateTrKeys));
      }
      testrunId := 0;
    }

    /** The plan lacks the run. */
    method AddEntry(keys: seq<nat>)
      requires testplanId in server.db.entries && FirstNamed(server.db.entries[testplanId], cfg.runName).None?
      modifies this`testrunId, server
      ensures testrunId == old(server.db).nextId && RunInPlan(old(server.db), testplanId, cfg.runName).None?
      ensures server.posts == old(server.posts) + InPlanPosts(cfg, old(server.db), testplanId, AsSet(keys))
      ensures server.db == PerformAll(old(server.db), InPlanPosts(cfg, old(server.db), testplanId, AsSet(keys)))
    {
      PerformOne(server.db, AddPlanEntry(testplanId, cfg.runName, cfg.includeAll, AsSet(keys)));
      testrunId := server.db.nextId;
      server.Send(AddPlanEntry(testplanId, cfg.runName, cfg.includeAll, AsSet(keys)));
    }

    /** A run named in a named plan. */
    method ReconcileInPlan(keys: seq<nat>)
      requires Consistent(server.db) && cfg.runName != "" && testrunId == 0 && cfg.planName != ""
      modifies this`testrunId, this`testplanId, server
      ensures var news := Reconciliation(cfg, 0, old(server.db), AsSet(keys));
              server.posts == old(server.posts) + news && server.db == PerformAll(old(server.db), news)
      ensures testrunId == RunLeft(cfg, 0, old(server.db), server.db)
      ensures testplanId == PlanUsed(cfg, old(testplanId), server.db)
    {
      ghost var before, posts := server.db, server.posts;
      PlanIsThere(cfg, before);
      PlanThenRun(cfg, before, AsSet(keys));
      FindOrAddPlan();
      ghost var mid := server.db;
      InPlanLeaves(cfg, mid, testplanId, AsSet(keys));
      var entry := FindNamed(server.db.entries[testplanId], cfg.runName);
      if entry.Some? {
        ExtendEntry(entry.value, keys);
      } else {
        AddEntry(keys);
      }
      ghost var rest := InPlanPosts(cfg, mid, testplanId, AsSet(keys));
      InOrder(posts, PlanPosts(cfg, before), rest);
      PerformAllAppend(before, PlanPosts(cfg, before), rest);
    }

    /** A run named outside any plan. */
    method ReconcileOutsidePlans(keys: seq<nat>) returns (raised: bool)
      requires Consistent(server.db) && cfg.runName != "" && cfg.planName == ""
      modifies this`testrunId, server
      ensures raised == Raises(cfg, old(testrunId), old(server.db))
      ensures raised ==> server.db == old(server.db) && server.posts == old(server.posts)
      ensures !raised ==>
                var news := Reconciliation(cfg, old(testrunId), old(server.db), AsSet(keys));
                server.posts == old(server.posts) + news && server.db == PerformAll(old(server.db), news)
      ensures !raised ==> testrunId == RunLeft(cfg, old(testrunId), old(server.db), server.db)
    {
      raised := false;
      var found := FindNamed(server.db.runs, cfg.runName);
      if found.Some? {
        var run := FindNamed(Open(server.db.runs), cfg.runName);
        if run.None? {
          return true;
        }
        TargetIsKnown(cfg, testrunId, server.db);
        ExtendsExistingRun(cfg, testrunId, server.db, AsSet(keys));
        testrunId := run.value.id;
        var updateTrKeys, more := UpdatedKeys(testrunId, keys);
        PerformOne(server.db, UpdateRun(testrunId, updateTrKeys));
        if more {
          server.Send(UpdateRun(testrunId, updateTrKeys));
        }
      } else {
        OpenRows(server.db.runs);
        NotNamedNotOpen(server.db.runs, cfg.runName);
        AddRunConsistent(server.db, cfg.runName, cfg.includeAll, AsSet(keys));
        PerformOne(server.db, AddRun(cfg.runName, cfg.includeAll, AsSet(keys)));
        testrunId := server.db.nextId;
        server.Send(AddRun(cfg.runName, cfg.includeAll, AsSet(keys)));
      }
    }

    /** After collection, the run the session will publish to is the one it has reconciled or
        created, which is the one its options name on the server as it now is. */
    method CollectionModifyItems(items: seq<TestItem>) returns (raised: bool)
      requires Consistent(server.db)
      modifies this, server
      ensures raised == Raises(cfg, old(testrunId), old(server.db))
      ensures raised ==> server.db == old(server.db) && server.posts == old(server.posts)
      ensures !raised ==>
                var news := Reconciliation(cfg, old(testrunId), old(server.db), AsSet(CollectedKeys(items)));
                server.posts == old(server.posts) + news && server.db == PerformAll(old(server.db), news)
      ensures !raised && cfg.runName == "" ==> Publishes(cfg, testrunId, testplanId, server.db) == Nowhere
      ensures !raised && cfg.runName != "" ==>
                && Target(cfg, old(testrunId), server.db).Some?
                && Publishes(cfg, testrunId, testplanId, server.db) == At(Target(cfg, old(testrunId), server.db).value)
      ensures !raised ==> testrunId == RunLeft(cfg, old(testrunId), old(server.db), server.db)
      ensures !raised ==> testplanId == PlanUsed(cfg, old(testplanId), server.db)
      ensures results == old(results) && seen == old(seen)
      ensures old(seen) == [] && old(Collecting()) ==> Collecting()
    {
      if cfg.rules.mergeParametrize {
        nameTests := map[];
      }
      var keys := TestrailKeys(items);
      raised := false;
      if cfg.runName == "" {
        testrunId, testplanId := 0, 0;
      } else if testrunId != 0 && cfg.planName != "" {
        raised := ExtendNumberedRun(keys);
      } else if cfg.planName != "" {
        ReconcileInPlan(keys);
      } else {
        raised := ReconcileOutsidePlans(keys);
      }
      if !raised && cfg.runName != "" {
        LeftIdsPublish(cfg, old(testrunId), old(testplanId), old(server.db), AsSet(keys));
      }
    }

    // ----- pytest_runtest_makereport -----

    method AddResult(rep: Report, testIds: seq<nat>)
      modifies this`results
      ensures results == old(results) + ResultsOf(rep, testIds)
      ensures |results| == |old(results)| + |testIds|
      ensures forall i :: 0 <= i < |testIds| ==>
                var status := match rep.outcome case Passed => 1 case Skipped => 2 case Failed => 5;
                results[|old(results)| + i] == Result(testIds[i], status, rep.defects, rep.comment)
    {
      ResultsOfEach(rep, testIds);
      for i := 0 to |testIds|
        invariant results == old(results) + ResultsOf(rep, testIds[..i])
      {
        assert testIds[..i + 1][..i] == testIds[..i];
        results := results + [Result(testIds[i], StatusOf(rep.outcome), rep.defects, rep.comment)];
      }
      assert testIds[..|testIds|] == testIds;
    }

    method MakeReport(rep: Report)
      requires Collecting()
      modifies this`results, this`nameTests, this`seen
      ensures Collecting() && seen == old(seen) + [rep]
    {
      OneMoreRecord(cfg.rules, seen, rep);
      if cfg.rules.mergeParametrize {
        OneMoreRemembered(cfg.rules, seen, rep, nameTests);
      }
      if rep.marker.Some? && ((rep.when == "call" && rep.marker.value != []) ||
                              (rep.outcome == Failed && rep.marker.value != [] && cfg.rules.publishErrors)) {
        if cfg.rules.mergeParametrize {
          var testName := BaseName(rep.nodeid);
          if testName !in nameTests {
            nameTests := nameTests[testName := rep.outcome];
            AddResult(rep, rep.marker.value);
          } else if rep.outcome == Failed {
            if nameTests[testName] == Passed {
              AddResult(rep, rep.marker.value);
              nameTests := nameTests[testName := rep.outcome];
            }
          }
        } else {
          AddResult(rep, rep.marker.value);
        }
      }
      seen := seen + [rep];
    }

    // ----- pytest_sessionfinish -----

    method BuildEntries() returns (entries: seq<Entry>)
      ensures entries == EntriesOf(results, cfg.version)
    {
      entries := [];
      for i := 0 to |results|
        invariant entries == EntriesOf(results[..i], cfg.version)
      {
        assert results[..i + 1][..i] == results[..i];
        entries := entries + [Entry(results[i].statusId, results[i].caseId, results[i].defects, cfg.version)];
      }
      assert results[..|results|] == results;
    }

    /** Sorts the results by case, drops excluded ones and posts the rest in one request. */
    method AddResults(runId: nat) returns (raised: bool)
      modifies this`results, server
      ensures raised == (!cfg.publishBlocked && runId !in old(server.db).tests)
      ensures raised ==> server.db == old(server.db) && server.posts == old(server.posts)
      ensures !raised ==>
                var news := Publication(cfg, old(server.db), runId, old(results));
                && results == Selected(cfg, old(server.db), runId, old(results))
                && server.posts == old(server.posts) + news && server.db == PerformAll(old(server.db), news)
    {
      raised := false;
      results := SortByCase(results);
      if !cfg.publishBlocked {
        if runId !in server.db.tests {
          return true;
        }
        var blocked := set c | c in server.db.tests[runId] && server.db.tests[runId][c] == BLOCKED;
        results := Without(results, blocked);
      } else {
        WithoutNothing(results);
      }
      var entries := BuildEntries();
      PerformOne(server.db, TestRailServer.AddResults(runId, entries));
      server.Send(TestRailServer.AddResults(runId, entries));
    }

    method CloseIfComplete()
      modifies server
      ensures var news := Closing(cfg, testrunId, testplanId);
              server.posts == old(server.posts) + news && server.db == PerformAll(old(server.db), news)
    {
      if cfg.closeOnComplete && testrunId != 0 {
        PerformOne(server.db, CloseRun(testrunId));
        server.Send(CloseRun(testrunId));
      } else if cfg.closeOnComplete && testplanId != 0 {
        PerformOne(server.db, ClosePlan(testplanId));
        server.Send(ClosePlan(testplanId));
      }
    }

    /** Nothing happens without results or without a run; otherwise the selected results go to
        the run, and then the run or the plan is closed if so configured. */
    method SessionFinish() returns (raised: bool)
      modifies this`results, server
      ensures var news := FinishPosts(cfg, testrunId, testplanId, old(server.db), old(results));
              && raised == news.None?
              && (raised ==> server.posts == old(server.posts) && server.db == old(server.db))
              && (!raised ==>
                 server.posts == old(server.posts) + news.value && server.db == PerformAll(old(server.db), news.value))
    {
      raised := false;
      if results != [] {
        ghost var before, collected, posts := server.db, results, server.posts;
        assert posts + [] == posts;
        var run := testrunId;
        if testrunId == 0 {
          if testplanId == 0 {
            return;
          }
          var found := GetTestrunIdInTestplan();
          if found.None? {
            return true;
          }
          run := found.value;
        }
        assert Publishes(cfg, testrunId, testplanId, before) == At(run);
        raised := AddResults(run);
        if !raised {
          CloseIfComplete();
          ghost var sent, closed := Publication(cfg, before, run, collected), Closing(cfg, testrunId, testplanId);
          PerformAllAppend(before, sent, closed);
          InOrder(posts, sent, closed);
        }
      }
    }
  }

  lemma InOrder(a: seq<Post>, b: seq<Post>, c: seq<Post>)
    ensures (a + b) + c == a + (b + c)
  {
  }

  // ----- The plugin's memory of outcomes -----

  predicate RememberedAs(names: map<string, Outcome>, base: string, kept: seq<Outcome>)
  {
    (base in names <==> kept != []) && (kept != [] ==> names[base] == kept[|kept| - 1])
  }

  /** What is remembered for each base test is the last outcome recorded for it. */
  ghost predicate Remembers(rules: Rules, seen: seq<Report>, names: map<string, Outcome>)
  {
    forall base :: RememberedAs(names, base, Merged(EligibleOutcomes(rules, seen, base)))
  }

  lemma OneMoreOutcome(rules: Rules, seen: seq<Report>, rep: Report, base: string)
    ensures EligibleOutcomes(rules, seen + [rep], base) ==
            EligibleOutcomes(rules, seen, base) +
            if Eligible(rules, rep) && BaseName(rep.nodeid) == base then [rep.outcome] else []
  {
    assert (seen + [rep])[..|seen|] == seen;
  }

  /** The memory decides what the definition of Records asks for. */
  lemma MemoryDecides(rules: Rules, seen: seq<Report>, rep: Report, names: map<string, Outcome>)
    requires rules.mergeParametrize && Remembers(rules, seen, names) && Eligible(rules, rep)
    ensures var base := BaseName(rep.nodeid);
            Records(rules, seen, rep) <==> base !in names || (rep.outcome == Failed && names[base] == Passed)
  {
    assert RememberedAs(names, BaseName(rep.nodeid), Merged(EligibleOutcomes(rules, seen, BaseName(rep.nodeid))));
  }

  /** One base test's entry in the memory, after one more report. */
  lemma RememberedStep(rules: Rules, seen: seq<Report>, rep: Report, names: map<string, Outcome>, base: string)
    requires rules.mergeParametrize && RememberedAs(names, base, Merged(EligibleOutcomes(rules, seen, base)))
    ensures RememberedAs(if Records(rules, seen, rep) then names[BaseName(rep.nodeid) := rep.outcome] else names, base,
                         Merged(EligibleOutcomes(rules, seen + [rep], base)))
  {
    OneMoreOutcome(rules, seen, rep, base);
    if Eligible(rules, rep) && BaseName(rep.nodeid) == base {
      MergedStep(EligibleOutcomes(rules, seen, base), rep.outcome);
    } else {
      assert EligibleOutcomes(rules, seen + [rep], base) == EligibleOutcomes(rules, seen, base);
    }
  }

  /** The memory decides what is recorded, and is kept up by it. */
  lemma OneMoreRemembered(rules: Rules, seen: seq<Report>, rep: Report, names: map<string, Outcome>)
    requires rules.mergeParametrize && Remembers(rules, seen, names)
    ensures var base := BaseName(rep.nodeid);
            && (Eligible(rules, rep) ==>
                  (Records(rules, seen, rep) <==> base !in names || (rep.outcome == Failed && names[base] == Passed)))
            && Remembers(rules, seen + [rep], if Records(rules, seen, rep) then names[base := rep.outcome] else names)
  {
    if Eligible(rules, rep) {
      MemoryDecides(rules, seen, rep, names);
    }
    var after := if Records(rules, seen, rep) then names[BaseName(rep.nodeid) := rep.outcome] else names;
    forall base
      ensures RememberedAs(after, base, Merged(EligibleOutcomes(rules, seen + [rep], base)))
    {
      RememberedStep(rules, seen, rep, names, base);
    }
  }

  lemma OneMoreRecord(rules: Rules, seen: seq<Report>, rep: Report)
    ensures (forall r :: r in Recorded(rules, seen + [rep]) ==> r.marker.Some?) &&
            (forall r :: r in Recorded(rules, seen) ==> r.marker.Some?)
    ensures AllResults(Recorded(rules, seen + [rep])) ==
            AllResults(Recorded(rules, seen)) +
            if Records(rules, seen, rep) then ResultsOf(rep, rep.marker.value) else []
  {
    RecordedAreMarked(rules, seen + [rep]);
    RecordedAreMarked(rules, seen);
    assert (seen + [rep])[..|seen|] == seen;
    var front := Recorded(rules, seen);
    if Records(rules, seen, rep) {
      assert (front + [rep])[..|front|] == front;
    } else {
      assert Recorded(rules, seen + [rep]) == front;
    }
  }
}
