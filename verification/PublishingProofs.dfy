/** What publishing amounts to: the posted list, the statuses the server ends with, and the
    verdict that the results of a merged test stand for. */
module PublishingProofs {
  import opened Wrappers
  import opened Results
  import opened TestRailServer
  import opened Reconciling
  import opened Publishing

  // ----- The posted list -----

  /** The posted results are sorted by case; each case that is not excluded keeps all its
      results in execution order, and excluded cases have none. By StableSortIsUnique no other
      list is so. */
  lemma PostedSelection(cfg: Config, db: Database, runId: nat, results: seq<Result>, c: nat)
    ensures var posted, excluded := Selected(cfg, db, runId, results), Excluded(cfg, db, runId);
            && SortedByCase(posted)
            && ForCase(posted, c) == (if c in excluded then [] else ForCase(results, c))
            && (c in excluded <==>
               !cfg.publishBlocked && runId in db.tests && c in db.tests[runId] && db.tests[runId][c] == BLOCKED)
  {
    SortIsStable(results, c);
    WithoutSorted(SortByCase(results), Excluded(cfg, db, runId));
    WithoutForCase(SortByCase(results), Excluded(cfg, db, runId), c);
  }

  /** The request goes to that run, with one entry for each selected result, in order. */
  lemma PostedEntries(cfg: Config, db: Database, runId: nat, results: seq<Result>)
    ensures var posted, news := Selected(cfg, db, runId, results), Publication(cfg, db, runId, results);
            && |news| == 1 && news[0].AddResults? && news[0].runId == runId && |news[0].results| == |posted|
            && forall i :: 0 <= i < |posted| ==>
                 news[0].results[i] == Entry(posted[i].statusId, posted[i].caseId, posted[i].defects, cfg.version)
  {
  }

  /** The posted list is sorted by status within each case exactly if no posted case got better. */
  lemma PostedByStatusToo(cfg: Config, db: Database, runId: nat, results: seq<Result>)
    ensures SortedByCaseAndStatus(Selected(cfg, db, runId, results)) <==>
            forall c :: c !in Excluded(cfg, db, runId) ==> CaseWorsens(results, c)
  {
    var posted, excluded := Selected(cfg, db, runId, results), Excluded(cfg, db, runId);
    PostedSelection(cfg, db, runId, results, 0);
    StatusOrder(posted);
    forall c
      ensures CaseWorsens(posted, c) <==> (c !in excluded ==> CaseWorsens(results, c))
    {
      PostedSelection(cfg, db, runId, results, c);
    }
  }

  // ----- Statuses on the server -----

  lemma EntriesOfAppend(results: seq<Result>, r: Result, version: string)
    ensures EntriesOf(results + [r], version) ==
            EntriesOf(results, version) + [Entry(r.statusId, r.caseId, r.defects, version)]
  {
    assert (results + [r])[..|results|] == results;
  }

  lemma {:induction false} LastResultWins(tests: map<nat, nat>, results: seq<Result>, version: string, c: nat)
    requires c in tests
    ensures var after, mine := ApplyResults(tests, EntriesOf(results, version)), ForCase(results, c);
            c in after && after[c] == if mine == [] then tests[c] else mine[|mine| - 1].statusId
  {
    if results != [] {
      var front, last := results[..|results| - 1], results[|results| - 1];
      LastResultWins(tests, front, version, c);
      assert results == front + [last];
      EntriesOfAppend(front, last, version);
      ApplyResultsAppend(tests, EntriesOf(front, version), Entry(last.statusId, last.caseId, last.defects, version));
      ForCaseAppend(front, last, c);
    }
  }

  lemma ApplyResultsAppend(tests: map<nat, nat>, entries: seq<Entry>, e: Entry)
    ensures ApplyResults(tests, entries + [e]) == ApplyResults(tests, entries)[e.caseId := e.statusId]
  {
    assert (entries + [e])[..|entries|] == entries;
  }

  lemma SelectedAreAccepted(cfg: Config, db: Database, runId: nat, results: seq<Result>)
    requires runId in db.tests && forall r :: r in results ==> r.caseId in db.tests[runId]
    ensures Accepts(db, runId, EntriesOf(Selected(cfg, db, runId, results), cfg.version))
  {
    var posted := Selected(cfg, db, runId, results);
    forall i | 0 <= i < |posted|
      ensures posted[i].caseId in db.tests[runId]
    {
      var c := posted[i].caseId;
      PostedSelection(cfg, db, runId, results, c);
      ForCaseMembers(posted, c);
      ForCaseMembers(results, c);
    }
  }

  /** When the run has all the cases, the results are taken. */
  lemma PublicationApplies(cfg: Config, db: Database, runId: nat, results: seq<Result>)
    requires runId in db.tests && forall r :: r in results ==> r.caseId in db.tests[runId]
    ensures PerformAll(db, Publication(cfg, db, runId, results)) ==
            db.(tests := db.tests[runId :=
              ApplyResults(db.tests[runId], EntriesOf(Selected(cfg, db, runId, results), cfg.version))])
  {
    SelectedAreAccepted(cfg, db, runId, results);
    PerformOne(db, Publication(cfg, db, runId, results)[0]);
  }

  /** The status a case of a run has once the results are published there. */
  function StatusAfter(cfg: Config, db: Database, runId: nat, results: seq<Result>, c: nat): Option<nat>
  {
    var end := PerformAll(db, Publication(cfg, db, runId, results));
    if runId in end.tests && c in end.tests[runId] then Some(end.tests[runId][c]) else None
  }

  /** When the run has all the cases, publishing sets each case with results to the status of
      its last result in execution order; other cases, and excluded ones, keep theirs. */
  lemma StatusesAfterPublication(cfg: Config, db: Database, runId: nat, results: seq<Result>, c: nat)
    requires runId in db.tests && forall r :: r in results ==> r.caseId in db.tests[runId]
    requires c in db.tests[runId]
    ensures var mine := ForCase(results, c);
            StatusAfter(cfg, db, runId, results, c) ==
            Some(if mine == [] || c in Excluded(cfg, db, runId) then db.tests[runId][c] else mine[|mine| - 1].statusId)
  {
    PublicationApplies(cfg, db, runId, results);
    PostedSelection(cfg, db, runId, results, c);
    LastResultWins(db.tests[runId], Selected(cfg, db, runId, results), cfg.version, c);
  }

  // ----- Same run, whatever happens in between -----

  lemma PerformKeepsRunInPlan(db: Database, post: Post, planId: nat, runName: string)
    requires Consistent(db) && RunInPlan(db, planId, runName).Some?
    ensures RunInPlan(Perform(db, post), planId, runName) == RunInPlan(db, planId, runName)
  {
    FirstNamedFound(db.entries[planId], runName);
    assert EntriesLinked(db, planId);
    if post.AddPlanEntry? && post.planId == planId {
      FirstNamedAppend(db.entries[planId], Row(db.nextId + 1, post.name, false), runName);
    }
  }

  /** Between collection and the end of the session, any of the modelled requests may reach the
      server, and none of these deletes or renames anything: the session still publishes to the
      run that collection left it with. */
  lemma {:induction false} PublishesToTheSameRun(cfg: Config, runId: nat, planId: nat, db: Database, posts: seq<Post>)
    requires Consistent(db) && Publishes(cfg, runId, planId, db).At?
    ensures Consistent(PerformAll(db, posts))
    ensures Publishes(cfg, runId, planId, PerformAll(db, posts)) == Publishes(cfg, runId, planId, db)
  {
    if posts != [] {
      var front, last := posts[..|posts| - 1], posts[|posts| - 1];
      PublishesToTheSameRun(cfg, runId, planId, db, front);
      PerformConsistent(PerformAll(db, front), last);
      if runId == 0 {
        PerformKeepsRunInPlan(PerformAll(db, front), last, planId, cfg.runName);
      }
    }
  }

  // ----- The verdict of a merged, parametrized test -----

  lemma {:induction false} ForCaseConcat(a: seq<Result>, b: seq<Result>, c: nat)
    ensures ForCase(a + b, c) == ForCase(a, c) + ForCase(b, c)
  {
    if b == [] {
      assert a + b == a;
    } else {
      assert (a + b)[..|a + b| - 1] == a + b[..|b| - 1];
      ForCaseConcat(a, b[..|b| - 1], c);
    }
  }

  lemma {:induction false} ResultsOfReport(r: Report, ids: seq<nat>, c: nat)
    ensures var mine := ForCase(ResultsOf(r, ids), c);
            && (mine != [] <==> c in ids)
            && (forall i :: 0 <= i < |mine| ==> mine[i].statusId == StatusOf(r.outcome))
    ensures forall x :: x in ResultsOf(r, ids) ==> x.caseId in ids
  {
    if ids != [] {
      ResultsOfReport(r, ids[..|ids| - 1], c);
      var last := Result(ids[|ids| - 1], StatusOf(r.outcome), r.defects, r.comment);
      ForCaseAppend(ResultsOf(r, ids[..|ids| - 1]), last, c);
    }
  }

  /** The case belongs to that base test and to no other. */
  ghost predicate Owns(reports: seq<Report>, base: string, c: nat)
  {
    forall r :: r in reports ==> r.marker.Some? && (c in r.marker.value <==> BaseName(r.nodeid) == base)
  }

  lemma {:induction false} LastStatusIsLastOutcome(reports: seq<Report>, base: string, c: nat)
    requires Owns(reports, base, c)
    ensures var mine, outcomes := ForCase(AllResults(reports), c), OutcomesOf(reports, base);
            && (mine == [] <==> outcomes == [])
            && (mine != [] ==> mine[|mine| - 1].statusId == StatusOf(outcomes[|outcomes| - 1]))
  {
    if reports != [] {
      var front, last := reports[..|reports| - 1], reports[|reports| - 1];
      assert last in reports;
      LastStatusIsLastOutcome(front, base, c);
      ResultsOfReport(last, last.marker.value, c);
      ForCaseConcat(AllResults(front), ResultsOf(last, last.marker.value), c);
    }
  }

  lemma {:induction false} RecordedAreEligible(rules: Rules, reports: seq<Report>)
    ensures forall r :: r in Recorded(rules, reports) ==> r in reports && Eligible(rules, r)
  {
    if reports != [] {
      RecordedAreEligible(rules, reports[..|reports| - 1]);
    }
  }

  lemma {:induction false} AllResultsAreMarked(reports: seq<Report>, keys: set<nat>)
    requires forall r :: r in reports ==> r.marker.Some? && forall c :: c in r.marker.value ==> c in keys
    ensures forall x :: x in AllResults(reports) ==> x.caseId in keys
  {
    if reports != [] {
      var last := reports[|reports| - 1];
      assert last in reports;
      AllResultsAreMarked(reports[..|reports| - 1], keys);
      ResultsOfReport(last, last.marker.value, 0);
    }
  }

  /** The results a session collects from its reports. */
  function SessionResults(rules: Rules, reports: seq<Report>): seq<Result>
  {
    RecordedAreMarked(rules, reports);
    AllResults(Recorded(rules, reports))
  }

  /** Each eligible report's cases were collected, and c is a case of that base test only. */
  ghost predicate Marks(rules: Rules, reports: seq<Report>, keys: set<nat>, base: string, c: nat)
  {
    forall r :: r in reports && Eligible(rules, r) ==>
      (forall k :: k in r.marker.value ==> k in keys) && (c in r.marker.value <==> BaseName(r.nodeid) == base)
  }

  /** What a merged test should show: failed if anything failed and passed if nothing did; but
      a skip in first place decides alone. */
  function Verdict(outcomes: seq<Outcome>): (status: nat)
    requires outcomes != []
    ensures outcomes[0] != Skipped ==> status == if Failed in outcomes then FAILED else PASSED
    ensures outcomes[0] == Skipped ==> status == BLOCKED
  {
    StatusOf(if outcomes[0] == Passed && Failed in outcomes then Failed else outcomes[0])
  }

  /** All results are of collected cases, and the last one of this case has this status. */
  ghost predicate Ends(results: seq<Result>, keys: set<nat>, c: nat, status: nat)
  {
    var mine := ForCase(results, c);
    (forall x :: x in results ==> x.caseId in keys) && c in keys && mine != [] && mine[|mine| - 1].statusId == status
  }

  lemma SessionResultsOfCase(rules: Rules, reports: seq<Report>, keys: set<nat>, base: string, c: nat)
    requires rules.mergeParametrize && Marks(rules, reports, keys, base, c) &&
             EligibleOutcomes(rules, reports, base) != []
    ensures Ends(SessionResults(rules, reports), keys, c, Verdict(EligibleOutcomes(rules, reports, base)))
  {
    var kept, results := Recorded(rules, reports), SessionResults(rules, reports);
    RecordedAreEligible(rules, reports);
    AllResultsAreMarked(kept, keys);
    LastStatusIsLastOutcome(kept, base, c);
    MergedRecord(rules, reports, base);
    ForCaseMembers(results, c);
  }
}
