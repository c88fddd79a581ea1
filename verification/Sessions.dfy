/** Whole sessions, from collection to publishing and closing: what one does to the server, and
    what any number of them amount to. */
module Sessions {
  import opened Wrappers
  import opened Results
  import opened TestRailServer
  import opened Reconciling
  import opened Publishing
  import opened PublishingProofs
  import opened TestRailPlugin

  /** The cases a session collects and the results of its tests. */
  datatype Session = Session(keys: set<nat>, results: seq<Result>)

  /** A session that raises in collection runs no tests and so publishes nothing. */
  function AfterSession(cfg: Config, runId: nat, planId: nat, db: Database, s: Session): Database
  {
    if Raises(cfg, runId, db) then db
    else
      var mid := AfterCollection(cfg, runId, db, s.keys);
      match FinishPosts(cfg, RunLeft(cfg, runId, db, mid), PlanUsed(cfg, planId, mid), mid, s.results)
      case None => mid
      case Some(posts) => PerformAll(mid, posts)
  }

  function AfterSessions(cfg: Config, runId: nat, planId: nat, db: Database, sessions: seq<Session>): Database
    decreases sessions
  {
    if sessions == [] then db
    else AfterSessions(cfg, runId, planId, AfterSession(cfg, runId, planId, db, sessions[0]), sessions[1..])
  }

  /** The hooks in the order in which pytest calls them. */
  method RunSession(plugin: Plugin, items: seq<TestItem>, reports: seq<Report>)
    requires Consistent(plugin.server.db) && plugin.seen == [] && plugin.Collecting()
    modifies plugin, plugin.server
    ensures plugin.server.db ==
            AfterSession(plugin.cfg, old(plugin.testrunId), old(plugin.testplanId), old(plugin.server.db),
                         Session(AsSet(CollectedKeys(items)), SessionResults(plugin.cfg.rules, reports)))
    ensures forall t :: KnownRun(plugin.cfg, old(plugin.testrunId), old(plugin.server.db), t) ==>
              GainsCollected(old(plugin.server.db), plugin.server.db, t, items)
  {
    ghost var db, runId, planId := plugin.server.db, plugin.testrunId, plugin.testplanId;
    var raised := plugin.CollectionModifyItems(items);
    if !raised {
      label Collected:
      for i := 0 to |reports|
        invariant plugin.Collecting() && plugin.seen == reports[..i]
        invariant plugin.testrunId == old@Collected(plugin.testrunId)
        invariant plugin.testplanId == old@Collected(plugin.testplanId)
        invariant plugin.server.db == old@Collected(plugin.server.db)
      {
        plugin.MakeReport(reports[i]);
        assert reports[..i + 1] == reports[..i] + [reports[i]];
      }
      assert reports[..|reports|] == reports;
    }
    raised := plugin.SessionFinish();
    forall t | KnownRun(plugin.cfg, runId, db, t)
      ensures GainsCollected(db, plugin.server.db, t, items)
    {
      CollectedCasesAdded(plugin.cfg, runId, planId, db, items, SessionResults(plugin.cfg.rules, reports), t);
    }
  }

  /** The run has its old cases and those of marked items that are not skipped, and no others. */
  ghost predicate GainsCollected(db: Database, after: Database, t: nat, items: seq<TestItem>)
  {
    && t in db.tests && t in after.tests
    && forall c :: c in after.tests[t] <==> c in db.tests[t] || exists i :: 0 <= i < |items| && Collects(items[i], c)
  }

  lemma CollectedCasesAdded(cfg: Config, runId: nat, planId: nat, db: Database, items: seq<TestItem>,
                            results: seq<Result>, t: nat)
    requires KnownRun(cfg, runId, db, t)
    ensures var s := Session(AsSet(CollectedKeys(items)), results);
            GainsCollected(db, AfterSession(cfg, runId, planId, db, s), t, items)
  {
    KnownRunGrows(cfg, runId, planId, db, Session(AsSet(CollectedKeys(items)), results), t);
    CollectedAre(items);
  }

  // ----- The run a session is about -----

  /** The cases it has after collection, and the status each of them then has. */
  function CasesAfter(cfg: Config, runId: nat, db: Database, keys: set<nat>): set<nat>
  {
    match Target(cfg, runId, db)
    case Some(t) => (if t in db.tests then db.tests[t].Keys else {}) + keys
    case None => if cfg.includeAll then db.suite else keys
  }

  function StatusBefore(cfg: Config, runId: nat, db: Database, c: nat): nat
  {
    match Target(cfg, runId, db)
    case Some(t) => if t in db.tests && c in db.tests[t] then db.tests[t][c] else UNTESTED
    case None => UNTESTED
  }

  function StatusIn(db: Database, t: nat, c: nat): Option<nat>
  {
    if t in db.tests && c in db.tests[t] then Some(db.tests[t][c]) else None
  }

  /** The number of the run, known beforehand or not. */
  function RunOf(cfg: Config, runId: nat, db: Database, keys: set<nat>): nat
  {
    match Target(cfg, runId, AfterCollection(cfg, runId, db, keys))
    case Some(t) => t
    case None => 0
  }

  lemma CollectionLeaves(cfg: Config, runId: nat, db: Database, keys: set<nat>, c: nat)
    requires Consistent(db) && cfg.runName != "" && !Raises(cfg, runId, db)
    ensures var mid, t := AfterCollection(cfg, runId, db, keys), RunOf(cfg, runId, db, keys);
            && t in mid.tests && mid.tests[t].Keys == CasesAfter(cfg, runId, db, keys)
            && StatusIn(mid, t, c) ==
               if c in CasesAfter(cfg, runId, db, keys) then Some(StatusBefore(cfg, runId, db, c)) else None
  {
    if Target(cfg, runId, db).Some? {
      ExtendsExistingRun(cfg, runId, db, keys);
    } else {
      CreatesMissingRun(cfg, runId, db, keys);
    }
  }

  // ----- Publishing and closing, one after the other -----

  function Published(cfg: Config, db: Database, t: nat, results: seq<Result>): Database
  {
    if results == [] then db else PerformAll(db, Publication(cfg, db, t, results))
  }

  /** What closing does: the run if its number is left, or else the plan. */
  function Closed(cfg: Config, run: nat, plan: nat, db: Database): Database
  {
    if !cfg.closeOnComplete then db
    else if run != 0 then db.(runs := Close(db.runs, run))
    else if plan != 0 then db.(plans := Close(db.plans, plan))
    else db
  }

  lemma ClosingCloses(cfg: Config, run: nat, plan: nat, db: Database)
    ensures PerformAll(db, Closing(cfg, run, plan)) == Closed(cfg, run, plan, db)
  {
    PerformOne(db, CloseRun(run));
    PerformOne(db, ClosePlan(plan));
  }

  lemma SessionInSteps(cfg: Config, runId: nat, planId: nat, db: Database, s: Session)
    requires Consistent(db) && cfg.runName != "" && !Raises(cfg, runId, db)
    ensures var mid := AfterCollection(cfg, runId, db, s.keys);
            var sent := Published(cfg, mid, RunOf(cfg, runId, db, s.keys), s.results);
            AfterSession(cfg, runId, planId, db, s) ==
            if s.results == [] then mid else Closed(cfg, RunLeft(cfg, runId, db, mid), PlanUsed(cfg, planId, mid), sent)
  {
    var mid := AfterCollection(cfg, runId, db, s.keys);
    LeftIdsPublish(cfg, runId, planId, db, s.keys);
    CollectionNamesRun(cfg, runId, db, s.keys);
    if s.results != [] {
      var run, plan := RunLeft(cfg, runId, db, mid), PlanUsed(cfg, planId, mid);
      var news := Publication(cfg, mid, RunOf(cfg, runId, db, s.keys), s.results);
      PerformAllAppend(mid, news, Closing(cfg, run, plan));
      ClosingCloses(cfg, run, plan, PerformAll(mid, news));
    }
  }

  /** With close_on_complete a session closes the plan if its run was found there by name, and
      the run otherwise. */
  lemma ClosingRequest(cfg: Config, runId: nat, planId: nat, db: Database, keys: set<nat>)
    requires Consistent(db) && cfg.runName != "" && !Raises(cfg, runId, db)
    ensures var mid := AfterCollection(cfg, runId, db, keys);
            var t, plan := Target(cfg, runId, mid), FirstNamed(Open(mid.plans), cfg.planName);
            var news := Closing(cfg, RunLeft(cfg, runId, db, mid), PlanUsed(cfg, planId, mid));
            && t.Some?
            && if !cfg.closeOnComplete then news == []
               else if cfg.planName != "" && runId == 0 && Target(cfg, runId, db).Some? then
                 plan.Some? && news == [ClosePlan(plan.value.id)]
               else news == [CloseRun(t.value)]
  {
    CollectionNamesRun(cfg, runId, db, keys);
    PlanIsKnown(cfg, AfterCollection(cfg, runId, db, keys));
  }

  /** Results go to the session's run in one request, and only then something may be closed;
      without results nothing is sent. */
  lemma EndRequests(cfg: Config, runId: nat, planId: nat, db: Database, s: Session)
    requires Consistent(db) && cfg.runName != "" && !Raises(cfg, runId, db)
    ensures var mid := AfterCollection(cfg, runId, db, s.keys);
            var t, run, plan := Target(cfg, runId, mid), RunLeft(cfg, runId, db, mid), PlanUsed(cfg, planId, mid);
            && t.Some?
            && FinishPosts(cfg, run, plan, mid, s.results) ==
               Some(if s.results == [] then []
                    else Publication(cfg, mid, t.value, s.results) + Closing(cfg, run, plan))
  {
    LeftIdsPublish(cfg, runId, planId, db, s.keys);
    CollectionNamesRun(cfg, runId, db, s.keys);
  }

  lemma {:induction false} ApplyKeepsCases(tests: map<nat, nat>, entries: seq<Entry>)
    requires forall e :: e in entries ==> e.caseId in tests
    ensures ApplyResults(tests, entries).Keys == tests.Keys
  {
    if entries != [] {
      assert entries[|entries| - 1] in entries;
      ApplyKeepsCases(tests, entries[..|entries| - 1]);
    }
  }

  /** After the other database, with other statuses in run t, which has exactly these cases. */
  ghost predicate OnlyStatuses(db: Database, after: Database, t: nat, cases: set<nat>)
  {
    t in after.tests && after.tests[t].Keys == cases && after == db.(tests := db.tests[t := after.tests[t]])
  }

  /** A request with results changes statuses of that run only; a foreign case spoils it all. */
  lemma ResultsKeepCases(db: Database, t: nat, entries: seq<Entry>)
    requires t in db.tests
    ensures var after := PerformAll(db, [AddResults(t, entries)]);
            && OnlyStatuses(db, after, t, db.tests[t].Keys)
            && ((exists i :: 0 <= i < |entries| && entries[i].caseId !in db.tests[t]) ==> after == db)
  {
    PerformOne(db, AddResults(t, entries));
    assert db.tests[t := db.tests[t]] == db.tests;
    if Accepts(db, t, entries) {
      ApplyKeepsCases(db.tests[t], entries);
    }
  }

  lemma PublishingKeepsCases(cfg: Config, db: Database, t: nat, results: seq<Result>)
    requires t in db.tests
    ensures OnlyStatuses(db, Published(cfg, db, t, results), t, db.tests[t].Keys)
  {
    ResultsKeepCases(db, t, EntriesOf(Selected(cfg, db, t, results), cfg.version));
    assert db.tests[t := db.tests[t]] == db.tests;
  }

  // ----- Statuses -----

  predicate AllIn(results: seq<Result>, cases: set<nat>)
  {
    forall r :: r in results ==> r.caseId in cases
  }

  /** A case's status after a session that had this one before: its last result counts, unless
      blocked cases are held back and it is one; and one result foreign to the run spoils all. */
  function StatusNext(cfg: Config, cases: set<nat>, status: nat, results: seq<Result>, c: nat): nat
  {
    var mine := ForCase(results, c);
    if mine == [] || !AllIn(results, cases) || (!cfg.publishBlocked && status == BLOCKED) then status
    else mine[|mine| - 1].statusId
  }

  lemma ForeignResultIsPosted(cfg: Config, db: Database, t: nat, results: seq<Result>) returns (j: nat)
    requires t in db.tests && !AllIn(results, db.tests[t].Keys)
    ensures var posted := Selected(cfg, db, t, results); j < |posted| && posted[j].caseId !in db.tests[t]
  {
    var i :| 0 <= i < |results| && results[i].caseId !in db.tests[t];
    var c := results[i].caseId;
    PostedSelection(cfg, db, t, results, c);
    ForCaseMembers(results, c);
    ForCaseMembers(Selected(cfg, db, t, results), c);
    j :| 0 <= j < |Selected(cfg, db, t, results)| && Selected(cfg, db, t, results)[j].caseId == c;
  }

  lemma ForeignResultSpoilsAll(cfg: Config, db: Database, t: nat, results: seq<Result>)
    requires t in db.tests && !AllIn(results, db.tests[t].Keys)
    ensures Published(cfg, db, t, results) == db
  {
    var j := ForeignResultIsPosted(cfg, db, t, results);
    var entries := EntriesOf(Selected(cfg, db, t, results), cfg.version);
    assert entries[j].caseId !in db.tests[t];
    ResultsKeepCases(db, t, entries);
  }

  lemma PublishedStatus(cfg: Config, db: Database, t: nat, results: seq<Result>, c: nat)
    requires t in db.tests && c in db.tests[t]
    ensures StatusIn(Published(cfg, db, t, results), t, c) ==
            Some(StatusNext(cfg, db.tests[t].Keys, db.tests[t][c], results, c))
  {
    if AllIn(results, db.tests[t].Keys) {
      if results != [] {
        StatusesAfterPublication(cfg, db, t, results, c);
      }
    } else {
      ForeignResultSpoilsAll(cfg, db, t, results);
    }
  }

  /** Every case's status after any session: collection leaves it as it was, or untested, and
      publishing sets it to the case's last result. */
  lemma SessionStatus(cfg: Config, runId: nat, planId: nat, db: Database, s: Session, c: nat)
    requires Consistent(db) && cfg.runName != "" && !Raises(cfg, runId, db)
    ensures var cases := CasesAfter(cfg, runId, db, s.keys);
            StatusIn(AfterSession(cfg, runId, planId, db, s), RunOf(cfg, runId, db, s.keys), c) ==
            if c in cases then Some(StatusNext(cfg, cases, StatusBefore(cfg, runId, db, c), s.results, c)) else None
  {
    var mid, t := AfterCollection(cfg, runId, db, s.keys), RunOf(cfg, runId, db, s.keys);
    SessionInSteps(cfg, runId, planId, db, s);
    CollectionLeaves(cfg, runId, db, s.keys, c);
    PublishingKeepsCases(cfg, mid, t, s.results);
    if c in mid.tests[t] {
      PublishedStatus(cfg, mid, t, s.results, c);
    }
  }

  /** A whole session with merging, whatever its configuration: for a case marked on one
      parametrized test, the server ends with the verdict on all of that test's eligible
      reports, unless the case is held back or a result is foreign to the run. */
  lemma SessionVerdict(cfg: Config, runId: nat, planId: nat, db: Database, keys: set<nat>, reports: seq<Report>,
                       base: string, c: nat)
    requires Consistent(db) && cfg.runName != "" && !Raises(cfg, runId, db) && cfg.rules.mergeParametrize
    requires Marks(cfg.rules, reports, keys, base, c) && EligibleOutcomes(cfg.rules, reports, base) != []
    ensures var s, cases := Session(keys, SessionResults(cfg.rules, reports)), CasesAfter(cfg, runId, db, keys);
            var status := StatusIn(AfterSession(cfg, runId, planId, db, s), RunOf(cfg, runId, db, keys), c);
            var before := StatusBefore(cfg, runId, db, c);
            if AllIn(s.results, cases) then
              status == Some(if !cfg.publishBlocked && before == BLOCKED then BLOCKED
                             else Verdict(EligibleOutcomes(cfg.rules, reports, base)))
            else status == if c in cases then Some(before) else None
    ensures Target(cfg, runId, db).Some? || !cfg.includeAll || keys <= db.suite ==>
              AllIn(SessionResults(cfg.rules, reports), CasesAfter(cfg, runId, db, keys))
  {
    var s := Session(keys, SessionResults(cfg.rules, reports));
    SessionStatus(cfg, runId, planId, db, s, c);
    SessionResultsOfCase(cfg.rules, reports, keys, base, c);
    ForCaseMembers(s.results, c);
  }

  // ----- A run that is already there -----

  ghost predicate KnownRun(cfg: Config, runId: nat, db: Database, t: nat)
  {
    Consistent(db) && cfg.runName != "" && !Raises(cfg, runId, db) && Target(cfg, runId, db) == Some(t)
  }

  /** The session closes what the next one would look its run up by. A run within a plan that
      is given by number, or has just been created, is closed itself, and found all the same. */
  predicate Closes(cfg: Config, runId: nat, known: bool, s: Session)
  {
    cfg.closeOnComplete && s.results != [] && (cfg.planName == "" || (runId == 0 && known))
  }

  /** After the other database, run t has exactly these cases; nothing else is different but
      statuses in it, and what closing has completed. */
  ghost predicate Grown(cfg: Config, db: Database, after: Database, t: nat, cases: set<nat>)
  {
    && t in after.tests && after.tests[t].Keys == cases
    && after == db.(tests := db.tests[t := after.tests[t]], runs := after.runs, plans := after.plans)
    && (!cfg.closeOnComplete ==> after.runs == db.runs && after.plans == db.plans)
  }

  lemma SessionConsistent(cfg: Config, runId: nat, planId: nat, db: Database, s: Session)
    requires Consistent(db)
    ensures Consistent(AfterSession(cfg, runId, planId, db, s))
  {
    if !Raises(cfg, runId, db) {
      var mid := AfterCollection(cfg, runId, db, s.keys);
      PerformAllConsistent(db, Reconciliation(cfg, runId, db, s.keys));
      match FinishPosts(cfg, RunLeft(cfg, runId, db, mid), PlanUsed(cfg, planId, mid), mid, s.results)
      case None =>
      case Some(posts) => PerformAllConsistent(mid, posts);
    }
  }

  lemma SelectingKeepsRest(db: Database, t: nat, cases: set<nat>)
    requires t in db.tests
    ensures OnlyStatuses(db, Select(db, t, cases), t, cases)
  {
  }

  lemma OnlyStatusesTwice(db: Database, mid: Database, after: Database, t: nat, before: set<nat>, cases: set<nat>)
    requires OnlyStatuses(db, mid, t, before) && OnlyStatuses(mid, after, t, cases)
    ensures OnlyStatuses(db, after, t, cases)
  {
  }

  lemma ClosingKeepsStatuses(cfg: Config, run: nat, plan: nat, db: Database, after: Database, t: nat, cases: set<nat>)
    requires OnlyStatuses(db, after, t, cases)
    ensures OnlyStatuses(Closed(cfg, run, plan, db), Closed(cfg, run, plan, after), t, cases)
  {
  }

  /** Collection on a run that is there, then publishing. */
  lemma KnownRunPublished(cfg: Config, runId: nat, planId: nat, db: Database, s: Session, t: nat)
    requires KnownRun(cfg, runId, db, t)
    ensures var mid := AfterCollection(cfg, runId, db, s.keys);
            && t in db.tests && RunOf(cfg, runId, db, s.keys) == t
            && OnlyStatuses(db, Published(cfg, mid, t, s.results), t, db.tests[t].Keys + s.keys)
            && RunLeft(cfg, runId, db, mid) == RunLeft(cfg, runId, db, db) &&
               PlanUsed(cfg, planId, mid) == PlanUsed(cfg, planId, db)
  {
    var mid := AfterCollection(cfg, runId, db, s.keys);
    ExtendsExistingRun(cfg, runId, db, s.keys);
    var cases := db.tests[t].Keys + s.keys;
    SelectingKeepsRest(db, t, cases);
    PublishingKeepsCases(cfg, mid, t, s.results);
    OnlyStatusesTwice(db, mid, Published(cfg, mid, t, s.results), t, cases, cases);
  }

  /** One session on a run that is there, to the letter: what it has closed included. */
  lemma KnownRunAfter(cfg: Config, runId: nat, planId: nat, db: Database, s: Session, t: nat)
    requires KnownRun(cfg, runId, db, t)
    ensures var after := AfterSession(cfg, runId, planId, db, s);
            && t in db.tests && RunOf(cfg, runId, db, s.keys) == t
            && OnlyStatuses(if s.results == [] then db
                            else Closed(cfg, RunLeft(cfg, runId, db, db), PlanUsed(cfg, planId, db), db),
                            after, t, db.tests[t].Keys + s.keys)
  {
    KnownRunPublished(cfg, runId, planId, db, s, t);
    SessionInSteps(cfg, runId, planId, db, s);
    ClosingKeepsStatuses(cfg, RunLeft(cfg, runId, db, db), PlanUsed(cfg, planId, db), db,
                         Published(cfg, AfterCollection(cfg, runId, db, s.keys), t, s.results), t,
                         db.tests[t].Keys + s.keys);
  }

  /** One session on a run that is there adds the missing cases, and unless it closes, the run
      is still the one that the options name. */
  lemma KnownRunGrows(cfg: Config, runId: nat, planId: nat, db: Database, s: Session, t: nat)
    requires KnownRun(cfg, runId, db, t)
    ensures var after := AfterSession(cfg, runId, planId, db, s);
            && t in db.tests && Grown(cfg, db, after, t, db.tests[t].Keys + s.keys)
            && (!Closes(cfg, runId, true, s) ==> KnownRun(cfg, runId, after, t))
  {
    KnownRunAfter(cfg, runId, planId, db, s, t);
    SessionConsistent(cfg, runId, planId, db, s);
  }

  function Union(sessions: seq<Session>): set<nat>
  {
    if sessions == [] then {} else sessions[0].keys + Union(sessions[1..])
  }

  lemma GrownTwice(cfg: Config, db: Database, mid: Database, after: Database, t: nat, a: set<nat>, b: set<nat>)
    requires Grown(cfg, db, mid, t, a) && Grown(cfg, mid, after, t, b)
    ensures Grown(cfg, db, after, t, b)
  {
    assert db.tests[t := mid.tests[t]][t := after.tests[t]] == db.tests[t := after.tests[t]];
  }

  /** Any number of sessions that do not close it, each publishing its results: the run stays
      the named one, ends with exactly its initial cases and all collected ones, and nothing
      else changes but statuses in it. */
  lemma {:induction false} RunEndsAsUnion(cfg: Config, runId: nat, planId: nat, db: Database,
                                          sessions: seq<Session>, t: nat)
    requires KnownRun(cfg, runId, db, t) && forall s :: s in sessions ==> !Closes(cfg, runId, true, s)
    ensures var after := AfterSessions(cfg, runId, planId, db, sessions);
            && t in db.tests && KnownRun(cfg, runId, after, t) &&
               Grown(cfg, db, after, t, db.tests[t].Keys + Union(sessions))
    decreases sessions
  {
    KnownRunGrows(cfg, runId, planId, db, if sessions == [] then Session({}, []) else sessions[0], t);
    var cases := db.tests[t].Keys;
    if sessions == [] {
      assert cases + {} == cases && db.tests[t := db.tests[t]] == db.tests;
    } else {
      var next := AfterSession(cfg, runId, planId, db, sessions[0]);
      RunEndsAsUnion(cfg, runId, planId, next, sessions[1..], t);
      assert cases + sessions[0].keys + Union(sessions[1..]) == cases + Union(sessions);
      GrownTwice(cfg, db, next, AfterSessions(cfg, runId, planId, next, sessions[1..]), t, cases + sessions[0].keys,
                 cases + Union(sessions));
    }
  }

  /** A further session posts no update exactly when all its cases were there or collected; so
      repeating one posts none. */
  lemma FurtherSession(cfg: Config, runId: nat, planId: nat, db: Database, sessions: seq<Session>, t: nat, s: Session)
    requires KnownRun(cfg, runId, db, t) && forall x :: x in sessions ==> !Closes(cfg, runId, true, x)
    ensures var after := AfterSessions(cfg, runId, planId, db, sessions);
            && t in db.tests
            && (Reconciliation(cfg, runId, after, s.keys) == [] <==> s.keys <= db.tests[t].Keys + Union(sessions))
            && (s in sessions ==> Reconciliation(cfg, runId, after, s.keys) == [])
  {
    RunEndsAsUnion(cfg, runId, planId, db, sessions, t);
    ExtendsExistingRun(cfg, runId, AfterSessions(cfg, runId, planId, db, sessions), s.keys);
    UnionHasAll(sessions, s);
  }

  lemma {:induction false} UnionHasAll(sessions: seq<Session>, s: Session)
    ensures s in sessions ==> s.keys <= Union(sessions)
  {
    if sessions != [] {
      UnionHasAll(sessions[1..], s);
    }
  }

  /** A case's status after any number of sessions on a run that had these cases. */
  function StatusOver(cfg: Config, cases: set<nat>, status: nat, sessions: seq<Session>, c: nat): nat
    decreases sessions
  {
    if sessions == [] then status
    else
      var now := cases + sessions[0].keys;
      StatusOver(cfg, now, StatusNext(cfg, now, status, sessions[0].results, c), sessions[1..], c)
  }

  lemma KnownRunStatus(cfg: Config, runId: nat, planId: nat, db: Database, s: Session, t: nat, c: nat)
    requires KnownRun(cfg, runId, db, t) && !Closes(cfg, runId, true, s)
    ensures t in db.tests
    ensures StatusBefore(cfg, runId, AfterSession(cfg, runId, planId, db, s), c) ==
            StatusNext(cfg, db.tests[t].Keys + s.keys, StatusBefore(cfg, runId, db, c), s.results, c)
  {
    KnownRunGrows(cfg, runId, planId, db, s, t);
    KnownRunAfter(cfg, runId, planId, db, s, t);
    SessionStatus(cfg, runId, planId, db, s, c);
    ForCaseMembers(s.results, c);
  }

  /** The statuses it ends with, over all these sessions: for each case, the last result that
      was not held back or spoiled. */
  lemma {:induction false} StatusesOverSessions(cfg: Config, runId: nat, planId: nat, db: Database,
                                                sessions: seq<Session>, t: nat, c: nat)
    requires KnownRun(cfg, runId, db, t) && forall s :: s in sessions ==> !Closes(cfg, runId, true, s)
    ensures t in db.tests
    ensures StatusBefore(cfg, runId, AfterSessions(cfg, runId, planId, db, sessions), c) ==
            StatusOver(cfg, db.tests[t].Keys, StatusBefore(cfg, runId, db, c), sessions, c)
    decreases sessions
  {
    KnownRunGrows(cfg, runId, planId, db, if sessions == [] then Session({}, []) else sessions[0], t);
    if sessions != [] {
      KnownRunStatus(cfg, runId, planId, db, sessions[0], t, c);
      StatusesOverSessions(cfg, runId, planId, AfterSession(cfg, runId, planId, db, sessions[0]), sessions[1..], t, c);
    }
  }

  /** With blocked cases held back, one that is blocked stays so for good. */
  lemma {:induction false} BlockedStays(cfg: Config, cases: set<nat>, sessions: seq<Session>, c: nat)
    requires !cfg.publishBlocked
    ensures StatusOver(cfg, cases, BLOCKED, sessions, c) == BLOCKED
    decreases sessions
  {
    if sessions != [] {
      BlockedStays(cfg, cases + sessions[0].keys, sessions[1..], c);
    }
  }

  function ResultsOver(sessions: seq<Session>): seq<Result>
  {
    if sessions == [] then [] else sessions[0].results + ResultsOver(sessions[1..])
  }

  /** Otherwise, if each session has results of its own cases only, the last of all results of
      a case in all sessions counts. */
  lemma {:induction false} LastSessionCounts(cfg: Config, cases: set<nat>, status: nat, sessions: seq<Session>, c: nat)
    requires cfg.publishBlocked && forall s :: s in sessions ==> AllIn(s.results, s.keys)
    ensures var all := ForCase(ResultsOver(sessions), c);
            StatusOver(cfg, cases, status, sessions, c) == if all == [] then status else all[|all| - 1].statusId
    decreases sessions
  {
    if sessions != [] {
      var now := cases + sessions[0].keys;
      assert AllIn(sessions[0].results, now);
      LastSessionCounts(cfg, now, StatusNext(cfg, now, status, sessions[0].results, c), sessions[1..], c);
      ForCaseConcat(sessions[0].results, ResultsOver(sessions[1..]), c);
    }
  }
}
