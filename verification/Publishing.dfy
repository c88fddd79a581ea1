/** What the end of a session posts: the selected results, and what closes. */
module Publishing {
  import opened Wrappers
  import opened Results
  import opened TestRailServer
  import opened Reconciling

  /** Cases the server has as blocked are held back if so configured. */
  function Excluded(cfg: Config, db: Database, runId: nat): set<nat>
  {
    if cfg.publishBlocked || runId !in db.tests then {}
    else set c | c in db.tests[runId] && db.tests[runId][c] == BLOCKED
  }

  function Selected(cfg: Config, db: Database, runId: nat, results: seq<Result>): seq<Result>
  {
    Without(SortByCase(results), Excluded(cfg, db, runId))
  }

  function EntriesOf(results: seq<Result>, version: string): (entries: seq<Entry>)
    ensures |entries| == |results|
    ensures forall i :: 0 <= i < |results| ==>
              entries[i] == Entry(results[i].statusId, results[i].caseId, results[i].defects, version)
  {
    if results == [] then []
    else
      var last := results[|results| - 1];
      EntriesOf(results[..|results| - 1], version) + [Entry(last.statusId, last.caseId, last.defects, version)]
  }

  function Closing(cfg: Config, runId: nat, planId: nat): seq<Post>
  {
    if cfg.closeOnComplete && runId != 0 then [CloseRun(runId)]
    else if cfg.closeOnComplete && planId != 0 then [ClosePlan(planId)]
    else []
  }

  /** The request that publishes. */
  function Publication(cfg: Config, db: Database, runId: nat, results: seq<Result>): seq<Post>
  {
    [AddResults(runId, EntriesOf(Selected(cfg, db, runId, results), cfg.version))]
  }

  /** What the end of a session posts; None is an exception. */
  function FinishPosts(cfg: Config, runId: nat, planId: nat, db: Database, results: seq<Result>): Option<seq<Post>>
  {
    if results == [] then Some([])
    else
      match Publishes(cfg, runId, planId, db)
      case Nowhere => Some([])
      case Missing => None
      case At(run) =>
        if !cfg.publishBlocked && run !in db.tests then None
        else Some(Publication(cfg, db, run, results) + Closing(cfg, runId, planId))
  }

  lemma {:induction false} WithoutNothing(results: seq<Result>)
    ensures Without(results, {}) == results
  {
    if results != [] {
      WithoutNothing(results[..|results| - 1]);
      assert results == results[..|results| - 1] + [results[|results| - 1]];
    }
  }
}
