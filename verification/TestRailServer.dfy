/** The TestRail server, as far as the plugin's requests reach. */
module TestRailServer {
  import opened Wrappers
  import opened Results

  /** A plan, a run outside any plan, or an entry of a plan. */
  datatype Row = Row(id: nat, name: string, completed: bool)

  /** Plans have entries, an entry has one run, and a run has tests: cases with a status. */
  datatype Database = Database(
    plans: seq<Row>,
    entries: map<nat, seq<Row>>,
    entryRun: map<nat, nat>,
    runs: seq<Row>,
    tests: map<nat, map<nat, nat>>,
    suite: set<nat>,
    nextId: nat)

  datatype Entry = Entry(statusId: nat, caseId: nat, defects: Option<string>, version: string)

  datatype Post =
    | AddPlan(name: string)
    | AddPlanEntry(planId: nat, name: string, includeAll: bool, cases: set<nat>)
    | AddRun(name: string, includeAll: bool, cases: set<nat>)
    | UpdatePlanEntry(planId: nat, entryId: nat, cases: set<nat>)
    | UpdateRunInPlanEntry(runId: nat, cases: set<nat>)
    | UpdateRun(runId: nat, cases: set<nat>)
    | AddResults(runId: nat, results: seq<Entry>)
    | CloseRun(runId: nat)
    | ClosePlan(planId: nat)

  function Untested(cases: set<nat>): map<nat, nat>
  {
    map c | c in cases :: UNTESTED
  }

  /** Selecting cases: those that stay keep their status. */
  function WithCases(tests: map<nat, nat>, cases: set<nat>): map<nat, nat>
  {
    map c | c in cases :: if c in tests then tests[c] else UNTESTED
  }

  function Select(db: Database, runId: nat, cases: set<nat>): Database
  {
    if runId in db.tests then db.(tests := db.tests[runId := WithCases(db.tests[runId], cases)]) else db
  }

  /** A case ends with the status of the last result given for it. */
  function ApplyResults(tests: map<nat, nat>, results: seq<Entry>): map<nat, nat>
  {
    if results == [] then tests
    else
      var last := results[|results| - 1];
      ApplyResults(tests, results[..|results| - 1])[last.caseId := last.statusId]
  }

  /** Results are taken only if all their cases are in the run. */
  predicate Accepts(db: Database, runId: nat, results: seq<Entry>)
  {
    runId in db.tests && forall e :: e in results ==> e.caseId in db.tests[runId]
  }

  function Close(rows: seq<Row>, id: nat): seq<Row>
  {
    if rows == [] then []
    else [if rows[0].id == id then rows[0].(completed := true) else rows[0]] + Close(rows[1..], id)
  }

  function Chosen(db: Database, includeAll: bool, cases: set<nat>): map<nat, nat>
  {
    Untested(if includeAll then db.suite else cases)
  }

  function Perform(db: Database, post: Post): Database
  {
    var n := db.nextId;
    match post
    case AddPlan(name) =>
      db.(plans := db.plans + [Row(n, name, false)], entries := db.entries[n := []], nextId := n + 1)
    case AddPlanEntry(planId, name, includeAll, cases) =>
      if planId !in db.entries then db
      else
        db.(entries := db.entries[planId := db.entries[planId] + [Row(n + 1, name, false)]],
            entryRun := db.entryRun[n + 1 := n],
            tests := db.tests[n := Chosen(db, includeAll, cases)], nextId := n + 2)
    case AddRun(name, includeAll, cases) =>
      db.(runs := db.runs + [Row(n, name, false)],
          tests := db.tests[n := Chosen(db, includeAll, cases)], nextId := n + 1)
    case UpdatePlanEntry(_, entryId, cases) =>
      if entryId in db.entryRun then Select(db, db.entryRun[entryId], cases) else db
    case UpdateRunInPlanEntry(runId, cases) => Select(db, runId, cases)
    case UpdateRun(runId, cases) => Select(db, runId, cases)
    case AddResults(runId, results) =>
      if Accepts(db, runId, results)
      then db.(tests := db.tests[runId := ApplyResults(db.tests[runId], results)]) else db
    case CloseRun(id) => db.(runs := Close(db.runs, id))
    case ClosePlan(id) => db.(plans := Close(db.plans, id))
  }

  function PerformAll(db: Database, posts: seq<Post>): Database
  {
    if posts == [] then db else Perform(PerformAll(db, posts[..|posts| - 1]), posts[|posts| - 1])
  }

  function Open(rows: seq<Row>): seq<Row>
  {
    if rows == [] then [] else (if rows[0].completed then [] else [rows[0]]) + Open(rows[1..])
  }

  function FirstNamed(rows: seq<Row>, name: string): Option<Row>
  {
    if rows == [] then None
    else if rows[0].name == name then Some(rows[0])
    else FirstNamed(rows[1..], name)
  }

  /** Every id refers to something, is not zero, and new ids are new. */
  ghost predicate Consistent(db: Database)
  {
    && db.nextId > 0
    && (forall i :: 0 <= i < |db.plans| ==> db.plans[i].id in db.entries)
    && (forall p :: p in db.entries ==> 0 < p < db.nextId && EntriesLinked(db, p))
    && (forall i :: 0 <= i < |db.runs| ==> db.runs[i].id in db.tests)
    && (forall r :: r in db.tests ==> 0 < r < db.nextId)
  }

  ghost predicate EntriesLinked(db: Database, planId: nat)
    requires planId in db.entries
  {
    forall i :: 0 <= i < |db.entries[planId]| ==>
      db.entries[planId][i].id in db.entryRun && db.entryRun[db.entries[planId][i].id] in db.tests &&
      db.entries[planId][i].id < db.nextId
  }

  lemma {:induction false} CloseKeepsIds(rows: seq<Row>, id: nat)
    ensures |Close(rows, id)| == |rows| && forall i :: 0 <= i < |rows| ==> Close(rows, id)[i].id == rows[i].id
  {
    if rows != [] {
      CloseKeepsIds(rows[1..], id);
    }
  }

  lemma PerformKeepsLinks(db: Database, post: Post, p: nat)
    requires Consistent(db) && p in Perform(db, post).entries
    ensures 0 < p < Perform(db, post).nextId && EntriesLinked(Perform(db, post), p)
  {
    if p in db.entries {
      assert EntriesLinked(db, p);
    }
  }

  lemma PerformKeepsRows(db: Database, post: Post)
    requires Consistent(db)
    ensures var after := Perform(db, post);
            && after.nextId > 0
            && (forall i :: 0 <= i < |after.plans| ==> after.plans[i].id in after.entries)
            && (forall i :: 0 <= i < |after.runs| ==> after.runs[i].id in after.tests)
  {
    match post {
      case CloseRun(id) => CloseKeepsIds(db.runs, id);
      case ClosePlan(id) => CloseKeepsIds(db.plans, id);
      case _ =>
    }
  }

  lemma PerformKeepsTests(db: Database, post: Post, r: nat)
    requires Consistent(db) && r in Perform(db, post).tests
    ensures 0 < r < Perform(db, post).nextId
  {
  }

  /** Every request keeps the server consistent. */
  lemma PerformConsistent(db: Database, post: Post)
    requires Consistent(db)
    ensures Consistent(Perform(db, post))
  {
    var after := Perform(db, post);
    PerformKeepsRows(db, post);
    forall p | p in after.entries
      ensures 0 < p < after.nextId && EntriesLinked(after, p)
    {
      PerformKeepsLinks(db, post, p);
    }
    forall r | r in after.tests
      ensures 0 < r < after.nextId
    {
      PerformKeepsTests(db, post, r);
    }
  }

  lemma {:induction false} PerformAllConsistent(db: Database, posts: seq<Post>)
    requires Consistent(db)
    ensures Consistent(PerformAll(db, posts))
  {
    if posts != [] {
      PerformAllConsistent(db, posts[..|posts| - 1]);
      PerformConsistent(PerformAll(db, posts[..|posts| - 1]), posts[|posts| - 1]);
    }
  }

  class Server {
    var db: Database
    ghost var posts: seq<Post>

    constructor (db: Database)
      ensures this.db == db && posts == []
    {
      this.db, posts := db, [];
    }

    method Send(post: Post)
      modifies this
      ensures db == Perform(old(db), post) && posts == old(posts) + [post]
    {
      db, posts := Perform(db, post), posts + [post];
    }
  }
}
