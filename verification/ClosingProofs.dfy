/** Runs that sessions create and close: what any number of sessions then find. */
module ClosingProofs {
  import opened Wrappers
  import opened Results
  import opened TestRailServer
  import opened Reconciling
  import opened Publishing
  import opened PublishingProofs
  import opened Sessions

  // ----- Sessions that close -----

  function Others(rows: seq<Row>, id: nat): seq<Row>
  {
    if rows == [] then [] else (if rows[0].id == id then [] else [rows[0]]) + Others(rows[1..], id)
  }

  lemma {:induction false} OpenAfterClosing(rows: seq<Row>, id: nat)
    ensures Open(Close(rows, id)) == Others(Open(rows), id)
  {
    if rows != [] {
      OpenAfterClosing(rows[1..], id);
      assert Close(rows, id)[1..] == Close(rows[1..], id);
      if rows[0].completed {
        assert Open(rows) == Open(rows[1..]);
      } else {
        assert Open(rows)[1..] == Open(rows[1..]);
      }
    }
  }

  lemma {:induction false} OthersAre(rows: seq<Row>, id: nat)
    ensures forall r :: r in Others(rows, id) <==> r in rows && r.id != id
  {
    if rows != [] {
      OthersAre(rows[1..], id);
    }
  }

  lemma {:induction false} NameSurvivesClosing(rows: seq<Row>, id: nat, name: string)
    ensures FirstNamed(Close(rows, id), name).Some? <==> FirstNamed(rows, name).Some?
  {
    if rows != [] {
      NameSurvivesClosing(rows[1..], id, name);
      assert Close(rows, id)[1..] == Close(rows[1..], id);
    }
  }

  /** After a session that closes, the options name the next open run or plan of that name. If
      there is none, the next session makes a new plan; but outside plans it raises. */
  lemma ClosingSession(cfg: Config, runId: nat, planId: nat, db: Database, s: Session, t: nat)
    requires KnownRun(cfg, runId, db, t) && Closes(cfg, runId, true, s)
    ensures var after := AfterSession(cfg, runId, planId, db, s);
            if cfg.planName == "" then
              var next := FirstNamed(Others(Open(db.runs), t), cfg.runName);
              && Target(cfg, runId, after) == (if next.Some? then Some(next.value.id) else None)
              && (next.Some? ==> next.value.id != t)
              && (Raises(cfg, runId, after) <==> next.None?)
            else
              var p := PlanUsed(cfg, planId, db);
              var next := FirstNamed(Others(Open(db.plans), p), cfg.planName);
              && FirstNamed(Open(after.plans), cfg.planName) == next
              && (next.Some? ==> next.value.id != p)
              && !Raises(cfg, runId, after)
  {
    KnownRunAfter(cfg, runId, planId, db, s, t);
    TargetIsKnown(cfg, runId, db);
    PlanIsKnown(cfg, db);
    if cfg.planName == "" {
      OpenAfterClosing(db.runs, t);
      OthersAre(Open(db.runs), t);
      FirstNamedFound(Others(Open(db.runs), t), cfg.runName);
      OpenRows(db.runs);
      NotNamedNotOpen(db.runs, cfg.runName);
      NameSurvivesClosing(db.runs, t, cfg.runName);
    } else {
      var p := PlanUsed(cfg, planId, db);
      OpenAfterClosing(db.plans, p);
      OthersAre(Open(db.plans), p);
      FirstNamedFound(Others(Open(db.plans), p), cfg.planName);
    }
  }

  /** The numbers of the open runs of that name. */
  function OpenIds(rows: seq<Row>, name: string): set<nat>
  {
    set r | r in Open(rows) && r.name == name :: r.id
  }

  lemma {:induction false} NobodyNamed(rows: seq<Row>, name: string)
    ensures FirstNamed(rows, name).None? <==> forall r :: r in rows ==> r.name != name
  {
    if rows != [] {
      NobodyNamed(rows[1..], name);
    }
  }

  lemma ClosingTakesOne(rows: seq<Row>, id: nat, name: string)
    ensures OpenIds(Close(rows, id), name) == OpenIds(rows, name) - {id}
  {
    OpenAfterClosing(rows, id);
    OthersAre(Open(rows), id);
  }

  function Closings(cfg: Config, runId: nat, sessions: seq<Session>): nat
  {
    if sessions == [] then 0
    else (if Closes(cfg, runId, true, sessions[0]) then 1 else 0) + Closings(cfg, runId, sessions[1..])
  }

  lemma RaisesWithoutOpenRun(cfg: Config, runId: nat, db: Database)
    requires cfg.runName != "" && cfg.planName == "" && FirstNamed(db.runs, cfg.runName).Some?
    ensures Raises(cfg, runId, db) <==> OpenIds(db.runs, cfg.runName) == {}
  {
    NobodyNamed(Open(db.runs), cfg.runName);
    if OpenIds(db.runs, cfg.runName) == {} {
      forall r | r in Open(db.runs) ensures r.name != cfg.runName {
        assert r.name == cfg.runName ==> r.id in OpenIds(db.runs, cfg.runName);
      }
    }
  }

  lemma OneRunUsedUp(cfg: Config, runId: nat, planId: nat, db: Database, s: Session)
    requires Consistent(db) && cfg.runName != "" && cfg.planName == ""
    requires FirstNamed(db.runs, cfg.runName).Some? && !Raises(cfg, runId, db)
    ensures var after := AfterSession(cfg, runId, planId, db, s);
            && FirstNamed(after.runs, cfg.runName).Some?
            && |OpenIds(after.runs, cfg.runName)| + (if Closes(cfg, runId, true, s) then 1 else 0) ==
               |OpenIds(db.runs, cfg.runName)|
  {
    var t := Target(cfg, runId, db).value;
    TargetIsKnown(cfg, runId, db);
    KnownRunAfter(cfg, runId, planId, db, s, t);
    NameSurvivesClosing(db.runs, t, cfg.runName);
    ClosingTakesOne(db.runs, t, cfg.runName);
    FirstNamedFound(Open(db.runs), cfg.runName);
  }

  lemma OpenIdsAppend(rows: seq<Row>, row: Row)
    requires !row.completed && FirstNamed(Open(rows), row.name).None?
    ensures OpenIds(rows, row.name) == {} && OpenIds(rows + [row], row.name) == {row.id}
  {
    OpenAppend(rows, row);
    NobodyNamed(Open(rows), row.name);
  }

  /** Outside plans, a session without a run of the name creates the only one, and may close it. */
  lemma OneRunCreated(cfg: Config, runId: nat, planId: nat, db: Database, s: Session)
    requires Consistent(db) && cfg.runName != "" && cfg.planName == "" && FirstNamed(db.runs, cfg.runName).None?
    ensures var after, t := AfterSession(cfg, runId, planId, db, s), RunOf(cfg, runId, db, s.keys);
            && FirstNamed(after.runs, cfg.runName).Some?
            && OpenIds(after.runs, cfg.runName) == if Closes(cfg, runId, false, s) then {} else {t}
  {
    var row := Row(db.nextId, cfg.runName, false);
    NotNamedNotOpen(db.runs, cfg.runName);
    AddRunConsistent(db, cfg.runName, cfg.includeAll, s.keys);
    PerformOne(db, AddRun(cfg.runName, cfg.includeAll, s.keys));
    SessionInSteps(cfg, runId, planId, db, s);
    PublishingKeepsCases(cfg, AfterCollection(cfg, runId, db, s.keys), row.id, s.results);
    OpenIdsAppend(db.runs, row);
    FirstNamedAppend(db.runs, row, cfg.runName);
    NameSurvivesClosing(db.runs + [row], row.id, cfg.runName);
    ClosingTakesOne(db.runs + [row], row.id, cfg.runName);
  }

  /** Outside plans, every session that closes uses up one open run of that name; if there was
      none at all, the first session has created one. Sessions raise exactly from when as many
      have closed as there were. */
  lemma {:induction false} RunsAreUsedUp(cfg: Config, runId: nat, planId: nat, db: Database, sessions: seq<Session>)
    requires Consistent(db) && cfg.runName != "" && cfg.planName == ""
    ensures Raises(cfg, runId, AfterSessions(cfg, runId, planId, db, sessions)) <==>
            Closings(cfg, runId, sessions) >=
            if FirstNamed(db.runs, cfg.runName).Some? then |OpenIds(db.runs, cfg.runName)| else 1
    decreases sessions
  {
    if FirstNamed(db.runs, cfg.runName).Some? {
      RaisesWithoutOpenRun(cfg, runId, db);
    }
    if sessions != [] {
      SessionConsistent(cfg, runId, planId, db, sessions[0]);
      if FirstNamed(db.runs, cfg.runName).None? {
        OneRunCreated(cfg, runId, planId, db, sessions[0]);
      } else if !Raises(cfg, runId, db) {
        OneRunUsedUp(cfg, runId, planId, db, sessions[0]);
      }
      RunsAreUsedUp(cfg, runId, planId, AfterSession(cfg, runId, planId, db, sessions[0]), sessions[1..]);
    }
  }

  // ----- A run that is not there yet -----

  /** Run t, with exactly these cases, is the only one that is new or changed. */
  ghost predicate Created(db: Database, after: Database, t: nat, cases: set<nat>)
  {
    t in after.tests && after.tests == db.tests[t := after.tests[t]] && after.tests[t].Keys == cases
  }

  lemma PublishedIsCreated(db: Database, mid: Database, sent: Database, t: nat, cases: set<nat>)
    requires Created(db, mid, t, cases) && OnlyStatuses(mid, sent, t, cases)
    ensures Created(db, sent, t, cases)
  {
    assert db.tests[t := mid.tests[t]][t := sent.tests[t]] == db.tests[t := sent.tests[t]];
  }

  lemma CreatedThenGrown(cfg: Config, db: Database, mid: Database, after: Database, t: nat, a: set<nat>, b: set<nat>)
    requires Created(db, mid, t, a) && Grown(cfg, mid, after, t, b)
    ensures Created(db, after, t, b)
  {
    assert db.tests[t := mid.tests[t]][t := after.tests[t]] == db.tests[t := after.tests[t]];
  }

  /** A closed run within a plan is still found. */
  lemma StillNamed(cfg: Config, runId: nat, db: Database, sent: Database, t: nat, run: nat, plan: nat, cases: set<nat>)
    requires KnownRun(cfg, runId, db, t) && OnlyStatuses(db, sent, t, cases) && Consistent(Closed(cfg, run, plan, sent))
    requires cfg.closeOnComplete ==> cfg.planName != "" && run != 0
    ensures KnownRun(cfg, runId, Closed(cfg, run, plan, sent), t)
  {
    assert sent.tests.Keys == db.tests.Keys + {t};
  }

  /** A session that creates its run: the run is the named one from then on, unless it has been
      closed outside plans, and then the next session raises. */
  lemma CreatedRunAfter(cfg: Config, runId: nat, planId: nat, db: Database, s: Session)
    requires Consistent(db) && cfg.runName != "" && !Raises(cfg, runId, db) && Target(cfg, runId, db).None?
    ensures var after, t := AfterSession(cfg, runId, planId, db, s), RunOf(cfg, runId, db, s.keys);
            && t !in db.tests && Created(db, after, t, if cfg.includeAll then db.suite else s.keys)
            && if Closes(cfg, runId, false, s) then Raises(cfg, runId, after) else KnownRun(cfg, runId, after, t)
  {
    var mid, t := AfterCollection(cfg, runId, db, s.keys), RunOf(cfg, runId, db, s.keys);
    CreatesMissingRun(cfg, runId, db, s.keys);
    CollectionNamesRun(cfg, runId, db, s.keys);
    SessionInSteps(cfg, runId, planId, db, s);
    if s.results != [] {
      SessionConsistent(cfg, runId, planId, db, s);
      var cases, sent := mid.tests[t].Keys, Published(cfg, mid, t, s.results);
      PublishingKeepsCases(cfg, mid, t, s.results);
      PublishedIsCreated(db, mid, sent, t, cases);
      if Closes(cfg, runId, false, s) {
        OneRunCreated(cfg, runId, planId, db, s);
        RaisesWithoutOpenRun(cfg, runId, AfterSession(cfg, runId, planId, db, s));
      } else {
        StillNamed(cfg, runId, mid, sent, t, RunLeft(cfg, runId, db, mid), PlanUsed(cfg, planId, mid), cases);
      }
    }
  }

  /** The sessions up to the first that closes, and that one. */
  function UntilClosing(cfg: Config, runId: nat, sessions: seq<Session>): seq<Session>
  {
    if sessions == [] then []
    else [sessions[0]] + if Closes(cfg, runId, true, sessions[0]) then [] else UntilClosing(cfg, runId, sessions[1..])
  }

  lemma {:induction false} RaisesForGood(cfg: Config, runId: nat, planId: nat, db: Database, sessions: seq<Session>)
    requires Raises(cfg, runId, db)
    ensures AfterSessions(cfg, runId, planId, db, sessions) == db
    decreases sessions
  {
    if sessions != [] {
      RaisesForGood(cfg, runId, planId, db, sessions[1..]);
    }
  }

  lemma OnlyOneOpen(rows: seq<Row>, name: string, id: nat)
    requires OpenIds(rows, name) == {id}
    ensures FirstNamed(Others(Open(rows), id), name).None?
  {
    OthersAre(Open(rows), id);
    NobodyNamed(Others(Open(rows), id), name);
    forall r | r in Others(Open(rows), id)
      ensures r.name != name
    {
      assert r.name == name ==> r.id in OpenIds(rows, name);
    }
  }

  lemma OnlyRunClosed(cfg: Config, runId: nat, planId: nat, db: Database, s: Session, t: nat, rest: seq<Session>)
    requires KnownRun(cfg, runId, db, t) && cfg.planName == "" && OpenIds(db.runs, cfg.runName) == {t}
    requires Closes(cfg, runId, true, s)
    ensures var next := AfterSession(cfg, runId, planId, db, s);
            Raises(cfg, runId, next) && AfterSessions(cfg, runId, planId, next, rest) == next
  {
    ClosingSession(cfg, runId, planId, db, s, t);
    OnlyOneOpen(db.runs, cfg.runName, t);
    RaisesForGood(cfg, runId, planId, AfterSession(cfg, runId, planId, db, s), rest);
  }

  lemma UnionUntilClosing(cfg: Config, runId: nat, sessions: seq<Session>, cases: set<nat>)
    requires sessions != []
    ensures var later := if Closes(cfg, runId, true, sessions[0]) then [] else UntilClosing(cfg, runId, sessions[1..]);
            cases + Union(UntilClosing(cfg, runId, sessions)) == cases + sessions[0].keys + Union(later)
  {
    var later := if Closes(cfg, runId, true, sessions[0]) then [] else UntilClosing(cfg, runId, sessions[1..]);
    assert UntilClosing(cfg, runId, sessions)[1..] == later;
  }

  /** The only open run of its name, outside plans, grows until a session closes it; then
      nothing changes any more. */
  lemma {:induction false} OnlyRunEndsAsUnion(cfg: Config, runId: nat, planId: nat, db: Database,
                                              sessions: seq<Session>, t: nat)
    requires KnownRun(cfg, runId, db, t) && cfg.planName == "" && OpenIds(db.runs, cfg.runName) == {t}
    ensures var after := AfterSessions(cfg, runId, planId, db, sessions);
            && t in db.tests
            && Grown(cfg, db, after, t, db.tests[t].Keys + Union(UntilClosing(cfg, runId, sessions)))
            && if Closings(cfg, runId, sessions) == 0 then KnownRun(cfg, runId, after, t) else Raises(cfg, runId, after)
    decreases sessions
  {
    var s := if sessions == [] then Session({}, []) else sessions[0];
    KnownRunGrows(cfg, runId, planId, db, s, t);
    var next, cases := AfterSession(cfg, runId, planId, db, s), db.tests[t].Keys;
    if sessions == [] {
      assert cases + {} == cases && db.tests[t := db.tests[t]] == db.tests;
    } else {
      var rest := sessions[1..];
      UnionUntilClosing(cfg, runId, sessions, cases);
      if Closes(cfg, runId, true, s) {
        OnlyRunClosed(cfg, runId, planId, db, s, t, rest);
        assert cases + s.keys + {} == cases + s.keys;
      } else {
        KnownRunAfter(cfg, runId, planId, db, s, t);
        OnlyRunEndsAsUnion(cfg, runId, planId, next, rest, t);
        GrownTwice(cfg, db, next, AfterSessions(cfg, runId, planId, next, rest), t, cases + s.keys,
                   cases + s.keys + Union(UntilClosing(cfg, runId, rest)));
      }
    }
  }

  /** The sessions after the first that add cases to the run it creates. */
  function Later(cfg: Config, runId: nat, sessions: seq<Session>): seq<Session>
    requires sessions != []
  {
    if Closes(cfg, runId, false, sessions[0]) then [] else UntilClosing(cfg, runId, sessions[1..])
  }

  lemma {:induction false} UntilClosingIsAll(cfg: Config, runId: nat, sessions: seq<Session>)
    requires forall s :: s in sessions ==> !Closes(cfg, runId, true, s)
    ensures UntilClosing(cfg, runId, sessions) == sessions && Closings(cfg, runId, sessions) == 0
  {
    if sessions != [] {
      UntilClosingIsAll(cfg, runId, sessions[1..]);
    }
  }

  /** From a server that has no such run: the first session creates it, with its own cases or,
      if so configured, with the suite's and none of its own besides. Those that follow add
      theirs, up to the first that closes it; outside plans all after that raise. */
  lemma CreatedRunEndsAsUnion(cfg: Config, runId: nat, planId: nat, db: Database, sessions: seq<Session>)
    requires Consistent(db) && cfg.runName != "" && !Raises(cfg, runId, db) && Target(cfg, runId, db).None?
    requires sessions != [] && (cfg.planName == "" || forall s :: s in sessions[1..] ==> !Closes(cfg, runId, true, s))
    ensures var after, t := AfterSessions(cfg, runId, planId, db, sessions), RunOf(cfg, runId, db, sessions[0].keys);
            var first := if cfg.includeAll then db.suite else sessions[0].keys;
            && t !in db.tests && Created(db, after, t, first + Union(Later(cfg, runId, sessions)))
            && if cfg.planName == "" && Closings(cfg, runId, sessions) > 0 then Raises(cfg, runId, after)
               else KnownRun(cfg, runId, after, t)
  {
    var s, rest := sessions[0], sessions[1..];
    var next, t := AfterSession(cfg, runId, planId, db, s), RunOf(cfg, runId, db, s.keys);
    var first := if cfg.includeAll then db.suite else s.keys;
    CreatedRunAfter(cfg, runId, planId, db, s);
    if Closes(cfg, runId, false, s) {
      assert first + {} == first;
      RaisesForGood(cfg, runId, planId, next, rest);
    } else {
      if cfg.planName == "" {
        OneRunCreated(cfg, runId, planId, db, s);
        OnlyRunEndsAsUnion(cfg, runId, planId, next, rest, t);
      } else {
        RunEndsAsUnion(cfg, runId, planId, next, rest, t);
        UntilClosingIsAll(cfg, runId, rest);
      }
      CreatedThenGrown(cfg, db, next, AfterSessions(cfg, runId, planId, next, rest), t, first,
                       first + Union(Later(cfg, runId, sessions)));
    }
  }

  // ----- Plans that sessions create and close -----

  /** Whether an open plan of the name stands after these sessions: one that is closed is made
      anew by the session after it, which does not close it. */
  predicate Standing(cfg: Config, standing: bool, sessions: seq<Session>)
    decreases sessions
  {
    if sessions == [] then standing
    else Standing(cfg, !(standing && Closes(cfg, 0, true, sessions[0])), sessions[1..])
  }

  /** How many plans they make. */
  function PlansMade(cfg: Config, standing: bool, sessions: seq<Session>): nat
    decreases sessions
  {
    if sessions == [] then 0
    else (if standing then 0 else 1) + PlansMade(cfg, !(standing && Closes(cfg, 0, true, sessions[0])), sessions[1..])
  }

  /** There is no open plan of the name; or there is one, and it has the run. */
  ghost predicate InTurn(cfg: Config, db: Database, standing: bool)
  {
    && Consistent(db) && cfg.runName != "" && cfg.planName != ""
    && if standing then Target(cfg, 0, db).Some? && |OpenIds(db.plans, cfg.planName)| == 1
       else OpenIds(db.plans, cfg.planName) == {}
  }

  lemma NoOpenIds(rows: seq<Row>, name: string)
    ensures OpenIds(rows, name) == {} <==> FirstNamed(Open(rows), name).None?
    ensures FirstNamed(Open(rows), name).Some? ==> FirstNamed(Open(rows), name).value.id in OpenIds(rows, name)
  {
    NobodyNamed(Open(rows), name);
    FirstNamedFound(Open(rows), name);
    if OpenIds(rows, name) == {} {
      forall r | r in Open(rows) ensures r.name != name {
        assert r.name == name ==> r.id in OpenIds(rows, name);
      }
    }
  }

  /** Without an open plan of the name, a session makes one, and leaves it open. */
  lemma PlanMade(cfg: Config, planId: nat, db: Database, s: Session)
    requires InTurn(cfg, db, false)
    ensures var after := AfterSession(cfg, 0, planId, db, s);
            InTurn(cfg, after, true) && |after.plans| == |db.plans| + 1
  {
    NoOpenIds(db.plans, cfg.planName);
    SessionConsistent(cfg, 0, planId, db, s);
    CreatedRunAfter(cfg, 0, planId, db, s);
    PlansAfterMaking(cfg, planId, db, s);
    OpenIdsAppend(db.plans, Row(db.nextId, cfg.planName, false));
  }

  lemma PlansAfterMaking(cfg: Config, planId: nat, db: Database, s: Session)
    requires InTurn(cfg, db, false)
    ensures AfterSession(cfg, 0, planId, db, s).plans == db.plans + [Row(db.nextId, cfg.planName, false)]
  {
    NoOpenIds(db.plans, cfg.planName);
    var mid, news := AfterCollection(cfg, 0, db, s.keys), Reconciliation(cfg, 0, db, s.keys);
    PerformTwo(db, news[0], news[1]);
    CollectionNamesRun(cfg, 0, db, s.keys);
    SessionInSteps(cfg, 0, planId, db, s);
    PublishingKeepsCases(cfg, mid, RunOf(cfg, 0, db, s.keys), s.results);
  }

  lemma PlansAfterKnown(cfg: Config, planId: nat, db: Database, s: Session, t: nat)
    requires KnownRun(cfg, 0, db, t) && cfg.planName != ""
    ensures var after, p := AfterSession(cfg, 0, planId, db, s), PlanUsed(cfg, planId, db);
            && p in OpenIds(db.plans, cfg.planName)
            && after.plans == (if Closes(cfg, 0, true, s) then Close(db.plans, p) else db.plans)
            && (!Closes(cfg, 0, true, s) ==> Target(cfg, 0, after).Some?)
  {
    KnownRunAfter(cfg, 0, planId, db, s, t);
    KnownRunGrows(cfg, 0, planId, db, s, t);
    PlanIsKnown(cfg, db);
    NoOpenIds(db.plans, cfg.planName);
  }

  lemma ClosingTheOnly(rows: seq<Row>, id: nat, name: string)
    requires id in OpenIds(rows, name) && |OpenIds(rows, name)| == 1
    ensures OpenIds(Close(rows, id), name) == {} && |Close(rows, id)| == |rows|
  {
    CloseKeepsIds(rows, id);
    ClosingTakesOne(rows, id, name);
    assert |OpenIds(rows, name) - {id}| == 0;
  }

  /** A session on the open plan keeps it, or closes it. */
  lemma PlanKeptOrClosed(cfg: Config, planId: nat, db: Database, s: Session)
    requires InTurn(cfg, db, true)
    ensures var after := AfterSession(cfg, 0, planId, db, s);
            InTurn(cfg, after, !Closes(cfg, 0, true, s)) && |after.plans| == |db.plans|
  {
    PlansAfterKnown(cfg, planId, db, s, Target(cfg, 0, db).value);
    SessionConsistent(cfg, 0, planId, db, s);
    if Closes(cfg, 0, true, s) {
      ClosingTheOnly(db.plans, PlanUsed(cfg, planId, db), cfg.planName);
    }
  }

  /** A run named within a named plan: over any number of sessions none raises, and exactly so
      many plans are made, of which at most one is open at any time. */
  lemma {:induction false} PlansTakeTurns(cfg: Config, planId: nat, db: Database, standing: bool,
                                          sessions: seq<Session>)
    requires InTurn(cfg, db, standing)
    ensures var after := AfterSessions(cfg, 0, planId, db, sessions);
            && InTurn(cfg, after, Standing(cfg, standing, sessions)) && !Raises(cfg, 0, after)
            && |after.plans| == |db.plans| + PlansMade(cfg, standing, sessions)
    decreases sessions
  {
    if sessions != [] {
      if standing {
        PlanKeptOrClosed(cfg, planId, db, sessions[0]);
      } else {
        PlanMade(cfg, planId, db, sessions[0]);
      }
      PlansTakeTurns(cfg, planId, AfterSession(cfg, 0, planId, db, sessions[0]),
                     !(standing && Closes(cfg, 0, true, sessions[0])), sessions[1..]);
    }
  }

  /** If all of them have results and close, every second one makes a plan. */
  lemma {:induction false} EverySecondMakesAPlan(cfg: Config, standing: bool, sessions: seq<Session>)
    requires forall s :: s in sessions ==> Closes(cfg, 0, true, s)
    ensures Standing(cfg, standing, sessions) <==> standing == (|sessions| % 2 == 0)
    ensures PlansMade(cfg, standing, sessions) == (|sessions| + if standing then 0 else 1) / 2
    decreases sessions
  {
    if sessions != [] {
      EverySecondMakesAPlan(cfg, !standing, sessions[1..]);
    }
  }
}
