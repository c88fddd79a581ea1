/** Which of the options that name a run have any effect, and when. */
module Options {
  import opened Wrappers
  import opened Results
  import opened TestRailServer
  import opened Reconciling
  import opened Publishing
  import opened Sessions

  lemma NoNameNoSession(cfg: Config, runId: nat, planId: nat, db: Database, s: Session)
    requires cfg.runName == ""
    ensures AfterSession(cfg, runId, planId, db, s) == db
  {
  }

  lemma NumberOutsidePlans(cfg: Config, runId: nat, planId: nat, db: Database, s: Session)
    requires cfg.planName == ""
    ensures AfterSession(cfg, runId, planId, db, s) == AfterSession(cfg, 0, planId, db, s)
  {
    var mid := AfterCollection(cfg, runId, db, s.keys);
    assert mid == AfterCollection(cfg, 0, db, s.keys);
  }

  lemma NameOfNumbered(cfg: Config, runId: nat, planId: nat, db: Database, s: Session, other: string)
    requires cfg.runName != "" && other != "" && cfg.planName != "" && runId != 0
    ensures AfterSession(cfg.(runName := other), runId, planId, db, s) == AfterSession(cfg, runId, planId, db, s)
  {
  }

  /** Over any sessions, a run number makes the run's name immaterial only within a named plan,
      and only if there is some name. Outside plans it is the number that is; without a name
      nothing happens. */
  lemma {:induction false} RunNumberCounts(cfg: Config, runId: nat, planId: nat, db: Database, sessions: seq<Session>,
                                           other: string)
    requires other != ""
    ensures cfg.runName == "" ==> AfterSessions(cfg, runId, planId, db, sessions) == db
    ensures cfg.planName == "" ==>
            AfterSessions(cfg, runId, planId, db, sessions) == AfterSessions(cfg, 0, planId, db, sessions)
    ensures cfg.runName != "" && cfg.planName != "" && runId != 0 ==>
              AfterSessions(cfg.(runName := other), runId, planId, db, sessions) ==
              AfterSessions(cfg, runId, planId, db, sessions)
    decreases sessions
  {
    if sessions != [] {
      var s := sessions[0];
      if cfg.runName == "" {
        NoNameNoSession(cfg, runId, planId, db, s);
      }
      if cfg.planName == "" {
        NumberOutsidePlans(cfg, runId, planId, db, s);
      } else if cfg.runName != "" && runId != 0 {
        NameOfNumbered(cfg, runId, planId, db, s, other);
      }
      RunNumberCounts(cfg, runId, planId, AfterSession(cfg, runId, planId, db, s), sessions[1..], other);
    }
  }

  // ----- Exactly when an option makes no difference -----

  datatype Choice = Choice(cfg: Config, runId: nat, planId: nat)

  predicate SameOn(a: Choice, b: Choice, db: Database, sessions: seq<Session>)
  {
    AfterSessions(a.cfg, a.runId, a.planId, db, sessions) == AfterSessions(b.cfg, b.runId, b.planId, db, sessions)
  }

  /** No sessions on any server tell the two apart. */
  ghost predicate Alike(a: Choice, b: Choice)
  {
    forall db, sessions :: Consistent(db) ==> SameOn(a, b, db, sessions)
  }

  lemma AfterOneSession(c: Choice, db: Database, s: Session)
    ensures AfterSessions(c.cfg, c.runId, c.planId, db, [s]) == AfterSession(c.cfg, c.runId, c.planId, db, s)
  {
    assert [s][1..] == [];
  }

  lemma ToldApart(a: Choice, b: Choice, db: Database, s: Session)
    requires Consistent(db)
    requires AfterSession(a.cfg, a.runId, a.planId, db, s) != AfterSession(b.cfg, b.runId, b.planId, db, s)
    ensures !Alike(a, b)
  {
    AfterOneSession(a, db, s);
    AfterOneSession(b, db, s);
    assert !SameOn(a, b, db, [s]);
  }

  predicate Numbered(cfg: Config, runId: nat)
  {
    runId != 0 && cfg.planName != "" && cfg.runName != ""
  }

  function EmptyServer(): (db: Database)
    ensures Consistent(db)
  {
    Database([], map[], map[], [], map[], {}, 1)
  }

  /** A server on which just this run number is known, without cases. */
  function ServerWith(runId: nat): (db: Database)
    requires runId != 0
    ensures Consistent(db)
  {
    Database([], map[], map[], [], map[runId := map[]], {}, runId + 1)
  }

  /** On the empty server, a session by name leaves its name: that of a run, or of an entry. */
  lemma NameIsLeft(cfg: Config, runId: nat, planId: nat)
    requires cfg.runName != "" && !Numbered(cfg, runId)
    ensures var after := AfterSession(cfg, runId, planId, EmptyServer(), Session({}, []));
            if cfg.planName == "" then after.runs == [Row(1, cfg.runName, false)]
            else |after.plans| == 1 && 1 in after.entries && after.entries[1] == [Row(3, cfg.runName, false)]
  {
    var db := EmptyServer();
    if cfg.planName == "" {
      PerformOne(db, AddRun(cfg.runName, cfg.includeAll, {}));
    } else {
      PerformTwo(db, AddPlan(cfg.planName), AddPlanEntry(1, cfg.runName, cfg.includeAll, {}));
    }
  }

  /** A session by number adds its cases to the run of that number, if there is one. */
  lemma NumberIsUsed(cfg: Config, runId: nat, planId: nat, known: nat)
    requires Numbered(cfg, runId) && known != 0
    ensures var after := AfterSession(cfg, runId, planId, ServerWith(known), Session({7}, []));
            && after.plans == []
            && StatusIn(after, known, 7) == if runId == known then Some(UNTESTED) else None
  {
    if runId == known {
      PerformOne(ServerWith(known), UpdateRunInPlanEntry(runId, {7}));
      assert ServerWith(known).tests[known].Keys + {7} == {7};
    }
  }

  /** The run's name makes no difference exactly if it is the same, or a number is given together
      with a plan's name and some run name: a number alone does not make it immaterial. */
  lemma NameIsIgnored(cfg: Config, runId: nat, planId: nat, other: string)
    ensures Alike(Choice(cfg, runId, planId), Choice(cfg.(runName := other), runId, planId)) <==>
            cfg.runName == other || (runId != 0 && cfg.planName != "" && cfg.runName != "" && other != "")
  {
    var a, b := Choice(cfg, runId, planId), Choice(cfg.(runName := other), runId, planId);
    if cfg.runName == other {
      assert a == b;
    } else if Numbered(cfg, runId) && other != "" {
      forall db, sessions
        ensures SameOn(a, b, db, sessions)
      {
        RunNumberCounts(cfg, runId, planId, db, sessions, other);
      }
    } else {
      NameMatters(cfg, runId, planId, other);
    }
  }

  lemma NameMatters(cfg: Config, runId: nat, planId: nat, other: string)
    requires cfg.runName != other && !(Numbered(cfg, runId) && other != "")
    ensures !Alike(Choice(cfg, runId, planId), Choice(cfg.(runName := other), runId, planId))
  {
    var a, b := Choice(cfg, runId, planId), Choice(cfg.(runName := other), runId, planId);
    if Numbered(a.cfg, runId) {
      NumberIsUsed(a.cfg, runId, planId, runId);
      NoNameNoSession(b.cfg, runId, planId, ServerWith(runId), Session({7}, []));
      ToldApart(a, b, ServerWith(runId), Session({7}, []));
    } else if Numbered(b.cfg, runId) {
      NumberIsUsed(b.cfg, runId, planId, runId);
      NoNameNoSession(a.cfg, runId, planId, ServerWith(runId), Session({7}, []));
      ToldApart(a, b, ServerWith(runId), Session({7}, []));
    } else {
      NameIsLeftOrNothing(a.cfg, runId, planId);
      NameIsLeftOrNothing(b.cfg, runId, planId);
      ToldApart(a, b, EmptyServer(), Session({}, []));
    }
  }

  /** What tells the names apart on the empty server. */
  function NameOn(cfg: Config, db: Database): string
  {
    if cfg.planName == "" then if db.runs == [] then "" else db.runs[0].name
    else if 1 in db.entries && db.entries[1] != [] then db.entries[1][0].name else ""
  }

  lemma NameIsLeftOrNothing(cfg: Config, runId: nat, planId: nat)
    requires !Numbered(cfg, runId)
    ensures NameOn(cfg, AfterSession(cfg, runId, planId, EmptyServer(), Session({}, []))) == cfg.runName
  {
    if cfg.runName == "" {
      NoNameNoSession(cfg, runId, planId, EmptyServer(), Session({}, []));
    } else {
      NameIsLeft(cfg, runId, planId);
    }
  }

  /** The run's number makes no difference exactly if it is the same, or one of the two names
      is missing: then it is the number that is ignored. */
  lemma NumberIsIgnored(cfg: Config, runId: nat, planId: nat, other: nat)
    ensures Alike(Choice(cfg, runId, planId), Choice(cfg, other, planId)) <==>
            runId == other || cfg.planName == "" || cfg.runName == ""
  {
    var a, b := Choice(cfg, runId, planId), Choice(cfg, other, planId);
    if runId == other {
      assert a == b;
    } else if cfg.planName == "" || cfg.runName == "" {
      forall db, sessions
        ensures SameOn(a, b, db, sessions)
      {
        RunNumberCounts(cfg, runId, planId, db, sessions, "r");
        RunNumberCounts(cfg, other, planId, db, sessions, "r");
      }
    } else {
      NumberMatters(cfg, runId, planId, other);
    }
  }

  lemma NumberMatters(cfg: Config, runId: nat, planId: nat, other: nat)
    requires runId != other && cfg.planName != "" && cfg.runName != ""
    ensures !Alike(Choice(cfg, runId, planId), Choice(cfg, other, planId))
  {
    var used, spare := if runId != 0 then runId else other, if runId != 0 then other else runId;
    var s := Session({7}, []);
    NumberIsUsed(cfg, used, planId, used);
    if spare != 0 {
      NumberIsUsed(cfg, spare, planId, used);
    } else {
      PlanIsMade(cfg, planId, used);
    }
    ToldApart(Choice(cfg, runId, planId), Choice(cfg, other, planId), ServerWith(used), s);
  }

  lemma PlanIsMade(cfg: Config, planId: nat, known: nat)
    requires cfg.planName != "" && cfg.runName != "" && known != 0
    ensures AfterSession(cfg, 0, planId, ServerWith(known), Session({7}, [])).plans != []
  {
    var db := ServerWith(known);
    PerformTwo(db, AddPlan(cfg.planName), AddPlanEntry(db.nextId, cfg.runName, cfg.includeAll, {7}));
  }

  /** The plan's number never makes any difference, because the hooks find the plan by its name
      or do not need it. */
  lemma PlanNumberIsIgnored(cfg: Config, runId: nat, planId: nat, other: nat)
    ensures Alike(Choice(cfg, runId, planId), Choice(cfg, runId, other))
  {
    var a, b := Choice(cfg, runId, planId), Choice(cfg, runId, other);
    forall db, sessions | Consistent(db)
      ensures SameOn(a, b, db, sessions)
    {
      PlanNumberNeverCounts(cfg, runId, planId, other, db, sessions);
    }
  }

  lemma PlanNumberOnce(cfg: Config, runId: nat, planId: nat, other: nat, db: Database, s: Session)
    requires Consistent(db)
    ensures AfterSession(cfg, runId, planId, db, s) == AfterSession(cfg, runId, other, db, s)
  {
    if cfg.runName != "" && !Raises(cfg, runId, db) {
      SessionInSteps(cfg, runId, planId, db, s);
      SessionInSteps(cfg, runId, other, db, s);
      CollectionNamesRun(cfg, runId, db, s.keys);
    }
  }

  lemma {:induction false} PlanNumberNeverCounts(cfg: Config, runId: nat, planId: nat, other: nat, db: Database,
                                                 sessions: seq<Session>)
    requires Consistent(db)
    ensures AfterSessions(cfg, runId, planId, db, sessions) == AfterSessions(cfg, runId, other, db, sessions)
    decreases sessions
  {
    if sessions != [] {
      PlanNumberOnce(cfg, runId, planId, other, db, sessions[0]);
      SessionConsistent(cfg, runId, planId, db, sessions[0]);
      PlanNumberNeverCounts(cfg, runId, planId, other, AfterSession(cfg, runId, planId, db, sessions[0]),
                            sessions[1..]);
    }
  }
}
