/** Concrete inputs on which the code does not do what one might expect of it. Each comment names
    the lemma that says, for all inputs, exactly when it does. */
module Counterexamples {
  import opened Wrappers
  import opened Bytes
  import opened CInterface
  import opened AutoCArrays
  import opened Refresh
  import opened TwoCalls
  import opened HexCodec
  import opened Multipart
  import opened Encryption
  import opened EncryptionProofs
  import R = Results
  import S = TestRailServer
  import P = Reconciling
  import Q = Sessions
  import C = ClosingProofs

  /** TwoCalls.SizeFirstNeedsEmptyAnswers: reading size first, a one-element answer never comes. */
  lemma SizeFirstFails()
    ensures var op := Operation("Query", (w: bool) => Done(w, [7]), (w: bool) => Estimate.Sized(1));
            LastCode(Refresh.Step(op, false, 0), Fresh(true), 1) == Some(CKR_BUFFER_TOO_SMALL)
  {
    var op := Operation("Query", (w: bool) => Done(w, [7]), (w: bool) => Estimate.Sized(1));
    SizeFirstNeedsEmptyAnswers(op, 0, true, 1);
  }

  /** TwoCalls.SizeFirstNeedsEmptyAnswers: nor does an empty one from an operation that, once
      carried out, is over. */
  lemma SizeFirstRunsTwice()
    ensures LastCode(Refresh.Step(SingleOp(Trailing([], []), []), false, 0), Fresh(Active(())), 1) ==
            Some(CKR_OPERATION_NOT_INITIALIZED)
  {
    var c := Trailing([], []);
    var op, s := SingleOp(c, []), Fresh<Session<()>, Byte>(Active(()));
    assert c.single((), []) == Ended([]);
    var step := Refresh.Step(op, false, 0);
    assert op.run(Active(())) == Done(Idle, []) && op.run(Idle) == Failed(CKR_OPERATION_NOT_INITIALIZED, Idle);
    CrampedStep(op, 0, Active(()));
    CrampedStep(op, 0, Idle);
    assert step(s) == (Cramped(Idle, 0), CKR_OK);
    assert Runs(step, s, 1) == 2 && Orbit(step, s, 1) == Cramped(Idle, 0);
  }

  /** Outputs the same for every Update, and the same for every Final. */
  function Trailing(body: seq<Byte>, trailer: seq<Byte>): Cipher<()>
  {
    Cipher(Started(()),
           (s: (), d: seq<Byte>) => Next((), body), (s: (), d: seq<Byte>) => Guess(|body|),
           (s: ()) => Ended(trailer), (s: ()) => Guess(|trailer|),
           (s: (), d: seq<Byte>) => Ended(trailer), (s: (), d: seq<Byte>) => Guess(|trailer|))
  }

  /** TwoCalls.PolicyDictIsTheCalleesMap: one policy in room for two adds policy 0. */
  lemma PaddingAddsAPolicy()
    ensures PolicyDict(Callee([5], [7], 2, 2, None, None)) == map[5 := 7, 0 := 0]
  {
    PolicyDictIsTheCalleesMap(Callee([5], [7], 2, 2, None, None));
    assert PairsUpTo([5], [7], 1) == map[5 := 7];
  }

  /** TwoCalls.PolicyDictAfterFailure: instead of None, there is a dictionary, and after a failed
      fetch not even an empty one. */
  lemma FailureGivesADictionary()
    ensures var refused, failed := Callee([5], [7], 1, 1, Some(5), None), Callee([5], [7], 1, 1, None, Some(5));
            && PolicyCode(refused) == Some(5) && PolicyDict(refused) == map[]
            && PolicyCode(failed) == Some(5) && PolicyDict(failed) == map[0 := 0]
  {
    var refused, failed := Callee([5], [7], 1, 1, Some(5), None), Callee([5], [7], 1, 1, None, Some(5));
    PolicyCodeTells(refused);
    PolicyCodeTells(failed);
    PolicyDictAfterFailure(refused);
    PolicyDictAfterFailure(failed);
  }

  /** HexCodec.RawRoundTrip: raw bytes that begin with "0x" lose it. */
  lemma RawBytesLosePrefix()
    ensures ToByteArray(Literal([48, 120, 222])) == Some([222])
  {
    assert [48, 120, 222][2..] == [222];
    assert !Printable([222][0]);
  }

  /** HexCodec.ArrayRepeats: an empty array's hex text is not accepted again, and a leading zero
      byte does not survive the second conversion. */
  lemma ArraysThatDoNotRepeat()
    ensures ToByteArray(HexCodec.Items([])) == Some([])
    ensures ToByteArray(Literal(FromByteArray([], true))) == None
    ensures ToByteArray(Literal(FromByteArray([0, 1], true))) == Some([1])
  {
    ArrayRepeats([]);
    ArrayRepeats([0, 1]);
    assert [0, 1][..1] == [0] && BigEndian([0, 1]) == BigEndian([1]) == 1;
    ShortestIsUnique([1]);
  }

  /** EncryptionProofs.OperationLeftActive: one byte of room for a Final of two. */
  lemma ShortFinalBufferLeavesActive()
    ensures Respond(Trailing([], [1, 2]), Idle, Pieces([], [1])) == Response(CKR_BUFFER_TOO_SMALL, Some([]), Active(()))
  {
    var c := Trailing([], [1, 2]);
    assert Max([1]) == 1;
    assert FinalOp(c).run(Active(())) == Done(Idle, [1, 2]);
    assert Exchange(FinalOp(c), Active(()), Some(1)) == Reply(Active(()), CKR_BUFFER_TOO_SMALL, 2, []);
  }

  /** EncryptionProofs.OperationLeftActive: an Update without room, and then the Final that is to
      leave nothing active has more to output than the 0xffff bytes it is given. */
  lemma LongTrailerLeavesActive()
    ensures Respond(Trailing([1], Zeros(0, MAX_BUFFER + 1)), Idle, Pieces([[]], [0])).session.Active?
  {
    var c := Trailing([1], Zeros(0, MAX_BUFFER + 1));
    OperationLeftActive(c, (), [[]], [0]);
    assert c.update((), []) == Next((), [1]) && Reached(c, (), [[]], [0], 0) == (0, ());
  }

  /** EncryptionProofs.OperationLeftActive: two chunks, one buffer, and an exception. */
  lemma ShortBufferListLeavesActive()
    ensures Respond(Trailing([], []), Idle, Pieces([[7], [7]], [1])) == Raised(Active(()))
  {
    var c := Trailing([], []);
    var op := UpdateOp(c)([7]);
    assert op.run(Active(())) == Done(Active(()), []);
    assert Advance(UpdateOp(c), Active(()), [[7], [7]], [1], 1) == Progress(1, Active(()), []);
  }

  /** Results.LastRecordTellsFailure: a skip hides the failure after it. */
  lemma SkipHidesFailure()
    ensures var skip := R.Report("t[a]", "call", R.Skipped, Some([1]), None, "");
            var fail := R.Report("t[b]", "call", R.Failed, Some([1]), None, "");
            R.Recorded(R.Rules(true, false), [skip, fail]) == [skip]
  {
    var skip := R.Report("t[a]", "call", R.Skipped, Some([1]), None, "");
    var fail := R.Report("t[b]", "call", R.Failed, Some([1]), None, "");
    var rules := R.Rules(true, false);
    assert "t[a]"[1..] == "[a]" && "t[b]"[1..] == "[b]";
    assert R.BaseName("t[a]") == "t" && R.BaseName("t[b]") == "t";
    assert [skip, fail][..1] == [skip] && [skip][..0] == [];
    assert R.EligibleOutcomes(rules, [skip], "t") == [R.Skipped];
    assert R.Recorded(rules, [skip]) == [skip];
  }

  /** Results.SortedByStatusToo: a case fails and then passes, and is posted so. */
  lemma SortingIgnoresStatus()
    ensures var worse, better := R.Result(1, R.FAILED, None, ""), R.Result(1, R.PASSED, None, "");
            R.SortByCase([worse, better]) == [worse, better] && !R.SortedByCaseAndStatus([worse, better])
  {
    var worse, better := R.Result(1, R.FAILED, None, ""), R.Result(1, R.PASSED, None, "");
    assert [worse, better][..1] == [worse] && [worse][..0] == [];
    assert R.SortByCase([worse]) == [worse];
    assert [worse, better][0] == worse && [worse, better][1] == better;
  }

  /** Options.NameIsIgnored: two open runs, and of these the session takes the one of the name,
      not the one of the number. */
  lemma NumberYieldsToName()
    ensures var cfg := P.Config("a", "", false, true, "", false, R.Rules(false, false));
            var runs := [S.Row(1, "a", false), S.Row(2, "b", false)];
            var db := S.Database([], map[], map[], runs, map[1 := map[], 2 := map[]], {}, 3);
            var after := Q.AfterSession(cfg, 2, 0, db, Q.Session({7}, []));
            && Q.StatusIn(after, 1, 7) == Some(R.UNTESTED) && Q.StatusIn(after, 2, 7) == None
  {
    var cfg := P.Config("a", "", false, true, "", false, R.Rules(false, false));
    var runs := [S.Row(1, "a", false), S.Row(2, "b", false)];
    var db := S.Database([], map[], map[], runs, map[1 := map[], 2 := map[]], {}, 3);
    assert runs[1..] == [S.Row(2, "b", false)] && runs[1..][1..] == [];
    assert S.Open(runs) == runs;
    P.PerformOne(db, S.UpdateRun(1, {7}));
    assert db.tests[1].Keys + {7} == {7};
  }

  /** ClosingProofs.CreatedRunEndsAsUnion: a run created with the whole suite lacks a collected case
      that is not in the suite. */
  lemma IncludeAllDropsCollectedCase()
    ensures var cfg := P.Config("r", "", true, true, "", false, R.Rules(false, false));
            var after := Q.AfterSession(cfg, 0, 0, S.Database([], map[], map[], [], map[], {1}, 1), Q.Session({2}, []));
            exists t :: P.Target(cfg, 0, after) == Some(t) && t in after.tests && after.tests[t].Keys == {1}
  {
    var cfg := P.Config("r", "", true, true, "", false, R.Rules(false, false));
    var db := S.Database([], map[], map[], [], map[], {1}, 1);
    assert Q.Union([]) == {};
    C.CreatedRunEndsAsUnion(cfg, 0, 0, db, [Q.Session({2}, [])]);
  }

  /** Sessions.SessionStatus: and then its result takes the other results down with it. */
  lemma ForeignResultDropsTheOthers()
    ensures var cfg := P.Config("r", "", true, true, "", false, R.Rules(false, false));
            var results := [R.Result(1, R.PASSED, None, ""), R.Result(2, R.PASSED, None, "")];
            var db := S.Database([], map[], map[], [], map[], {1}, 1);
            Q.StatusIn(Q.AfterSession(cfg, 0, 0, db, Q.Session({1, 2}, results)), Q.RunOf(cfg, 0, db, {1, 2}), 1) ==
            Some(R.UNTESTED)
  {
    var cfg := P.Config("r", "", true, true, "", false, R.Rules(false, false));
    var results := [R.Result(1, R.PASSED, None, ""), R.Result(2, R.PASSED, None, "")];
    var db := S.Database([], map[], map[], [], map[], {1}, 1);
    Q.SessionStatus(cfg, 0, 0, db, Q.Session({1, 2}, results), 1);
    assert results[1] in results && results[1].caseId !in Q.CasesAfter(cfg, 0, db, {1, 2});
  }

  /** A server with this one open run, outside plans. */
  function OneRun(status: nat): (db: S.Database)
    ensures S.Consistent(db)
  {
    S.Database([], map[], map[], [S.Row(1, "r", false)], map[1 := map[1 := status]], {}, 2)
  }

  lemma OneRunIsNamed(cfg: P.Config, status: nat)
    requires cfg.runName == "r" && cfg.planName == ""
    ensures Q.KnownRun(cfg, 0, OneRun(status), 1)
  {
    assert [S.Row(1, "r", false)][1..] == [];
    assert S.Open(OneRun(status).runs) == [S.Row(1, "r", false)];
  }

  /** Sessions.SessionVerdict: a case that the server has as blocked passes, and stays blocked. */
  lemma HeldBackStaysBlocked()
    ensures var cfg := P.Config("r", "", false, false, "", false, R.Rules(false, false));
            var s := Q.Session({1}, [R.Result(1, R.PASSED, None, "")]);
            Q.StatusIn(Q.AfterSession(cfg, 0, 0, OneRun(R.BLOCKED), s), 1, 1) == Some(R.BLOCKED)
  {
    var cfg := P.Config("r", "", false, false, "", false, R.Rules(false, false));
    var s := Q.Session({1}, [R.Result(1, R.PASSED, None, "")]);
    OneRunIsNamed(cfg, R.BLOCKED);
    Q.KnownRunAfter(cfg, 0, 0, OneRun(R.BLOCKED), s, 1);
    Q.SessionStatus(cfg, 0, 0, OneRun(R.BLOCKED), s, 1);
  }

  /** ClosingProofs.RunsAreUsedUp: a session with a result closes the only run of the name, and the
      next session raises. */
  lemma ClosingMakesNextSessionRaise()
    ensures var cfg := P.Config("r", "", false, true, "", true, R.Rules(false, false));
            var s := Q.Session({1}, [R.Result(1, R.PASSED, None, "")]);
            P.Raises(cfg, 0, Q.AfterSession(cfg, 0, 0, OneRun(R.UNTESTED), s))
  {
    var cfg := P.Config("r", "", false, true, "", true, R.Rules(false, false));
    var s := Q.Session({1}, [R.Result(1, R.PASSED, None, "")]);
    OneRunIsNamed(cfg, R.UNTESTED);
    assert [S.Row(1, "r", false)][1..] == [];
    assert S.Open(OneRun(R.UNTESTED).runs) == [S.Row(1, "r", false)];
    assert C.Others(S.Open(OneRun(R.UNTESTED).runs), 1) == [];
    C.ClosingSession(cfg, 0, 0, OneRun(R.UNTESTED), s, 1);
  }

  /** ClosingProofs.RunsAreUsedUp: the same if the session has made that run itself. */
  lemma OwnRunClosedMakesNextSessionRaise()
    ensures var cfg := P.Config("r", "", false, true, "", true, R.Rules(false, false));
            var db := S.Database([], map[], map[], [], map[], {}, 1);
            P.Raises(cfg, 0, Q.AfterSessions(cfg, 0, 0, db, [Q.Session({1}, [R.Result(1, R.PASSED, None, "")])]))
  {
    var cfg := P.Config("r", "", false, true, "", true, R.Rules(false, false));
    var db := S.Database([], map[], map[], [], map[], {}, 1);
    C.RunsAreUsedUp(cfg, 0, 0, db, [Q.Session({1}, [R.Result(1, R.PASSED, None, "")])]);
  }

  /** Reconciling.Raises: the name of a completed run is found, and then is not. */
  lemma CompletedRunRaises()
    ensures var cfg := P.Config("r", "", false, true, "", false, R.Rules(false, false));
            P.Raises(cfg, 0, S.Database([], map[], map[], [S.Row(1, "r", true)], map[1 := map[]], {}, 2))
  {
    assert [S.Row(1, "r", true)][1..] == [];
  }
}
