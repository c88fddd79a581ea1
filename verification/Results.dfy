/** The results the TestRail plugin collects from pytest's reports, and the order and
    selection in which it publishes them. */
module Results {
  import opened Wrappers

  datatype Outcome = Passed | Failed | Skipped

  /** One pytest report of a test item. The marker holds the item's TestRail case numbers. */
  datatype Report = Report(nodeid: string, when: string, outcome: Outcome, marker: Option<seq<nat>>,
                           defects: Option<string>, comment: string)

  datatype Result = Result(caseId: nat, statusId: nat, defects: Option<string>, comment: string)

  const PASSED: nat := 1
  const BLOCKED: nat := 2
  const UNTESTED: nat := 3
  const FAILED: nat := 5

  function StatusOf(outcome: Outcome): nat
  {
    match outcome case Passed => PASSED case Skipped => BLOCKED case Failed => FAILED
  }

  datatype Rules = Rules(mergeParametrize: bool, publishErrors: bool)

  // ----- Which reports are recorded -----

  /** The test's name without its parameters. */
  function BaseName(nodeid: string): string
  {
    if nodeid == "" || nodeid[0] == '[' then "" else [nodeid[0]] + BaseName(nodeid[1..])
  }

  predicate Eligible(rules: Rules, r: Report)
  {
    r.marker.Some? && r.marker.value != [] && (r.when == "call" || (r.outcome == Failed && rules.publishErrors))
  }

  /** The outcomes of the eligible reports of one base test, in order. */
  function EligibleOutcomes(rules: Rules, reports: seq<Report>, base: string): seq<Outcome>
  {
    if reports == [] then []
    else
      var last := reports[|reports| - 1];
      EligibleOutcomes(rules, reports[..|reports| - 1], base) +
      if Eligible(rules, last) && BaseName(last.nodeid) == base then [last.outcome] else []
  }

  /** Whether a report is recorded after the given earlier ones. Merging keeps the first of a
      base test, and then only the first failure after it if that first one passed. */
  predicate Records(rules: Rules, earlier: seq<Report>, r: Report)
  {
    && Eligible(rules, r)
    && var outcomes := EligibleOutcomes(rules, earlier, BaseName(r.nodeid));
       || !rules.mergeParametrize
       || outcomes == []
       || (r.outcome == Failed && outcomes[0] == Passed && Failed !in outcomes)
  }

  function Recorded(rules: Rules, reports: seq<Report>): seq<Report>
  {
    if reports == [] then []
    else
      var front, last := reports[..|reports| - 1], reports[|reports| - 1];
      Recorded(rules, front) + if Records(rules, front, last) then [last] else []
  }

  /** add_result: one result for each case number. */
  function ResultsOf(r: Report, ids: seq<nat>): seq<Result>
  {
    if ids == [] then []
    else ResultsOf(r, ids[..|ids| - 1]) + [Result(ids[|ids| - 1], StatusOf(r.outcome), r.defects, r.comment)]
  }

  lemma {:induction false} ResultsOfEach(r: Report, ids: seq<nat>)
    ensures |ResultsOf(r, ids)| == |ids|
    ensures forall i :: 0 <= i < |ids| ==>
            ResultsOf(r, ids)[i] == Result(ids[i], StatusOf(r.outcome), r.defects, r.comment)
  {
    if ids != [] {
      ResultsOfEach(r, ids[..|ids| - 1]);
    }
  }

  function AllResults(reports: seq<Report>): seq<Result>
    requires forall r :: r in reports ==> r.marker.Some?
  {
    if reports == [] then []
    else AllResults(reports[..|reports| - 1]) + ResultsOf(reports[|reports| - 1], reports[|reports| - 1].marker.value)
  }

  lemma {:induction false} RecordedAreMarked(rules: Rules, reports: seq<Report>)
    ensures forall r :: r in Recorded(rules, reports) ==> r.marker.Some?
  {
    if reports != [] {
      RecordedAreMarked(rules, reports[..|reports| - 1]);
    }
  }

  // ----- Which reports belong together -----

  /** The base test is what comes before the first bracket, if there is one. */
  predicate IsBase(base: string, nodeid: string)
  {
    '[' !in base && (nodeid == base || base + "[" <= nodeid)
  }

  lemma {:induction false} BaseNameIsBase(nodeid: string)
    ensures IsBase(BaseName(nodeid), nodeid)
  {
    if nodeid != "" && nodeid[0] != '[' {
      BaseNameIsBase(nodeid[1..]);
      assert nodeid == [nodeid[0]] + nodeid[1..];
    }
  }

  lemma {:induction false} BaseIsBaseName(base: string, nodeid: string)
    requires IsBase(base, nodeid)
    ensures BaseName(nodeid) == base
  {
    if base != "" {
      assert nodeid[0] == base[0];
      if nodeid != base {
        assert (base + "[")[1..] == base[1..] + "[" <= nodeid[1..];
      }
      BaseIsBaseName(base[1..], nodeid[1..]);
    } else if nodeid != "" {
      assert nodeid[0] == '[';
    }
  }

  /** Two reports are of one base test exactly if their names agree up to the first bracket. */
  ghost predicate SameTest(x: string, y: string)
  {
    exists base :: IsBase(base, x) && IsBase(base, y)
  }

  lemma NamesAgree(x: string, y: string)
    ensures BaseName(x) == BaseName(y) <==> SameTest(x, y)
  {
    BaseNameIsBase(x);
    BaseNameIsBase(y);
    if SameTest(x, y) {
      var base :| IsBase(base, x) && IsBase(base, y);
      BaseIsBaseName(base, x);
      BaseIsBaseName(base, y);
    }
  }

  /** Which reports count at all: those of tests with case numbers, for their call phase, and for
      a failure in another phase if errors are published. */
  predicate Counts(rules: Rules, r: Report)
  {
    match r.marker
    case None => false
    case Some(ids) => |ids| > 0 && (r.when == "call" || (rules.publishErrors && r.outcome == Failed))
  }

  lemma {:induction false} OutcomesSeen(rules: Rules, reports: seq<Report>, nodeid: string)
    ensures EligibleOutcomes(rules, reports, BaseName(nodeid)) == [] <==>
            forall q :: q in reports && Counts(rules, q) ==> !SameTest(q.nodeid, nodeid)
  {
    if reports != [] {
      var front, last := reports[..|reports| - 1], reports[|reports| - 1];
      assert reports == front + [last];
      OutcomesSeen(rules, front, nodeid);
      NamesAgree(last.nodeid, nodeid);
    }
  }

  predicate NotFailed(reports: seq<Report>, rules: Rules, base: string)
  {
    forall q :: q in reports && Counts(rules, q) && BaseName(q.nodeid) == base ==> q.outcome != Failed
  }

  lemma {:induction false} FailuresSeen(rules: Rules, reports: seq<Report>, base: string)
    ensures Failed !in EligibleOutcomes(rules, reports, base) <==> NotFailed(reports, rules, base)
  {
    if reports != [] {
      var front, last := reports[..|reports| - 1], reports[|reports| - 1];
      assert reports == front + [last];
      FailuresSeen(rules, front, base);
    }
  }

  /** Whether the first report that counts of that test passed. */
  ghost predicate FirstPassed(rules: Rules, reports: seq<Report>, nodeid: string)
  {
    exists i :: 0 <= i < |reports| && FirstOfTest(rules, reports, nodeid, i) && reports[i].outcome == Passed
  }

  ghost predicate FirstOfTest(rules: Rules, reports: seq<Report>, nodeid: string, i: nat)
    requires i < |reports|
  {
    && Counts(rules, reports[i]) && SameTest(reports[i].nodeid, nodeid)
    && forall q :: q in reports[..i] && Counts(rules, q) ==> !SameTest(q.nodeid, nodeid)
  }

  lemma {:induction false} FirstOutcome(rules: Rules, reports: seq<Report>, nodeid: string)
    ensures var outcomes := EligibleOutcomes(rules, reports, BaseName(nodeid));
            outcomes != [] ==> (outcomes[0] == Passed <==> FirstPassed(rules, reports, nodeid))
  {
    if reports != [] {
      var front, last, n := reports[..|reports| - 1], reports[|reports| - 1], |reports| - 1;
      FirstOutcome(rules, front, nodeid);
      OutcomesSeen(rules, front, nodeid);
      NamesAgree(last.nodeid, nodeid);
      forall i | 0 <= i < n
        ensures FirstOfTest(rules, reports, nodeid, i) <==> FirstOfTest(rules, front, nodeid, i)
      {
        assert reports[..i] == front[..i] && reports[i] == front[i];
      }
      if EligibleOutcomes(rules, front, BaseName(nodeid)) != [] {
        assert !FirstOfTest(rules, reports, nodeid, n);
      }
    }
  }

  /** A report is recorded exactly if it counts and, with merging, is the first of its test that
      does, or the first failure of a test whose first report passed. */
  lemma RecordsMeans(rules: Rules, earlier: seq<Report>, r: Report)
    ensures Records(rules, earlier, r) <==>
            && Counts(rules, r)
            && (|| !rules.mergeParametrize
                || (forall q :: q in earlier && Counts(rules, q) ==> !SameTest(q.nodeid, r.nodeid))
                || (&& r.outcome == Failed && FirstPassed(rules, earlier, r.nodeid)
                    && forall q :: q in earlier && Counts(rules, q) && SameTest(q.nodeid, r.nodeid) ==>
                       q.outcome != Failed))
  {
    OutcomesSeen(rules, earlier, r.nodeid);
    FirstOutcome(rules, earlier, r.nodeid);
    FailuresSeen(rules, earlier, BaseName(r.nodeid));
    forall q | q in earlier
      ensures BaseName(q.nodeid) == BaseName(r.nodeid) <==> SameTest(q.nodeid, r.nodeid)
    {
      NamesAgree(q.nodeid, r.nodeid);
    }
  }

  lemma {:induction false} OutcomesWithout(rules: Rules, a: seq<Report>, q: Report, b: seq<Report>, base: string)
    requires BaseName(q.nodeid) != base
    ensures EligibleOutcomes(rules, a + [q] + b, base) == EligibleOutcomes(rules, a + b, base)
  {
    var x, y := a + [q] + b, a + b;
    if b == [] {
      assert x[..|x| - 1] == a && y == a;
    } else {
      var front := b[..|b| - 1];
      assert x[..|x| - 1] == a + [q] + front && y[..|y| - 1] == a + front;
      assert x[|x| - 1] == y[|y| - 1] == b[|b| - 1];
      OutcomesWithout(rules, a, q, front, base);
    }
  }

  /** A report of another test, wherever it comes, makes no difference to that. */
  lemma OtherTestsDoNotMatter(rules: Rules, a: seq<Report>, q: Report, b: seq<Report>, r: Report)
    requires !SameTest(q.nodeid, r.nodeid)
    ensures Records(rules, a + [q] + b, r) == Records(rules, a + b, r)
  {
    NamesAgree(q.nodeid, r.nodeid);
    OutcomesWithout(rules, a, q, b, BaseName(r.nodeid));
  }

  // ----- What merging amounts to -----

  /** The outcomes recorded for one base test. */
  function OutcomesOf(reports: seq<Report>, base: string): seq<Outcome>
  {
    if reports == [] then []
    else
      var last := reports[|reports| - 1];
      OutcomesOf(reports[..|reports| - 1], base) + if BaseName(last.nodeid) == base then [last.outcome] else []
  }

  function Merged(outcomes: seq<Outcome>): seq<Outcome>
  {
    if outcomes == [] then []
    else if outcomes[0] == Passed && Failed in outcomes then [Passed, Failed]
    else [outcomes[0]]
  }

  lemma OutcomesOfAppend(reports: seq<Report>, r: Report, base: string)
    ensures OutcomesOf(reports + [r], base) ==
            OutcomesOf(reports, base) + if BaseName(r.nodeid) == base then [r.outcome] else []
  {
    assert (reports + [r])[..|reports|] == reports;
  }

  /** Over every sequence of reports, a base test's record is its first eligible outcome,
      followed by one failure exactly when it first passed and some eligible report failed. */
  lemma {:induction false} MergedRecord(rules: Rules, reports: seq<Report>, base: string)
    requires rules.mergeParametrize
    ensures OutcomesOf(Recorded(rules, reports), base) == Merged(EligibleOutcomes(rules, reports, base))
  {
    if reports != [] {
      var front, last := reports[..|reports| - 1], reports[|reports| - 1];
      MergedRecord(rules, front, base);
      if Records(rules, front, last) {
        OutcomesOfAppend(Recorded(rules, front), last, base);
      } else {
        assert Recorded(rules, reports) == Recorded(rules, front);
      }
      MergedStep(EligibleOutcomes(rules, front, base), last.outcome);
    }
  }

  lemma MergedStep(outcomes: seq<Outcome>, next: Outcome)
    ensures Merged(outcomes + [next]) ==
            if outcomes == [] then [next]
            else if next == Failed && outcomes[0] == Passed && Failed !in outcomes then Merged(outcomes) + [Failed]
            else Merged(outcomes)
  {
    if outcomes != [] {
      assert (outcomes + [next])[0] == outcomes[0];
      assert Failed in outcomes + [next] <==> Failed in outcomes || next == Failed;
    }
  }

  /** The last recorded outcome tells whether anything failed, except exactly when the first
      eligible report was a skip and a later one failed: that failure is not recorded. */
  lemma LastRecordTellsFailure(rules: Rules, reports: seq<Report>, base: string)
    requires rules.mergeParametrize && EligibleOutcomes(rules, reports, base) != []
    ensures var all, kept := EligibleOutcomes(rules, reports, base), OutcomesOf(Recorded(rules, reports), base);
            && 1 <= |kept| <= 2 && kept[0] == all[0]
            && ((kept[|kept| - 1] == Failed <==> Failed in all) <==> !(all[0] == Skipped && Failed in all))
  {
    MergedRecord(rules, reports, base);
    assert EligibleOutcomes(rules, reports, base)[0] in EligibleOutcomes(rules, reports, base);
  }

  // ----- Sorting for publication -----

  /** The results of one case, in order. */
  function ForCase(results: seq<Result>, c: nat): seq<Result>
  {
    if results == [] then []
    else
      var last := results[|results| - 1];
      ForCase(results[..|results| - 1], c) + if last.caseId == c then [last] else []
  }

  predicate SortedByCase(results: seq<Result>)
  {
    forall i, j :: 0 <= i < j < |results| ==> results[i].caseId <= results[j].caseId
  }

  function Insert(sorted: seq<Result>, r: Result): seq<Result>
  {
    if sorted == [] || sorted[|sorted| - 1].caseId <= r.caseId then sorted + [r]
    else Insert(sorted[..|sorted| - 1], r) + [sorted[|sorted| - 1]]
  }

  /** list.sort by case_id: stable. */
  function SortByCase(results: seq<Result>): seq<Result>
  {
    if results == [] then [] else Insert(SortByCase(results[..|results| - 1]), results[|results| - 1])
  }

  lemma ForCaseAppend(results: seq<Result>, r: Result, c: nat)
    ensures ForCase(results + [r], c) == ForCase(results, c) + if r.caseId == c then [r] else []
  {
    assert (results + [r])[..|results|] == results;
  }

  lemma {:induction false} InsertForCase(sorted: seq<Result>, r: Result, c: nat)
    ensures ForCase(Insert(sorted, r), c) == ForCase(sorted, c) + if r.caseId == c then [r] else []
  {
    if sorted == [] || sorted[|sorted| - 1].caseId <= r.caseId {
      ForCaseAppend(sorted, r, c);
    } else {
      var front, last := sorted[..|sorted| - 1], sorted[|sorted| - 1];
      InsertForCase(front, r, c);
      ForCaseAppend(Insert(front, r), last, c);
    }
  }

  lemma {:induction false} InsertSorted(sorted: seq<Result>, r: Result)
    requires SortedByCase(sorted)
    ensures SortedByCase(Insert(sorted, r))
    ensures forall x :: x in Insert(sorted, r) ==> x == r || x in sorted
  {
    if sorted != [] && sorted[|sorted| - 1].caseId > r.caseId {
      var front, last := sorted[..|sorted| - 1], sorted[|sorted| - 1];
      InsertSorted(front, r);
      var s := Insert(front, r);
      forall i | 0 <= i < |s|
        ensures s[i].caseId <= last.caseId
      {
        assert s[i] in s;
      }
    }
  }

  /** Sorting orders the results by case and leaves each case's results in execution order. */
  lemma {:induction false} SortIsStable(results: seq<Result>, c: nat)
    ensures SortedByCase(SortByCase(results)) && ForCase(SortByCase(results), c) == ForCase(results, c)
  {
    if results != [] {
      SortIsStable(results[..|results| - 1], c);
      InsertSorted(SortByCase(results[..|results| - 1]), results[|results| - 1]);
      InsertForCase(SortByCase(results[..|results| - 1]), results[|results| - 1], c);
    }
  }

  lemma {:induction false} ForCaseMembers(results: seq<Result>, c: nat)
    ensures forall i :: 0 <= i < |ForCase(results, c)| ==> ForCase(results, c)[i].caseId == c
    ensures ForCase(results, c) != [] <==> exists i :: 0 <= i < |results| && results[i].caseId == c
  {
    if results != [] {
      ForCaseMembers(results[..|results| - 1], c);
      assert results[|results| - 1].caseId == c ==> ForCase(results, c) != [];
    }
  }

  predicate Agree(a: seq<Result>, b: seq<Result>, c: nat)
  {
    ForCase(a, c) == ForCase(b, c)
  }

  lemma LastAgrees(a: seq<Result>, b: seq<Result>)
    requires SortedByCase(a) && SortedByCase(b) && forall c :: Agree(a, b, c)
    requires a != [] && b != []
    ensures a[|a| - 1] == b[|b| - 1]
  {
    var m, k := a[|a| - 1].caseId, b[|b| - 1].caseId;
    assert Agree(a, b, m) && Agree(a, b, k);
    ForCaseMembers(b, m);
    ForCaseMembers(a, k);
    assert m == k;
    var of := ForCase(a, m);
    assert of[|of| - 1] == a[|a| - 1];
    assert of == ForCase(b, m) && of[|of| - 1] == b[|b| - 1];
  }

  /** Nothing else is sorted with each case's results in that order. */
  lemma {:induction false} StableSortIsUnique(a: seq<Result>, b: seq<Result>)
    requires SortedByCase(a) && SortedByCase(b) && forall c :: Agree(a, b, c)
    ensures a == b
  {
    if a == [] || b == [] {
      if a != b {
        var c := if a == [] then b[0].caseId else a[0].caseId;
        assert Agree(a, b, c);
        ForCaseMembers(a, c);
        ForCaseMembers(b, c);
      }
    } else {
      LastAgrees(a, b);
      var x, y, last := a[..|a| - 1], b[..|b| - 1], a[|a| - 1];
      forall c
        ensures Agree(x, y, c)
      {
        assert Agree(a, b, c);
        SameFront(ForCase(x, c), ForCase(y, c), if last.caseId == c then [last] else []);
      }
      StableSortIsUnique(x, y);
      assert a == x + [last] && b == y + [last];
    }
  }

  lemma SameFront(x: seq<Result>, y: seq<Result>, tail: seq<Result>)
    ensures x + tail == y + tail ==> x == y
  {
    if x + tail == y + tail {
      assert |x| == |y|;
      assert (x + tail)[..|x|] == x && (y + tail)[..|y|] == y;
    }
  }

  // ----- Is it sorted by status too? -----

  predicate SortedByCaseAndStatus(results: seq<Result>)
  {
    forall i, j :: 0 <= i < j < |results| ==>
      results[i].caseId < results[j].caseId ||
      (results[i].caseId == results[j].caseId && results[i].statusId <= results[j].statusId)
  }

  /** No result has a lower status than one before it. */
  predicate Worsening(results: seq<Result>)
  {
    forall i, j :: 0 <= i < j < |results| ==> results[i].statusId <= results[j].statusId
  }

  lemma {:induction false} ForCaseContents(results: seq<Result>, c: nat)
    ensures forall x :: x in ForCase(results, c) <==> x in results && x.caseId == c
  {
    if results != [] {
      ForCaseContents(results[..|results| - 1], c);
      assert results == results[..|results| - 1] + [results[|results| - 1]];
    }
  }

  lemma WorseningAppend(results: seq<Result>, r: Result)
    ensures Worsening(results + [r]) <==> Worsening(results) && forall x :: x in results ==> x.statusId <= r.statusId
  {
    var all := results + [r];
    assert forall i :: 0 <= i < |results| ==> all[i] == results[i];
    assert all[|results|] == r;
    if Worsening(all) {
      forall x | x in results ensures x.statusId <= r.statusId {
        var i :| 0 <= i < |results| && results[i] == x;
        assert all[i].statusId <= all[|results|].statusId;
      }
    }
  }

  predicate CaseWorsens(results: seq<Result>, c: nat)
  {
    Worsening(ForCase(results, c))
  }

  /** Any two results of the case come in order of their statuses. */
  predicate InStatusOrder(results: seq<Result>, c: nat)
  {
    forall i, j :: 0 <= i < j < |results| && results[i].caseId == c && results[j].caseId == c ==>
      results[i].statusId <= results[j].statusId
  }

  lemma InStatusOrderAppend(results: seq<Result>, r: Result, c: nat)
    ensures InStatusOrder(results + [r], c) <==>
            InStatusOrder(results, c) &&
            (r.caseId == c ==> forall x :: x in results && x.caseId == c ==> x.statusId <= r.statusId)
  {
    var all := results + [r];
    assert forall i :: 0 <= i < |results| ==> all[i] == results[i];
    assert all[|results|] == r;
    if InStatusOrder(all, c) && r.caseId == c {
      forall x | x in results && x.caseId == c ensures x.statusId <= r.statusId {
        var i :| 0 <= i < |results| && results[i] == x;
        assert all[i].statusId <= all[|results|].statusId;
      }
    }
  }

  lemma {:induction false} WorsensInOrder(results: seq<Result>, c: nat)
    ensures CaseWorsens(results, c) <==> InStatusOrder(results, c)
  {
    if results != [] {
      var front, last := results[..|results| - 1], results[|results| - 1];
      assert results == front + [last];
      WorsensInOrder(front, c);
      InStatusOrderAppend(front, last, c);
      ForCaseContents(front, c);
      if last.caseId == c {
        WorseningAppend(ForCase(front, c), last);
      } else {
        assert ForCase(results, c) == ForCase(front, c);
      }
    }
  }

  /** A list sorted by case is also sorted by status exactly if no case gets better in it. */
  lemma StatusOrder(results: seq<Result>)
    requires SortedByCase(results)
    ensures SortedByCaseAndStatus(results) <==> forall c :: CaseWorsens(results, c)
  {
    forall c
      ensures CaseWorsens(results, c) <==> InStatusOrder(results, c)
    {
      WorsensInOrder(results, c);
    }
    if forall c :: CaseWorsens(results, c) {
      forall i, j | 0 <= i < j < |results| && results[i].caseId == results[j].caseId
        ensures results[i].statusId <= results[j].statusId
      {
        assert CaseWorsens(results, results[i].caseId);
      }
    }
  }

  /** So sorting by case sorts by status too exactly if each case's results come with statuses
      that never fall, in execution order. */
  lemma SortedByStatusToo(results: seq<Result>)
    ensures SortedByCaseAndStatus(SortByCase(results)) <==> forall c :: CaseWorsens(results, c)
  {
    var sorted := SortByCase(results);
    SortIsStable(results, 0);
    StatusOrder(sorted);
    forall c
      ensures CaseWorsens(sorted, c) == CaseWorsens(results, c)
    {
      SortIsStable(results, c);
    }
  }

  /** The results whose case is not excluded. */
  function Without(results: seq<Result>, excluded: set<nat>): seq<Result>
  {
    if results == [] then []
    else
      var last := results[|results| - 1];
      Without(results[..|results| - 1], excluded) + if last.caseId !in excluded then [last] else []
  }

  lemma {:induction false} WithoutForCase(results: seq<Result>, excluded: set<nat>, c: nat)
    ensures ForCase(Without(results, excluded), c) == if c in excluded then [] else ForCase(results, c)
  {
    if results != [] {
      var front, last := results[..|results| - 1], results[|results| - 1];
      WithoutForCase(front, excluded, c);
      if last.caseId !in excluded {
        ForCaseAppend(Without(front, excluded), last, c);
      } else {
        assert Without(results, excluded) == Without(front, excluded);
      }
    }
  }

  lemma {:induction false} WithoutMembers(results: seq<Result>, excluded: set<nat>)
    ensures forall x :: x in Without(results, excluded) ==> x in results && x.caseId !in excluded
  {
    if results != [] {
      WithoutMembers(results[..|results| - 1], excluded);
    }
  }

  lemma {:induction false} WithoutSorted(results: seq<Result>, excluded: set<nat>)
    requires SortedByCase(results)
    ensures SortedByCase(Without(results, excluded))
  {
    if results != [] {
      var kept := Without(results[..|results| - 1], excluded);
      WithoutSorted(results[..|results| - 1], excluded);
      WithoutMembers(results[..|results| - 1], excluded);
      forall i | 0 <= i < |kept|
        ensures kept[i].caseId <= results[|results| - 1].caseId
      {
        assert kept[i] in kept;
      }
    }
  }
}
