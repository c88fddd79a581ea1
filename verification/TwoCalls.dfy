/** What the library's closures over fresh arrays deliver: one array, and the pair of arrays
    that token policies and capabilities are read into. */
module TwoCalls {
  import opened Wrappers
  import opened CInterface
  import opened AutoCArrays
  import opened Refresh

  function Fresh<W, T>(w: W): Situation<W, T>
  {
    Situation(w, View(None, None))
  }

  /** What a fresh array looks like once the two-call exchange is over. */
  function Filled<W, T>(op: Operation<W, T>, zero: T, w: W): View<T>
  {
    var r := Exchange(op, w, None);
    match op.estimate(w)
    case Refused(_, _) => View(Some(r.size), None)
    case Sized(n) => View(Some(r.size), Some(if |r.output| <= n then r.output + Zeros(zero, n - |r.output|) else []))
  }

  /** Reading `array` before `size`, one retry is exactly a query and a fetch. */
  lemma ArrayFirstExchanges<W, T>(op: Operation<W, T>, zero: T, w: W)
    ensures var step, r := Step(op, true, zero), Exchange(op, w, None);
            && LastCode(step, Fresh(w), 1) == Some(r.code)
            && Orbit(step, Fresh(w), Runs(step, Fresh(w), 1)) == Situation(r.world, Filled(op, zero, w))
  {
    var step := Step(op, true, zero);
    var s1 := step(Fresh(w)).0;
    assert Orbit(step, Fresh(w), 1) == s1;
    if op.estimate(w).Refused? {
      assert Runs(step, Fresh(w), 1) == 1;
      assert CodeAt(step, Fresh(w), 0) == Exchange(op, w, None).code;
    } else {
      var n := op.estimate(w).size;
      assert s1 == Situation(w, View(Some(n), None));
      var s2 := step(s1).0;
      OrbitStep(step, Fresh(w), 1);
      assert Runs(step, Fresh(w), 1) == 2;
      var r := Answer(op, w, Some(n));
      assert r.output + Zeros(zero, n)[|r.output|..] == r.output + Zeros(zero, n - |r.output|);
      assert step(s1) == (Situation(r.world, Filled(op, zero, w)), r.code);
    }
  }

  /** Hence, for a callee whose size query suffices, the closure succeeds exactly when the
      callee does; the answer is the prefix of the buffer that the size cell measures. */
  lemma ArrayFirstDelivers<W, T>(op: Operation<W, T>, zero: T, w: W)
    requires SoundAt(op, w)
    ensures var step, out := Step(op, true, zero), op.run(w);
            var s := Orbit(step, Fresh(w), Runs(step, Fresh(w), 1));
            && (LastCode(step, Fresh(w), 1) == Some(CKR_OK) <==> out.Done?)
            && (out.Done? ==>
                  && s.world == out.next && s.view.size == Some(|out.output|)
                  && s.view.buffer.Some? && |out.output| <= |s.view.buffer.value| == op.estimate(w).size
                  && s.view.buffer.value[..|out.output|] == out.output
                  && (s.view.buffer.value == out.output <==> op.estimate(w).size == |out.output|))
  {
    ArrayFirstExchanges(op, zero, w);
    ExchangeMeaning(op, w, None);
  }

  /** The operation can be carried out n times in a row, each time with an empty answer. */
  predicate EmptyAnswers<W, T>(op: Operation<W, T>, w: W, n: nat)
  {
    n == 0 ||
    match op.run(w)
    case Failed(_, _) => false
    case Done(next, output) => |output| == 0 && EmptyAnswers(op, next, n - 1)
  }

  /** After a first read of `size`, the array is a real buffer of no capacity, and stays so. */
  function Cramped<W, T>(w: W, size: nat): Situation<W, T>
  {
    Situation(w, View(Some(size), Some([])))
  }

  lemma CrampedStep<W, T>(op: Operation<W, T>, zero: T, w: W)
    ensures var r := Answer(op, w, Some(0));
            && Step(op, false, zero)(Fresh(w)) == (Cramped(r.world, r.size), r.code)
            && Step(op, false, zero)(Cramped(w, 0)) == (Cramped(r.world, r.size), r.code)
  {
    var r := Answer(op, w, Some(0));
    assert Zeros(zero, 0) == [] && r.output == [];
    assert [] + Zeros(zero, 0)[0..] == [];
  }

  lemma {:induction false} CrampedRuns<W, T>(op: Operation<W, T>, zero: T, w: W, retries: nat)
    ensures LastCode(Step(op, false, zero), Cramped(w, 0), retries) == Some(CKR_OK) <==>
            EmptyAnswers(op, w, retries + 1)
  {
    CrampedStep(op, zero, w);
    var step := Step(op, false, zero);
    if op.run(w).Done? && |op.run(w).output| == 0 {
      assert step(Cramped(w, 0)) == (Cramped(op.run(w).next, 0), CKR_OK);
      if retries > 0 {
        LastCodeAfterOk(step, Cramped(w, 0), retries);
        CrampedRuns(op, zero, op.run(w).next, retries - 1);
      } else {
        assert EmptyAnswers(op, op.run(w).next, 0);
        assert CodeAt(step, Cramped(w, 0), 0) == CKR_OK;
      }
    } else {
      assert step(Cramped(w, 0)).1 != CKR_OK;
      assert Runs(step, Cramped(w, 0), retries) == 1;
      assert CodeAt(step, Cramped(w, 0), 0) != CKR_OK;
    }
  }

  lemma {:induction false} LastCodeAfterOk<S>(step: S -> (S, nat), s: S, retries: nat)
    requires retries > 0 && step(s).1 == CKR_OK
    ensures LastCode(step, s, retries) == LastCode(step, step(s).0, retries - 1)
  {
    var n := Runs(step, step(s).0, retries - 1);
    RunsStopAtFirstFailure(step, step(s).0, retries - 1);
    assert Runs(step, s, retries) == n + 1;
    assert CodeAt(step, s, n) == CodeAt(step, step(s).0, n - 1);
  }

  /** Reading `size` first, the closure succeeds exactly when the callee can really be called
      retries + 1 times and answers with nothing every time: no run is a mere query. A longer
      first answer is refused as too long, with the state untouched and nothing retried. */
  lemma SizeFirstNeedsEmptyAnswers<W, T>(op: Operation<W, T>, zero: T, w: W, retries: nat)
    ensures var step, out := Step(op, false, zero), op.run(w);
            && (LastCode(step, Fresh(w), retries) == Some(CKR_OK) <==> EmptyAnswers(op, w, retries + 1))
            && (out.Done? && out.output != [] ==>
                  && LastCode(step, Fresh(w), retries) == Some(CKR_BUFFER_TOO_SMALL)
                  && Orbit(step, Fresh(w), Runs(step, Fresh(w), retries)) == Cramped(w, |out.output|))
  {
    var step := Step(op, false, zero);
    CrampedStep(op, zero, w);
    CrampedRuns(op, zero, w, retries);
    SameFirstStep(step, Fresh(w), Cramped(w, 0), retries);
    assert Orbit(step, Fresh(w), 1) == step(Fresh(w)).0;
  }

  lemma SameFirstStep<S>(step: S -> (S, nat), s: S, t: S, retries: nat)
    requires step(s) == step(t)
    ensures Runs(step, s, retries) == Runs(step, t, retries) && LastCode(step, s, retries) == LastCode(step, t, retries)
  {
    var n := Runs(step, s, retries);
    if n > 1 {
      assert CodeAt(step, s, n - 1) == CodeAt(step, step(s).0, n - 2) == CodeAt(step, t, n - 1);
    } else {
      assert CodeAt(step, s, 0) == CodeAt(step, t, 0);
    }
  }

  // ----- Closures over two arrays: identifiers and values -----

  /** The callee: the lists it has to give and the size it announces for each, or its failure
      to be asked for sizes, or to deliver. */
  datatype Callee = Callee(ids: seq<nat>, vals: seq<nat>, idSpace: nat, valSpace: nat,
                           queryFailure: Option<ErrorCode>, fetchFailure: Option<ErrorCode>)

  /** The two lists belong together. */
  type Listing = l: Callee | |l.ids| == |l.vals| witness Callee([], [], 0, 0, None, None)

  predicate Suffices(l: Listing)
  {
    |l.ids| <= l.idSpace && |l.vals| <= l.valSpace
  }

  /** It delivers: nothing fails and both announced sizes suffice. */
  predicate Delivers(l: Listing)
  {
    l.queryFailure.None? && l.fetchFailure.None? && Suffices(l)
  }

  /** The callee's answer: sizes for NULL buffers, and both lists when both fit. */
  function ListingReply(l: Listing, idCap: Option<nat>, valCap: Option<nat>): (nat, nat, nat, seq<nat>, seq<nat>)
  {
    if idCap.None? || valCap.None? then
      if l.queryFailure.Some? then (l.queryFailure.value, 0, 0, [], []) else (CKR_OK, l.idSpace, l.valSpace, [], [])
    else if l.fetchFailure.Some? then (l.fetchFailure.value, idCap.value, valCap.value, [], [])
    else if |l.ids| <= idCap.value && |l.vals| <= valCap.value then (CKR_OK, |l.ids|, |l.vals|, l.ids, l.vals)
    else (CKR_BUFFER_TOO_SMALL, |l.ids|, |l.vals|, [], [])
  }

  datatype TwoViews = TwoViews(ids: View<nat>, vals: View<nat>)

  const Unread := TwoViews(View(None, None), View(None, None))

  /** One run of a closure reading ids.array, ids.size, vals.array, vals.size in that order. */
  function ListingStep(l: Listing): TwoViews -> (TwoViews, nat)
  {
    (v: TwoViews) =>
      var ids, vals := ReadSize(ReadArray(v.ids, 0)), ReadSize(ReadArray(v.vals, 0));
      var (code, n, m, outIds, outVals) := ListingReply(l, v.ids.size, v.vals.size);
      (TwoViews(Apply(ids, 0, ElementsWritten(outIds)).(size := Some(n)),
                Apply(vals, 0, ElementsWritten(outVals)).(size := Some(m))), code)
  }

  /** What the caller gets from its one retry: the code, and the arrays as they then are. */
  function PolicyCode(l: Listing): Option<nat>
  {
    LastCode(ListingStep(l), Unread, 1)
  }

  function PolicyViews(l: Listing): TwoViews
  {
    Orbit(ListingStep(l), Unread, Runs(ListingStep(l), Unread, 1))
  }

  function Elements<T>(v: View<T>): seq<T>
  {
    if v.buffer.Some? then v.buffer.value else []
  }

  /** The dictionary of the first n pairs; a later pair replaces an earlier one. */
  function PairsUpTo(ids: seq<nat>, vals: seq<nat>, n: nat): map<nat, nat>
    requires n <= |ids| && n <= |vals|
  {
    if n == 0 then map[] else PairsUpTo(ids, vals, n - 1)[ids[n - 1] := vals[n - 1]]
  }

  /** dict(zip(ids, vals)): zip stops with the shorter list. */
  function DictZip(ids: seq<nat>, vals: seq<nat>): map<nat, nat>
  {
    PairsUpTo(ids, vals, if |ids| <= |vals| then |ids| else |vals|)
  }

  /** The dictionary the caller returns. */
  function PolicyDict(l: Listing): map<nat, nat>
  {
    DictZip(Elements(PolicyViews(l).ids), Elements(PolicyViews(l).vals))
  }

  lemma SecondRun(l: Listing)
    ensures var s := TwoViews(View(Some(l.idSpace), None), View(Some(l.valSpace), None));
            var (end, code) := ListingStep(l)(s);
            && code == (if l.fetchFailure.Some? then l.fetchFailure.value
                        else if Suffices(l) then CKR_OK else CKR_BUFFER_TOO_SMALL)
            && if l.fetchFailure.None? && Suffices(l) then
                 && Elements(end.ids) == l.ids + Zeros<nat>(0, l.idSpace - |l.ids|)
                 && Elements(end.vals) == l.vals + Zeros<nat>(0, l.valSpace - |l.vals|)
               else Elements(end.ids) == Zeros<nat>(0, l.idSpace) && Elements(end.vals) == Zeros<nat>(0, l.valSpace)
  {
    if l.fetchFailure.None? && Suffices(l) {
      assert l.ids + Zeros<nat>(0, l.idSpace)[|l.ids|..] == l.ids + Zeros<nat>(0, l.idSpace - |l.ids|);
      assert l.vals + Zeros<nat>(0, l.valSpace)[|l.vals|..] == l.vals + Zeros<nat>(0, l.valSpace - |l.vals|);
    } else {
      assert [] + Zeros<nat>(0, l.idSpace)[0..] == Zeros<nat>(0, l.idSpace);
      assert [] + Zeros<nat>(0, l.valSpace)[0..] == Zeros<nat>(0, l.valSpace);
    }
  }

  /** The code that comes with the dictionary: CKR_OK exactly when the callee delivers. */
  lemma PolicyCodeTells(l: Listing)
    ensures PolicyCode(l) == Some(if l.queryFailure.Some? then l.queryFailure.value
                                  else if l.fetchFailure.Some? then l.fetchFailure.value
                                  else if Suffices(l) then CKR_OK else CKR_BUFFER_TOO_SMALL)
    ensures PolicyCode(l) == Some(CKR_OK) <==> Delivers(l)
  {
    if l.queryFailure.Some? {
      ArraysUnallocated(l);
    } else {
      TwoRuns(l);
      SecondRun(l);
    }
  }

  /** A refused query leaves the arrays unallocated. */
  lemma ArraysUnallocated(l: Listing)
    requires l.queryFailure.Some?
    ensures Runs(ListingStep(l), Unread, 1) == 1 && CodeAt(ListingStep(l), Unread, 0) == l.queryFailure.value
    ensures Elements(PolicyViews(l).ids) == Elements(PolicyViews(l).vals) == []
  {
    var step := ListingStep(l);
    assert step(Unread).1 == l.queryFailure.value;
    OrbitStep(step, Unread, 0);
    assert Orbit(step, Unread, 1) == step(Unread).0;
  }

  /** An accepted one leads to a second run. */
  lemma TwoRuns(l: Listing)
    requires l.queryFailure.None?
    ensures var step, s := ListingStep(l), TwoViews(View(Some(l.idSpace), None), View(Some(l.valSpace), None));
            Runs(step, Unread, 1) == 2 && Orbit(step, Unread, 1) == s && Orbit(step, Unread, 2) == step(s).0
  {
    var step := ListingStep(l);
    assert step(Unread) == (TwoViews(View(Some(l.idSpace), None), View(Some(l.valSpace), None)), CKR_OK);
    OrbitStep(step, Unread, 0);
    OrbitStep(step, Unread, 1);
  }

  lemma ArraysDelivered(l: Listing)
    requires Delivers(l)
    ensures Elements(PolicyViews(l).ids) == l.ids + Zeros<nat>(0, l.idSpace - |l.ids|)
    ensures Elements(PolicyViews(l).vals) == l.vals + Zeros<nat>(0, l.valSpace - |l.vals|)
  {
    TwoRuns(l);
    SecondRun(l);
  }

  /** A fetch that fails leaves the arrays as they were allocated. */
  lemma ArraysZeroed(l: Listing)
    requires l.queryFailure.None? && !Delivers(l)
    ensures Elements(PolicyViews(l).ids) == Zeros<nat>(0, l.idSpace) &&
            Elements(PolicyViews(l).vals) == Zeros<nat>(0, l.valSpace)
  {
    TwoRuns(l);
    SecondRun(l);
  }

  /** Padding adds one pair, 0 to 0, as soon as there is any of it. */
  lemma {:induction false} PaddedPairs(ids: seq<nat>, vals: seq<nat>, a: nat, b: nat, n: nat)
    requires |ids| == |vals| && n <= |ids| + a && n <= |ids| + b
    ensures PairsUpTo(ids + Zeros<nat>(0, a), vals + Zeros<nat>(0, b), n) ==
            if n <= |ids| then PairsUpTo(ids, vals, n) else PairsUpTo(ids, vals, |ids|)[0 := 0]
  {
    if n > 0 {
      PaddedPairs(ids, vals, a, b, n - 1);
    }
  }

  lemma DictZipPadded(ids: seq<nat>, vals: seq<nat>, a: nat, b: nat)
    requires |ids| == |vals|
    ensures var d, padded := DictZip(ids, vals), DictZip(ids + Zeros<nat>(0, a), vals + Zeros<nat>(0, b));
            && padded == (if a == 0 || b == 0 then d else d[0 := 0])
            && (padded == d <==> a == 0 || b == 0 || (0 in d && d[0] == 0))
  {
    PaddedPairs(ids, vals, a, b, |ids| + if a <= b then a else b);
    assert 0 in DictZip(ids, vals)[0 := 0];
  }

  lemma PolicyDictPadded(l: Listing)
    requires Delivers(l)
    ensures PolicyDict(l) ==
            DictZip(l.ids + Zeros<nat>(0, l.idSpace - |l.ids|), l.vals + Zeros<nat>(0, l.valSpace - |l.vals|))
  {
    ArraysDelivered(l);
  }

  lemma ZipOfZeros(a: nat, b: nat)
    ensures DictZip(Zeros<nat>(0, a), Zeros<nat>(0, b)) == if a == 0 || b == 0 then map[] else map[0 := 0]
  {
    assert [] + Zeros<nat>(0, a) == Zeros<nat>(0, a) && [] + Zeros<nat>(0, b) == Zeros<nat>(0, b);
    DictZipPadded([], [], a, b);
  }

  /** The dictionary is the callee's own exactly when a size is exact, or the spurious pair
      0 to 0 that padding adds happens to be in it. */
  lemma PolicyDictIsTheCalleesMap(l: Listing)
    requires Delivers(l)
    ensures var d := DictZip(l.ids, l.vals);
            && PolicyDict(l) == (if l.idSpace == |l.ids| || l.valSpace == |l.vals| then d else d[0 := 0])
            && (PolicyDict(l) == d <==> l.idSpace == |l.ids| || l.valSpace == |l.vals| || (0 in d && d[0] == 0))
  {
    PolicyDictPadded(l);
    DictZipPadded(l.ids, l.vals, l.idSpace - |l.ids|, l.valSpace - |l.vals|);
  }

  /** After a failure there is a dictionary too: an empty one, exactly if the query was refused
      or announced no room, and otherwise one that maps 0 to 0. */
  lemma PolicyDictAfterFailure(l: Listing)
    requires !Delivers(l)
    ensures PolicyDict(l) == if l.queryFailure.Some? || l.idSpace == 0 || l.valSpace == 0 then map[] else map[0 := 0]
  {
    if l.queryFailure.Some? {
      ArraysUnallocated(l);
    } else {
      ArraysZeroed(l);
      ZipOfZeros(l.idSpace, l.valSpace);
    }
  }

  lemma {:induction false} PairedIds(ids: seq<nat>, vals: seq<nat>, n: nat)
    requires n <= |ids| && n <= |vals|
    ensures forall x :: x in PairsUpTo(ids, vals, n) <==> x in ids[..n]
  {
    if n > 0 {
      PairedIds(ids, vals, n - 1);
      assert ids[..n] == ids[..n - 1] + [ids[n - 1]];
    }
  }

  /** With distinct identifiers nothing is overwritten: each is mapped to its own value. */
  lemma {:induction false} DistinctPairs(ids: seq<nat>, vals: seq<nat>, n: nat, i: nat)
    requires i < n <= |ids| && n <= |vals| && forall i, j :: 0 <= i < j < |ids| ==> ids[i] != ids[j]
    ensures var d := PairsUpTo(ids, vals, n); ids[i] in d && d[ids[i]] == vals[i]
  {
    if i < n - 1 {
      DistinctPairs(ids, vals, n - 1, i);
    }
  }

  lemma DictZipOfDistinctIds(l: Listing)
    requires forall i, j :: 0 <= i < j < |l.ids| ==> l.ids[i] != l.ids[j]
    ensures var d := DictZip(l.ids, l.vals);
            && (forall x :: x in d <==> x in l.ids)
            && (forall i :: 0 <= i < |l.ids| ==> l.ids[i] in d && d[l.ids[i]] == l.vals[i])
  {
    PairedIds(l.ids, l.vals, |l.ids|);
    assert l.ids[..|l.ids|] == l.ids;
    var d := DictZip(l.ids, l.vals);
    forall i | 0 <= i < |l.ids|
      ensures l.ids[i] in d && d[l.ids[i]] == l.vals[i]
    {
      DistinctPairs(l.ids, l.vals, |l.ids|, i);
    }
  }
}
