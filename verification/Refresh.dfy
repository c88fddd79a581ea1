/** refresh_c_arrays, and the closures over self-sizing arrays that it re-runs. */
module Refresh {
  import opened Wrappers
  import opened CInterface
  import opened AutoCArrays

  // ----- Re-running any function of a state that returns a code -----

  /** The state after i runs. */
  function Orbit<S>(step: S -> (S, nat), s: S, i: nat): S
  {
    if i == 0 then s else Orbit(step, step(s).0, i - 1)
  }

  /** The code returned by run number i, counting from zero. */
  function CodeAt<S>(step: S -> (S, nat), s: S, i: nat): nat
  {
    step(Orbit(step, s, i)).1
  }

  /** How often the decorated function runs. */
  function Runs<S>(step: S -> (S, nat), s: S, retries: int): nat
  {
    if retries < 0 then 0
    else if retries == 0 || step(s).1 != CKR_OK then 1
    else 1 + Runs(step, step(s).0, retries - 1)
  }

  /** What the caller gets: nothing at all if no run was allowed, else the last run's code. */
  function LastCode<S>(step: S -> (S, nat), s: S, retries: int): Option<nat>
  {
    if Runs(step, s, retries) == 0 then None else Some(CodeAt(step, s, Runs(step, s, retries) - 1))
  }

  /** There are min(first failing run + 1, retries + 1) runs: none follows a failure, and fewer
      than retries + 1 happen only because the last one failed. */
  lemma {:induction false} RunsStopAtFirstFailure<S>(step: S -> (S, nat), s: S, retries: nat)
    ensures var n := Runs(step, s, retries);
            && 1 <= n <= retries + 1
            && (forall i :: 0 <= i < n - 1 ==> CodeAt(step, s, i) == CKR_OK)
            && (n < retries + 1 ==> CodeAt(step, s, n - 1) != CKR_OK)
  {
    if retries > 0 && step(s).1 == CKR_OK {
      RunsStopAtFirstFailure(step, step(s).0, retries - 1);
      forall i | 0 <= i < Runs(step, s, retries) - 1
        ensures CodeAt(step, s, i) == CKR_OK
      {
        if i > 0 {
          assert CodeAt(step, s, i) == CodeAt(step, step(s).0, i - 1);
        }
      }
      var m := Runs(step, step(s).0, retries - 1);
      assert CodeAt(step, s, m) == CodeAt(step, step(s).0, m - 1);
    }
  }

  /** No other number of runs has those properties. */
  lemma {:induction false} RunsAre<S>(step: S -> (S, nat), s: S, retries: nat, n: nat)
    requires 1 <= n <= retries + 1
    requires forall i :: 0 <= i < n - 1 ==> CodeAt(step, s, i) == CKR_OK
    requires n < retries + 1 ==> CodeAt(step, s, n - 1) != CKR_OK
    ensures Runs(step, s, retries) == n
  {
    RunsStopAtFirstFailure(step, s, retries);
    var m := Runs(step, s, retries);
    if m < n {
      assert false;
    } else if n < m {
      assert false;
    }
  }

  /** The decorated function succeeds exactly when each of its retries + 1 runs does. */
  lemma OkMeansEveryRunOk<S>(step: S -> (S, nat), s: S, retries: nat)
    ensures LastCode(step, s, retries) == Some(CKR_OK) <==>
            forall i :: 0 <= i <= retries ==> CodeAt(step, s, i) == CKR_OK
  {
    RunsStopAtFirstFailure(step, s, retries);
    var n := Runs(step, s, retries);
    if LastCode(step, s, retries) == Some(CKR_OK) {
      forall i | 0 <= i <= retries
        ensures CodeAt(step, s, i) == CKR_OK
      {
        assert i < n - 1 || i == n - 1;
      }
    } else {
      assert CodeAt(step, s, n - 1) != CKR_OK;
    }
  }

  // ----- A closure that passes one array's two properties to a C function -----

  datatype Situation<W, T> = Situation(world: W, view: View<T>)

  /** One run: the two properties are read in the order written, then the call is made. */
  function Invocation<W, T>(op: Operation<W, T>, arrayFirst: bool, zero: T, s: Situation<W, T>): (Situation<W, T>, nat)
  {
    var ready := if arrayFirst then ReadSize(ReadArray(s.view, zero)) else ReadArray(ReadSize(s.view), zero);
    var r := Answer(op, s.world, if arrayFirst then s.view.size else ready.size);
    (Situation(r.world, Apply(ready, zero, ElementsWritten(r.output)).(size := Some(r.size))), r.code)
  }

  function Step<W, T>(op: Operation<W, T>, arrayFirst: bool, zero: T): Situation<W, T> -> (Situation<W, T>, nat)
  {
    s => Invocation(op, arrayFirst, zero, s)
  }

  class Closure<W, T> {
    const dev: Device<W>
    const op: Operation<W, T>
    const target: AutoCArray<T>
    const arrayFirst: bool

    constructor (dev: Device<W>, op: Operation<W, T>, target: AutoCArray<T>, arrayFirst: bool)
      ensures this.dev == dev && this.op == op && this.target == target && this.arrayFirst == arrayFirst
    {
      this.dev, this.op, this.target, this.arrayFirst := dev, op, target, arrayFirst;
    }

    ghost function Now(): Situation<W, T>
      reads dev, target, target.cell, target.buffer
    {
      Situation(dev.world, target.Value())
    }

    ghost function Behaviour(): Situation<W, T> -> (Situation<W, T>, nat)
    {
      Step(op, arrayFirst, target.zero)
    }

    /** A run keeps within the buffer, and after a success the next run will too. */
    method Invoke() returns (ret: nat)
      requires target.Valid() && target.Honest()
      modifies dev, target`buffer, target`cell, target.cell, target.buffer
      ensures target.Valid()
      ensures target.cell == old(target.cell) || fresh(target.cell)
      ensures target.buffer == old(target.buffer) || fresh(target.buffer)
      ensures (Now(), ret) == Behaviour()(old(Now()))
      ensures ret == CKR_OK ==> target.Honest()
      ensures |dev.log| == |old(dev.log)| + 1
    {
      var p, n;
      if arrayFirst {
        p := target.Array();
        n := target.Size();
      } else {
        n := target.Size();
        p := target.Array();
      }
      ret := Call(dev, op, p, n);
    }
  }

  /** The first n runs succeed. */
  ghost predicate Succeed<S>(step: S -> (S, nat), s: S, n: nat)
  {
    forall i :: 0 <= i < n ==> CodeAt(step, s, i) == CKR_OK
  }

  lemma {:induction false} OrbitStep<S>(step: S -> (S, nat), s: S, i: nat)
    ensures Orbit(step, s, i + 1) == step(Orbit(step, s, i)).0
  {
    if i > 0 {
      OrbitStep(step, step(s).0, i - 1);
    }
  }

  /** A run after successful ones: if it fails, it is the last. */
  lemma OneMoreRun<S>(step: S -> (S, nat), s: S, tries: nat, retries: nat)
    requires tries <= retries && Succeed(step, s, tries)
    ensures var (next, code) := step(Orbit(step, s, tries));
            && Orbit(step, s, tries + 1) == next
            && (code == CKR_OK ==> Succeed(step, s, tries + 1))
            && (code != CKR_OK ==> Runs(step, s, retries) == tries + 1 && LastCode(step, s, retries) == Some(code))
  {
    OrbitStep(step, s, tries);
    assert CodeAt(step, s, tries) == step(Orbit(step, s, tries)).1;
    if CodeAt(step, s, tries) != CKR_OK {
      RunsAre(step, s, retries, tries + 1);
    }
  }

  lemma NoRunFailed<S>(step: S -> (S, nat), s: S, retries: nat)
    requires Succeed(step, s, retries + 1)
    ensures Runs(step, s, retries) == retries + 1 && LastCode(step, s, retries) == Some(CKR_OK)
  {
    RunsAre(step, s, retries, retries + 1);
  }

  /** The decorator's loop. However many retries, every call keeps within the buffer. */
  method RefreshCArrays<W, T>(func: Closure<W, T>, retries: int) returns (ret: Option<nat>)
    requires func.target.Valid() && func.target.Honest()
    modifies func.dev, func.target`buffer, func.target`cell, func.target.cell, func.target.buffer
    ensures func.target.Valid()
    ensures func.target.cell == old(func.target.cell) || fresh(func.target.cell)
    ensures func.target.buffer == old(func.target.buffer) || fresh(func.target.buffer)
    ensures var step, s := func.Behaviour(), old(func.Now());
            && |func.dev.log| == |old(func.dev.log)| + Runs(step, s, retries)
            && ret == LastCode(step, s, retries)
            && func.Now() == Orbit(step, s, Runs(step, s, retries))
  {
    ghost var step, s := func.Behaviour(), func.Now();
    var tries := 0;
    ret := None;
    while tries <= retries
      invariant 0 <= tries && (retries >= 0 ==> tries <= retries + 1) && (retries < 0 ==> tries == 0)
      invariant func.target.Valid() && func.target.Honest()
      invariant func.target.cell == old(func.target.cell) || fresh(func.target.cell)
      invariant func.target.buffer == old(func.target.buffer) || fresh(func.target.buffer)
      invariant |func.dev.log| == |old(func.dev.log)| + tries
      invariant func.Now() == Orbit(step, s, tries) && Succeed(step, s, tries)
      invariant ret == if tries == 0 then None else Some(CKR_OK)
      decreases retries + 1 - tries
    {
      OneMoreRun(step, s, tries, retries);
      var code := func.Invoke();
      ret := Some(code);
      if code != CKR_OK {
        return;
      }
      tries := tries + 1;
    }
    if retries >= 0 {
      NoRunFailed(step, s, retries);
    }
  }
}
