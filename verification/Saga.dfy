/** Sagas: steps run in order, and when one fails the completed ones are compensated, last first. The
    executor finds a completed step's compensation by its name, which is exact only under a condition. */
module Sagas {
  import Json

  datatype SagaStep = SagaStep(name: string, compensates: bool)

  /** How a step's `execute` went; a step that ran out of time failed. */
  datatype Outcome = Done(ms: nat) | Failed(error: string)

  datatype Status = Pending | Running | Compensating | StatusFailed | Completed

  /** A compensation that was called: the step it belongs to and whether it raised. */
  datatype Attempt = Attempt(step: nat, raised: bool)

  function Names(steps: seq<SagaStep>): (names: seq<string>)
    ensures |names| == |steps| && forall i :: 0 <= i < |steps| ==> names[i] == steps[i].name
  {
    seq(|steps|, i requires 0 <= i < |steps| => steps[i].name)
  }

  /** The first step with this name, or `|steps|`. */
  function First(steps: seq<SagaStep>, name: string): (i: nat)
    ensures i <= |steps| && (i < |steps| ==> steps[i].name == name)
    ensures forall j :: 0 <= j < i ==> steps[j].name != name
  {
    if steps == [] || steps[0].name == name then 0 else
    var rest := First(steps[1..], name);
    assert forall j :: 0 < j < rest + 1 ==> steps[j].name == steps[1..][j - 1].name;
    rest + 1
  }

  /** What the executor calls for the step completed under `name`. */
  function Call(steps: seq<SagaStep>, name: string, raises: nat -> bool): seq<Attempt> {
    var i := First(steps, name);
    if i < |steps| && steps[i].compensates then [Attempt(i, raises(i))] else []
  }

  /** Walking the completed names backwards. */
  function Undone(steps: seq<SagaStep>, names: seq<string>, raises: nat -> bool): seq<Attempt> {
    if names == [] then []
    else Call(steps, names[|names| - 1], raises) + Undone(steps, names[..|names| - 1], raises)
  }

  /** What compensation is for: the steps `k - 1` down to `0` that have one, each once. */
  function Owed(steps: seq<SagaStep>, k: nat, raises: nat -> bool): seq<Attempt>
    requires k <= |steps|
  {
    if k == 0 then []
    else (if steps[k - 1].compensates then [Attempt(k - 1, raises(k - 1))] else []) + Owed(steps, k - 1, raises)
  }

  /** Looking step `j` up by name finds `j` itself, or a step that, like `j`, has nothing to call. */
  predicate FindsItsOwn(steps: seq<SagaStep>, j: nat)
    requires j < |steps|
  {
    var i := First(steps, steps[j].name);
    i == j || (i < j && !steps[i].compensates && !steps[j].compensates)
  }

  lemma FirstIsEarliest(steps: seq<SagaStep>, j: nat)
    requires j < |steps|
    ensures First(steps, steps[j].name) <= j
    ensures First(steps, steps[First(steps, steps[j].name)].name) == First(steps, steps[j].name)
  {
  }

  lemma UndoneOneMore(steps: seq<SagaStep>, k: nat, raises: nat -> bool)
    requires 0 < k <= |steps|
    ensures Undone(steps, Names(steps)[..k], raises)
         == Call(steps, steps[k - 1].name, raises) + Undone(steps, Names(steps)[..k - 1], raises)
  {
    assert Names(steps)[..k][..k - 1] == Names(steps)[..k - 1];
  }

  ghost predicate Descending(calls: seq<Attempt>) {
    forall i, j :: 0 <= i < j < |calls| ==> calls[i].step > calls[j].step
  }

  lemma {:induction false} OwedDescends(steps: seq<SagaStep>, k: nat, raises: nat -> bool)
    requires k <= |steps|
    ensures forall a <- Owed(steps, k, raises) :: a.step < k
    ensures Descending(Owed(steps, k, raises))
  {
    if k > 0 {
      OwedDescends(steps, k - 1, raises);
      var rest := Owed(steps, k - 1, raises);
      var own := Attempt(k - 1, raises(k - 1));
      assert Owed(steps, k, raises) == if steps[k - 1].compensates then [own] + rest else rest;
      hide Owed;
      assert forall j :: 0 <= j < |rest| ==> rest[j] in rest;
    }
  }

  /** Only first steps of their names are ever called, whatever has been completed. */
  ghost predicate CallsFirsts(steps: seq<SagaStep>, calls: seq<Attempt>) {
    forall a <- calls :: a.step < |steps| && First(steps, steps[a.step].name) == a.step
  }

  lemma {:induction false} UndoneCallsFirsts(steps: seq<SagaStep>, names: seq<string>, raises: nat -> bool)
    ensures CallsFirsts(steps, Undone(steps, names, raises))
  {
    if names != [] {
      UndoneCallsFirsts(steps, names[..|names| - 1], raises);
      var i := First(steps, names[|names| - 1]);
      if i < |steps| {
        FirstIsEarliest(steps, i);
      }
    }
  }

  lemma {:induction false} UndoneCallsEveryFirst(steps: seq<SagaStep>, k: nat, raises: nat -> bool, j: nat)
    requires j < k <= |steps| && First(steps, steps[j].name) == j && steps[j].compensates
    ensures Attempt(j, raises(j)) in Undone(steps, Names(steps)[..k], raises)
  {
    hide Undone, First;
    UndoneOneMore(steps, k, raises);
    if j < k - 1 {
      UndoneCallsEveryFirst(steps, k - 1, raises, j);
    }
  }

  /** A step that has a compensation but is not the first of its name never gets it called. */
  lemma OwnIsNeverCalled(steps: seq<SagaStep>, k: nat, raises: nat -> bool, more: seq<Attempt>)
    requires 0 < k <= |steps| && steps[k - 1].compensates && First(steps, steps[k - 1].name) != k - 1
    requires CallsFirsts(steps, more)
    ensures Undone(steps, Names(steps)[..k], raises) + more != Owed(steps, k, raises)
  {
    hide Undone, First;
    var undone := Undone(steps, Names(steps)[..k], raises);
    UndoneCallsFirsts(steps, Names(steps)[..k], raises);
    assert CallsFirsts(steps, undone + more);
    assert Owed(steps, k, raises)[0] == Attempt(k - 1, raises(k - 1));
    assert undone + more != [] ==> (undone + more)[0] in undone + more;
  }

  lemma NotDescending(calls: seq<Attempt>, i: nat)
    requires 0 < i < |calls| && calls[0] == calls[i]
    ensures !Descending(calls)
  {
    assert calls[0].step <= calls[i].step;
  }

  lemma CallsTheFirst(steps: seq<SagaStep>, k: nat, raises: nat -> bool)
    requires 0 < k <= |steps|
    ensures var first := First(steps, steps[k - 1].name);
            first < |steps| && (steps[first].compensates ==>
              Undone(steps, Names(steps)[..k], raises) == [Attempt(first, raises(first))] + Undone(steps, Names(steps)[..k - 1], raises))
  {
    hide Undone, First;
    FirstIsEarliest(steps, k - 1);
    UndoneOneMore(steps, k, raises);
  }

  /** A step without one that shares its name with an earlier step gets that step undone twice. */
  lemma FirstIsCalledTwice(steps: seq<SagaStep>, k: nat, raises: nat -> bool, more: seq<Attempt>)
    requires 0 < k <= |steps| && First(steps, steps[k - 1].name) < k - 1
    requires steps[First(steps, steps[k - 1].name)].compensates
    ensures Undone(steps, Names(steps)[..k], raises) + more != Owed(steps, k, raises)
  {
    hide *;
    var first := First(steps, steps[k - 1].name);
    var before := Undone(steps, Names(steps)[..k - 1], raises);
    FirstIsEarliest(steps, k - 1);
    CallsTheFirst(steps, k, raises);
    UndoneCallsEveryFirst(steps, k - 1, raises, first);
    OwedDescends(steps, k, raises);
    TwiceIsNotDescending(Attempt(first, raises(first)), before, more);
  }

  lemma TwiceIsNotDescending(a: Attempt, before: seq<Attempt>, more: seq<Attempt>)
    requires a in before
    ensures !Descending([a] + before + more)
  {
    hide Descending;
    var i :| 0 <= i < |before| && before[i] == a;
    assert ([a] + before + more)[i + 1] == a;
    NotDescending([a] + before + more, i + 1);
  }

  lemma SameHead(head: seq<Attempt>, a: seq<Attempt>, b: seq<Attempt>)
    ensures head + a == head + b <==> a == b
  {
    assert (head + a)[|head|..] == a && (head + b)[|head|..] == b;
  }

  lemma GoodStepKeepsTheMatch(steps: seq<SagaStep>, k: nat, raises: nat -> bool, more: seq<Attempt>)
    requires 0 < k <= |steps| && FindsItsOwn(steps, k - 1)
    ensures (Undone(steps, Names(steps)[..k], raises) + more == Owed(steps, k, raises))
      <==> (Undone(steps, Names(steps)[..k - 1], raises) + more == Owed(steps, k - 1, raises))
  {
    hide Undone, First, Names;
    var head, undone := Call(steps, steps[k - 1].name, raises), Undone(steps, Names(steps)[..k - 1], raises);
    UndoneOneMore(steps, k, raises);
    assert Owed(steps, k, raises) == head + Owed(steps, k - 1, raises);
    hide Owed, Call;
    assert head + undone + more == head + (undone + more);
    SameHead(head, undone + more, Owed(steps, k - 1, raises));
  }

  lemma StrayStepEndsTheMatch(steps: seq<SagaStep>, k: nat, raises: nat -> bool, more: seq<Attempt>)
    requires 0 < k <= |steps| && !FindsItsOwn(steps, k - 1) && CallsFirsts(steps, more)
    ensures Undone(steps, Names(steps)[..k], raises) + more != Owed(steps, k, raises)
  {
    hide Undone, Owed, CallsFirsts;
    FirstIsEarliest(steps, k - 1);
    if steps[k - 1].compensates {
      OwnIsNeverCalled(steps, k, raises, more);
    } else {
      FirstIsCalledTwice(steps, k, raises, more);
    }
  }

  lemma NothingToUndo(steps: seq<SagaStep>, raises: nat -> bool)
    ensures Undone(steps, Names(steps)[..0], raises) == Owed(steps, 0, raises) == []
  {
  }

  /** When the step after the first `k` fails and `more` is called after their compensations, what is called
      is exactly what is owed if and only if every completed step finds its own and nothing more is called. */
  lemma {:induction false} CompensationIsExactlyWhen(steps: seq<SagaStep>, k: nat, raises: nat -> bool, more: seq<Attempt>)
    requires k <= |steps| && CallsFirsts(steps, more)
    ensures Undone(steps, Names(steps)[..k], raises) + more == Owed(steps, k, raises)
      <==> (forall j :: 0 <= j < k ==> FindsItsOwn(steps, j)) && more == []
  {
    hide *;
    if k == 0 {
      NothingToUndo(steps, raises);
    } else {
      CompensationIsExactlyWhen(steps, k - 1, raises, more);
      if FindsItsOwn(steps, k - 1) {
        GoodStepKeepsTheMatch(steps, k, raises, more);
      } else {
        StrayStepEndsTheMatch(steps, k, raises, more);
      }
    }
  }

  /** When the step after the first `k` fails, the compensations called are exactly those of the steps
      `k - 1` down to `0`, in that order and each once, if and only if every completed step finds its own. */
  lemma OwedExactlyWhen(steps: seq<SagaStep>, k: nat, raises: nat -> bool)
    requires k <= |steps|
    ensures Undone(steps, Names(steps)[..k], raises) == Owed(steps, k, raises)
      <==> forall j :: 0 <= j < k ==> FindsItsOwn(steps, j)
  {
    hide Undone, Owed, FindsItsOwn, Names;
    assert Undone(steps, Names(steps)[..k], raises) + [] == Undone(steps, Names(steps)[..k], raises);
    CompensationIsExactlyWhen(steps, k, raises, []);
  }

  /** Distinct names suffice, whatever the compensations do. */
  lemma DistinctNamesUndoInReverse(steps: seq<SagaStep>, k: nat, raises: nat -> bool)
    requires k <= |steps| && forall i, j :: 0 <= i < j < |steps| ==> steps[i].name != steps[j].name
    ensures Undone(steps, Names(steps)[..k], raises) == Owed(steps, k, raises)
  {
    forall j | 0 <= j < k ensures FindsItsOwn(steps, j) {
      FirstIsEarliest(steps, j);
    }
    OwedExactlyWhen(steps, k, raises);
  }

  /** The name is not enough in general: here the first step is undone twice and the second never. */
  lemma TwinsUndoTheFirstTwice(raises: nat -> bool)
    ensures var twins := [SagaStep("upload", true), SagaStep("upload", true), SagaStep("submit", false)];
            Undone(twins, Names(twins)[..2], raises) == [Attempt(0, raises(0)), Attempt(0, raises(0))]
  {
    var twins := [SagaStep("upload", true), SagaStep("upload", true), SagaStep("submit", false)];
    UndoneOneMore(twins, 2, raises);
    UndoneOneMore(twins, 1, raises);
    assert Undone(twins, Names(twins)[..0], raises) == [];
  }

  lemma UndoneFrom(steps: seq<SagaStep>, names: seq<string>, n: nat, raises: nat -> bool, before: seq<Attempt>)
    requires n < |names|
    ensures before + Undone(steps, names[..n + 1], raises)
         == before + Call(steps, names[n], raises) + Undone(steps, names[..n], raises)
  {
    assert names[..n + 1][..n] == names[..n];
    assert Undone(steps, names[..n + 1], raises) == Call(steps, names[n], raises) + Undone(steps, names[..n], raises);
    hide *;
  }

  lemma {:induction false} UndoneAppends(steps: seq<SagaStep>, a: seq<string>, b: seq<string>, raises: nat -> bool)
    ensures Undone(steps, a + b, raises) == Undone(steps, b, raises) + Undone(steps, a, raises)
  {
    if b == [] {
      assert a + b == a;
    } else {
      var n := |b| - 1;
      assert (a + b)[..|a + b| - 1] == a + b[..n];
      UndoneAppends(steps, a, b[..n], raises);
    }
  }

  /** An executor that has failed once, after its first `j` steps, keeps them on its list: a second run that
      fails after `k` steps undoes those, and then the first run's again, distinct names or not. */
  lemma ARerunUndoesTheFirstRunAgain(steps: seq<SagaStep>, j: nat, k: nat, raises: nat -> bool)
    requires j <= |steps| && k <= |steps|
    requires forall i :: 0 <= i < j || 0 <= i < k ==> FindsItsOwn(steps, i)
    ensures Undone(steps, Names(steps)[..j] + Names(steps)[..k], raises) == Owed(steps, k, raises) + Owed(steps, j, raises)
  {
    UndoneAppends(steps, Names(steps)[..j], Names(steps)[..k], raises);
    OwedExactlyWhen(steps, j, raises);
    OwedExactlyWhen(steps, k, raises);
  }

  // ---------------------------------------------------------------- the executor

  /** The first step that fails, or the number of steps. */
  function FirstFailure(outcomes: seq<Outcome>): (k: nat)
    ensures k <= |outcomes| && (k < |outcomes| ==> outcomes[k].Failed?)
    ensures forall i :: 0 <= i < k ==> outcomes[i].Done?
  {
    if outcomes == [] || outcomes[0].Failed? then 0 else
    var rest := FirstFailure(outcomes[1..]);
    assert forall i :: 0 < i < rest + 1 ==> outcomes[i] == outcomes[1..][i - 1];
    rest + 1
  }

  datatype Report = Success(completed: seq<string>) | Error(failedStep: string, completed: seq<string>, errors: seq<string>)

  class SagaExecutor {
    var steps: seq<SagaStep>
    var completed: seq<string>
    var errors: seq<string>
    var status: Status
    var currentStep: Json.Option<string>
    var attempts: seq<Attempt>          // the compensations called so far

    constructor ()
      ensures steps == [] && completed == [] && errors == [] && attempts == [] && status == Pending
    {
      steps, completed, errors, attempts := [], [], [], [];
      status, currentStep := Pending, Json.None;
    }

    method AddStep(step: SagaStep)
      modifies this`steps
      ensures steps == old(steps) + [step]
    {
      steps := steps + [step];
    }

    /** `outcomes[i]` is how step `i` would go, and `raises` says which compensations raise. An executor
        run a second time still holds, and would undo, what its first run completed. */
    method Run(outcomes: seq<Outcome>, raises: nat -> bool) returns (r: Report)
      requires |outcomes| == |steps|
      modifies this`completed, this`errors, this`status, this`currentStep, this`attempts
      ensures var k := FirstFailure(outcomes);
        && completed == old(completed) + Names(steps)[..k]
        && currentStep == Json.None
        && (if k == |steps| then
          r == Success(completed) && status == Completed && attempts == old(attempts) && errors == old(errors)
        else
          && r == Error(steps[k].name, completed, errors) && status == StatusFailed
          && attempts == old(attempts) + Undone(steps, completed, raises)
          && errors == old(errors) + [steps[k].name + ": " + outcomes[k].error])
      // the owed compensations, exactly when every step completed now finds its own and nothing completed in
      // earlier runs has one; no caller in the source runs an executor twice
      ensures var k := FirstFailure(outcomes);
        k < |steps| ==>
          (attempts == old(attempts) + Owed(steps, k, raises) <==>
            (forall j :: 0 <= j < k ==> FindsItsOwn(steps, j)) && Undone(steps, old(completed), raises) == [])
    {
      status := Running;
      for i := 0 to |steps|
        invariant completed == old(completed) + Names(steps)[..i]
        invariant attempts == old(attempts) && errors == old(errors)
        invariant forall j :: 0 <= j < i ==> outcomes[j].Done?
      {
        currentStep := Json.Some(steps[i].name);
        if outcomes[i].Done? {
          completed := completed + [steps[i].name];
        } else {
          assert FirstFailure(outcomes) == i;
          errors := errors + [steps[i].name + ": " + outcomes[i].error];
          status := Compensating;
          currentStep := Json.None;
          Compensate(raises);
          UndoneAppends(steps, old(completed), Names(steps)[..i], raises);
          UndoneCallsFirsts(steps, old(completed), raises);
          CompensationIsExactlyWhen(steps, i, raises, Undone(steps, old(completed), raises));
          SameHead(old(attempts), Undone(steps, completed, raises), Owed(steps, i, raises));
          status := StatusFailed;
          return Error(steps[i].name, completed, errors);
        }
      }
      status := Completed;
      currentStep := Json.None;
      return Success(completed);
    }

    method FindStep(name: string) returns (i: nat)
      ensures i == First(steps, name)
    {
      i := 0;
      while i < |steps| && steps[i].name != name
        invariant i <= First(steps, name)
      {
        i := i + 1;
      }
    }

    method Compensate(raises: nat -> bool)
      modifies this`attempts
      ensures attempts == old(attempts) + Undone(steps, completed, raises)
    {
      var n := |completed|;
      assert completed[..n] == completed;
      while n > 0
        invariant 0 <= n <= |completed|
        invariant old(attempts) + Undone(steps, completed, raises) == attempts + Undone(steps, completed[..n], raises)
      {
        n := n - 1;
        UndoneFrom(steps, completed, n, raises, attempts);
        ghost var soFar := attempts + Call(steps, completed[n], raises);
        hide Undone;
        var i := FindStep(completed[n]);
        hide First;
        if i < |steps| && steps[i].compensates {
          attempts := attempts + [Attempt(i, raises(i))];
        }
        assert attempts == soFar;
      }
    }
  }
}
