/** The suite run loop (suite_executor_thread.py): the events it publishes, its counters and how it ends.
    What the tests and the database do is given from outside. */
module SuiteRunner {
  import opened PyText

  datatype SuiteTest = SuiteTest(id: string, order: int, abort: bool)

  /** What happens to one test: the message of the exception raised by inserting its record, by running
      it, by recording its success, and by recording its failure. `None` is no exception. */
  datatype TestRun = TestRun(insertError: Option<string>, runError: Option<string>,
                             successError: Option<string>, failureError: Option<string>)

  datatype Event =
    | ExecutionStarted
    | Progress(executed: nat, total: nat)
    | TestStarted(id: string, index: nat)
    | TestFinished(id: string, failure: Option<string>)
    | ExecutionFinished(ok: bool, executed: nat, total: nat, errors: nat, error: string)

  /** `_resolve_tests_to_execute`; `None` is the test-not-found exception. */
  method ResolveTestsToExecute(tests: seq<SuiteTest>, target: string, includePrevious: bool)
    returns (r: Option<seq<SuiteTest>>)
    ensures r == Selected(tests, target, includePrevious)
  {
    if target == [] {
      return Some(tests);
    }
    assert tests == tests[0..];
    for i := 0 to |tests|
      invariant FirstWithId(tests, target, 0) == FirstWithId(tests, target, i)
    {
      if tests[i].id == target {
        return Some(if includePrevious then tests[..i + 1] else [tests[i]]);
      }
    }
    r := None;
  }

  function FirstWithId(tests: seq<SuiteTest>, target: string, from: nat): (r: nat)
    requires from <= |tests|
    ensures from <= r <= |tests| && (r < |tests| ==> tests[r].id == target)
    ensures forall j | from <= j < r :: tests[j].id != target
    decreases |tests| - from
  {
    if from == |tests| || tests[from].id == target then from else FirstWithId(tests, target, from + 1)
  }

  function Selected(tests: seq<SuiteTest>, target: string, includePrevious: bool): Option<seq<SuiteTest>> {
    if target == [] then Some(tests)
    else
      var i := FirstWithId(tests, target, 0);
      if i == |tests| then None else Some(if includePrevious then tests[..i + 1] else [tests[i]])
  }

  // ---- one test ---------------------------------------------------------------------------------

  /** The exception that sends a started test to its error branch. */
  function Failure(r: TestRun): Option<string> { if r.runError.Some? then r.runError else r.successError }

  /** The test counts as completed even when recording its success then fails. */
  predicate Completes(r: TestRun) { r.insertError.None? && r.runError.None? }

  predicate Starts(r: TestRun) { r.insertError.None? }

  /** An exception escapes the handling of the test and ends the suite. */
  predicate Escapes(r: TestRun) { r.insertError.Some? || (Failure(r).Some? && r.failureError.Some?) }

  predicate GoesOn(t: SuiteTest, r: TestRun) { !Escapes(r) && (Failure(r).Some? ==> !t.abort) }

  /** The messages of the exceptions that are counted, in order. */
  function Faults(r: TestRun): seq<string> {
    if r.insertError.Some? then [r.insertError.value]
    else if Failure(r).None? then []
    else if r.failureError.None? then [Failure(r).value]
    else [Failure(r).value, r.failureError.value]
  }

  function Published(t: SuiteTest, r: TestRun, index: nat, completed: nat, total: nat): seq<Event> {
    if r.insertError.Some? then []
    else
      var progress := Progress(if Completes(r) then completed + 1 else completed, total);
      if Escapes(r) then [TestStarted(t.id, index), progress]
      else [TestStarted(t.id, index), TestFinished(t.id, Failure(r)), progress]
  }

  // ---- the whole loop ---------------------------------------------------------------------------

  /** How many tests the loop turns to: up to and including the first that ends it. */
  function Turns(tests: seq<SuiteTest>, runs: nat -> TestRun, from: nat): (n: nat)
    requires from <= |tests|
    ensures from <= n <= |tests|
    ensures forall k | from <= k < n - 1 :: GoesOn(tests[k], runs(k))
    ensures n < |tests| ==> from < n && !GoesOn(tests[n - 1], runs(n - 1))
    decreases |tests| - from
  {
    if from == |tests| then from
    else if GoesOn(tests[from], runs(from)) then Turns(tests, runs, from + 1)
    else from + 1
  }

  function CompletedIn(runs: nat -> TestRun, n: nat): (c: nat)
    ensures c <= n
  {
    if n == 0 then 0 else CompletedIn(runs, n - 1) + if Completes(runs(n - 1)) then 1 else 0
  }

  function FaultsIn(runs: nat -> TestRun, n: nat): seq<string> {
    if n == 0 then [] else FaultsIn(runs, n - 1) + Faults(runs(n - 1))
  }

  function PublishedIn(tests: seq<SuiteTest>, runs: nat -> TestRun, n: nat): seq<Event>
    requires n <= |tests|
  {
    if n == 0 then []
    else PublishedIn(tests, runs, n - 1)
         + Published(tests[n - 1], runs(n - 1), n, CompletedIn(runs, n - 1), |tests|)
  }

  /** `first_error_message`. */
  function FirstMessage(messages: seq<string>): string {
    if messages == [] then [] else if messages[0] != [] then messages[0] else FirstMessage(messages[1..])
  }

  function FinishedWith(faults: seq<string>, completed: nat, total: nat): Event {
    ExecutionFinished(faults == [], completed, total, |faults|, FirstMessage(faults))
  }

  const NOT_FOUND := "Suite test not found in suite"

  function FaultsOf(selected: Option<seq<SuiteTest>>, runs: nat -> TestRun): seq<string> {
    match selected
    case None => [NOT_FOUND]
    case Some(tests) => FaultsIn(runs, Turns(tests, runs, 0))
  }

  function CompletedOf(selected: Option<seq<SuiteTest>>, runs: nat -> TestRun): nat {
    match selected
    case None => 0
    case Some(tests) => CompletedIn(runs, Turns(tests, runs, 0))
  }

  function BodyOf(selected: Option<seq<SuiteTest>>, runs: nat -> TestRun): seq<Event> {
    match selected
    case None => [ExecutionStarted]
    case Some(tests) => [ExecutionStarted] + [Progress(0, |tests|)] + PublishedIn(tests, runs, Turns(tests, runs, 0))
  }

  function TotalOf(selected: Option<seq<SuiteTest>>): nat { if selected.Some? then |selected.value| else 0 }

  /** What a run publishes; the last event is missing when the final update of the suite raises. */
  function TraceOf(selected: Option<seq<SuiteTest>>, runs: nat -> TestRun, finalUpdate: bool): seq<Event> {
    var body := BodyOf(selected, runs);
    if finalUpdate then body + [FinishedWith(FaultsOf(selected, runs), CompletedOf(selected, runs), TotalOf(selected))]
    else body
  }

  lemma {:induction false} FirstMessageAppend(messages: seq<string>, m: string)
    ensures FirstMessage(messages + [m]) == if FirstMessage(messages) == [] then m else FirstMessage(messages)
  {
    if messages == [] {
      assert ([] + [m])[1..] == [];
    } else {
      assert (messages + [m])[1..] == messages[1..] + [m];
      FirstMessageAppend(messages[1..], m);
    }
  }

  lemma Appended<T>(a: seq<T>, b: seq<T>, c: seq<T>)
    ensures (a + b) + c == a + (b + c)
  {
  }

  lemma LoopStarts(tests: seq<SuiteTest>, runs: nat -> TestRun)
    ensures PublishedIn(tests, runs, 0) == [] && FaultsIn(runs, 0) == [] && CompletedIn(runs, 0) == 0
  {
  }

  lemma LoopTurns(tests: seq<SuiteTest>, runs: nat -> TestRun, i: nat)
    requires i < |tests|
    ensures PublishedIn(tests, runs, i + 1) ==
            PublishedIn(tests, runs, i) + Published(tests[i], runs(i), i + 1, CompletedIn(runs, i), |tests|)
    ensures FaultsIn(runs, i + 1) == FaultsIn(runs, i) + Faults(runs(i))
    ensures CompletedIn(runs, i + 1) == CompletedIn(runs, i) + if Completes(runs(i)) then 1 else 0
    ensures Turns(tests, runs, i) == if GoesOn(tests[i], runs(i)) then Turns(tests, runs, i + 1) else i + 1
  {
    hide Published, Faults, Completes, GoesOn;
  }

  lemma LoopEnds(tests: seq<SuiteTest>, runs: nat -> TestRun)
    ensures Turns(tests, runs, |tests|) == |tests|
  {
  }

  lemma EscapeStops(t: SuiteTest, r: TestRun)
    ensures Escapes(r) ==> !GoesOn(t, r)
  {
  }

  /** The counters of the run loop. */
  class SuiteRun {
    var trace: seq<Event>
    var totalTests: nat
    var completedTests: nat
    var errorCount: nat
    var firstErrorMessage: string
    ghost var faults: seq<string>

    ghost predicate Counts()
      reads this
    {
      errorCount == |faults| && firstErrorMessage == FirstMessage(faults)
    }

    constructor ()
      ensures trace == [] && totalTests == 0 && completedTests == 0 && faults == [] && Counts()
    {
      trace, totalTests, completedTests, errorCount, firstErrorMessage, faults := [], 0, 0, 0, [], [];
    }

    method Publish(e: Event)
      modifies this`trace
      ensures trace == old(trace) + [e]
    {
      trace := trace + [e];
    }

    method CountError(message: string)
      requires Counts()
      modifies this`errorCount, this`firstErrorMessage, this`faults
      ensures Counts() && faults == old(faults) + [message]
    {
      FirstMessageAppend(faults, message);
      errorCount := errorCount + 1;
      if firstErrorMessage == [] {
        firstErrorMessage := message;
      }
      faults := faults + [message];
    }

    /** One turn of the loop; `escaped` is the message of an exception that leaves it. */
    method RunTest(t: SuiteTest, r: TestRun, index: nat) returns (escaped: Option<string>, stop: bool)
      requires Counts()
      modifies this`trace, this`completedTests, this`errorCount, this`firstErrorMessage, this`faults
      ensures Counts()
      ensures trace == old(trace) + Published(t, r, index, old(completedTests), totalTests)
      ensures completedTests == old(completedTests) + if Completes(r) then 1 else 0
      ensures escaped.Some? <==> Escapes(r)
      ensures (if escaped.Some? then faults + [escaped.value] else faults) == old(faults) + Faults(r)
      ensures escaped.None? ==> (stop <==> !GoesOn(t, r))
    {
      if r.insertError.Some? {
        return r.insertError, false;
      }
      Publish(TestStarted(t.id, index));
      var failure := r.runError;
      if failure.None? {
        completedTests := completedTests + 1;
        failure := r.successError;
      }
      stop, escaped := false, None;
      if failure.None? {
        Publish(TestFinished(t.id, None));
      } else {
        CountError(failure.value);
        if r.failureError.Some? {
          escaped := r.failureError;
        } else {
          Publish(TestFinished(t.id, failure));
          stop := t.abort;
        }
      }
      Publish(Progress(completedTests, totalTests));
    }

    /** `_execute`. */
    method Execute(tests: seq<SuiteTest>, target: string, includePrevious: bool, runs: nat -> TestRun, finalUpdate: bool)
      requires trace == [] && totalTests == 0 && completedTests == 0 && faults == [] && Counts()
      modifies this
      ensures trace == TraceOf(Selected(tests, target, includePrevious), runs, finalUpdate)
    {
      hide Selected, PublishedIn, FaultsIn, CompletedIn, Turns, FirstMessage;
      Publish(ExecutionStarted);
      assert trace == [ExecutionStarted];
      var selected := ResolveTestsToExecute(tests, target, includePrevious);
      if selected.None? {
        CountError(NOT_FOUND);
        assert faults == [NOT_FOUND];
      } else {
        totalTests := |selected.value|;
        Publish(Progress(0, totalTests));
        var escaped := RunTests(selected.value, runs);
        if escaped.Some? {
          CountError(escaped.value);
        }
      }
      assert trace == BodyOf(selected, runs) && faults == FaultsOf(selected, runs);
      if finalUpdate {
        Publish(ExecutionFinished(errorCount == 0, completedTests, totalTests, errorCount, firstErrorMessage));
      }
    }

    method RunTests(tests: seq<SuiteTest>, runs: nat -> TestRun) returns (escaped: Option<string>)
      requires Counts() && completedTests == 0 && faults == [] && totalTests == |tests|
      modifies this`trace, this`completedTests, this`errorCount, this`firstErrorMessage, this`faults
      ensures Counts()
      ensures trace == old(trace) + PublishedIn(tests, runs, Turns(tests, runs, 0))
      ensures completedTests == CompletedIn(runs, Turns(tests, runs, 0))
      ensures (if escaped.Some? then faults + [escaped.value] else faults) == FaultsIn(runs, Turns(tests, runs, 0))
    {
      hide Published, Faults, Escapes, Completes, GoesOn, FirstMessage, PublishedIn, FaultsIn, CompletedIn, Turns;
      escaped := None;
      LoopStarts(tests, runs);
      var i := 0;
      while i < |tests|
        invariant i <= |tests| && Counts() && completedTests == CompletedIn(runs, i)
        invariant escaped.None? && faults == FaultsIn(runs, i)
        invariant trace == old(trace) + PublishedIn(tests, runs, i)
        invariant Turns(tests, runs, 0) == Turns(tests, runs, i)
      {
        var stop;
        escaped, stop := RunTest(tests[i], runs(i), i + 1);
        ghost var block := Published(tests[i], runs(i), i + 1, CompletedIn(runs, i), |tests|);
        Appended(old(trace), PublishedIn(tests, runs, i), block);
        EscapeStops(tests[i], runs(i));
        LoopTurns(tests, runs, i);
        i := i + 1;
        if escaped.Some? || stop {
          return;
        }
      }
      LoopEnds(tests, runs);
    }
  }

  // ---- what every run publishes -----------------------------------------------------------------

  function StartedIds(trace: seq<Event>): seq<string> {
    if trace == [] then []
    else StartedIds(trace[..|trace| - 1])
         + (var e := trace[|trace| - 1]; if e.TestStarted? then [e.id] else [])
  }

  function FinishedIds(trace: seq<Event>): seq<string> {
    if trace == [] then []
    else FinishedIds(trace[..|trace| - 1])
         + (var e := trace[|trace| - 1]; if e.TestFinished? then [e.id] else [])
  }

  function IdsOf(tests: seq<SuiteTest>): seq<string> {
    seq(|tests|, i requires 0 <= i < |tests| => tests[i].id)
  }

  lemma {:induction false} StartedAppend(a: seq<Event>, b: seq<Event>)
    ensures StartedIds(a + b) == StartedIds(a) + StartedIds(b)
    ensures FinishedIds(a + b) == FinishedIds(a) + FinishedIds(b)
    decreases |b|
  {
    if b == [] {
      assert a + b == a;
    } else {
      assert (a + b)[..|a + b| - 1] == a + b[..|b| - 1];
      StartedAppend(a, b[..|b| - 1]);
    }
  }

  /** How many of the tests that the loop turned to were started: all but one whose record failed. */
  function StartedCount(runs: nat -> TestRun, n: nat): nat {
    if n > 0 && !Starts(runs(n - 1)) then n - 1 else n
  }

  /** How many of those published a result: all but one whose exception escaped. */
  function FinishedCount(runs: nat -> TestRun, n: nat): nat {
    if n > 0 && Escapes(runs(n - 1)) then n - 1 else n
  }

  lemma PublishedIds(t: SuiteTest, r: TestRun, index: nat, completed: nat, total: nat)
    ensures StartedIds(Published(t, r, index, completed, total)) == if Starts(r) then [t.id] else []
    ensures FinishedIds(Published(t, r, index, completed, total)) == if Escapes(r) then [] else [t.id]
  {
    hide StartedIds, FinishedIds;
    var p := Published(t, r, index, completed, total);
    if p == [] {
      NoIds([]);
    } else {
      OneId(p[0]);
      OneId(p[1]);
      StartedAppend([p[0]], [p[1]]);
      assert |p| == 2 ==> p == [p[0]] + [p[1]];
      if |p| == 3 {
        OneId(p[2]);
        StartedAppend([p[0]] + [p[1]], [p[2]]);
        assert p == [p[0]] + [p[1]] + [p[2]];
      }
    }
  }

  lemma OneId(e: Event)
    ensures StartedIds([e]) == if e.TestStarted? then [e.id] else []
    ensures FinishedIds([e]) == if e.TestFinished? then [e.id] else []
  {
    assert [e][..0] == [];
  }

  lemma {:induction false} LoopIds(tests: seq<SuiteTest>, runs: nat -> TestRun, n: nat)
    requires n <= |tests| && forall k | 0 <= k < n - 1 :: GoesOn(tests[k], runs(k))
    ensures StartedIds(PublishedIn(tests, runs, n)) == IdsOf(tests[..StartedCount(runs, n)])
    ensures FinishedIds(PublishedIn(tests, runs, n)) == IdsOf(tests[..FinishedCount(runs, n)])
  {
    hide StartedIds, FinishedIds, Published, IdsOf, CompletedIn;
    if n == 0 {
      NoIds(tests);
    } else {
      LoopIds(tests, runs, n - 1);
      var block := Published(tests[n - 1], runs(n - 1), n, CompletedIn(runs, n - 1), |tests|);
      PublishedIds(tests[n - 1], runs(n - 1), n, CompletedIn(runs, n - 1), |tests|);
      StartedAppend(PublishedIn(tests, runs, n - 1), block);
      AllBefore(tests, runs, n);
      NextId(tests, n);
    }
  }

  lemma NoIds(tests: seq<SuiteTest>)
    ensures StartedIds([]) == FinishedIds([]) == IdsOf(tests[..0]) == []
  {
  }

  lemma NextId(tests: seq<SuiteTest>, n: nat)
    requires 0 < n <= |tests|
    ensures IdsOf(tests[..n]) == IdsOf(tests[..n - 1]) + [tests[n - 1].id]
    ensures IdsOf(tests[..n - 1]) == IdsOf(tests[..n - 1]) + []
  {
  }

  /** All turns but the last start and finish. */
  lemma AllBefore(tests: seq<SuiteTest>, runs: nat -> TestRun, n: nat)
    requires 0 < n <= |tests| && forall k | 0 <= k < n - 1 :: GoesOn(tests[k], runs(k))
    ensures StartedCount(runs, n - 1) == FinishedCount(runs, n - 1) == n - 1
  {
    if n > 1 {
      assert GoesOn(tests[n - 2], runs(n - 2));
    }
  }

  /** The tests that start, and those that publish a result, are prefixes of the selected tests. */
  lemma TestsRunAreAPrefix(tests: seq<SuiteTest>, runs: nat -> TestRun, finalUpdate: bool)
    ensures var trace := TraceOf(Some(tests), runs, finalUpdate);
            var n := Turns(tests, runs, 0);
            && StartedIds(trace) == IdsOf(tests[..StartedCount(runs, n)])
            && FinishedIds(trace) == IdsOf(tests[..FinishedCount(runs, n)])
  {
    hide StartedIds, FinishedIds, PublishedIn, IdsOf, Turns, BodyOf, StartedCount, FinishedCount, FinishedWith;
    hide FaultsOf, CompletedOf, TotalOf, GoesOn;
    var n := Turns(tests, runs, 0);
    LoopIds(tests, runs, n);
    BodyIds(tests, runs);
    var body := BodyOf(Some(tests), runs);
    if finalUpdate {
      var last := [FinishedWith(FaultsOf(Some(tests), runs), CompletedOf(Some(tests), runs), TotalOf(Some(tests)))];
      FinishedWithIsLast(FaultsOf(Some(tests), runs), CompletedOf(Some(tests), runs), TotalOf(Some(tests)));
      EndIds(body, last);
    }
  }

  lemma FinishedWithIsLast(faults: seq<string>, completed: nat, total: nat)
    ensures FinishedWith(faults, completed, total).ExecutionFinished?
  {
  }

  /** The loop ends at the end of the list, at the first failing test that aborts, or at an exception that
      escapes, and not before. */
  lemma LoopEndsAt(tests: seq<SuiteTest>, runs: nat -> TestRun)
    ensures var n := Turns(tests, runs, 0);
            && (n < |tests| ==> n > 0 && (Escapes(runs(n - 1)) || (Failure(runs(n - 1)).Some? && tests[n - 1].abort)))
            && forall k | 0 <= k < n - 1 :: !Escapes(runs(k)) && (Failure(runs(k)).Some? ==> !tests[k].abort)
  {
    hide Turns, Escapes, Failure;
    var n := Turns(tests, runs, 0);
    forall k: nat | k + 1 < n
      ensures !Escapes(runs(k)) && (Failure(runs(k)).Some? ==> !tests[k].abort)
    {
      assert GoesOn(tests[k], runs(k));
    }
  }

  lemma BodyIds(tests: seq<SuiteTest>, runs: nat -> TestRun)
    ensures StartedIds(BodyOf(Some(tests), runs)) == StartedIds(PublishedIn(tests, runs, Turns(tests, runs, 0)))
    ensures FinishedIds(BodyOf(Some(tests), runs)) == FinishedIds(PublishedIn(tests, runs, Turns(tests, runs, 0)))
  {
    hide StartedIds, FinishedIds, PublishedIn, Turns;
    var published := PublishedIn(tests, runs, Turns(tests, runs, 0));
    OtherIds([ExecutionStarted]);
    OtherIds([Progress(0, |tests|)]);
    StartedAppend([ExecutionStarted], [Progress(0, |tests|)]);
    StartedAppend([ExecutionStarted] + [Progress(0, |tests|)], published);
    NothingBefore(StartedIds(published));
    NothingBefore(FinishedIds(published));
  }

  lemma NothingBefore(xs: seq<string>)
    ensures [] + [] + xs == xs
  {
  }

  lemma EndIds(body: seq<Event>, last: seq<Event>)
    requires |last| == 1 && last[0].ExecutionFinished?
    ensures StartedIds(body + last) == StartedIds(body) && FinishedIds(body + last) == FinishedIds(body)
  {
    hide StartedIds, FinishedIds;
    OtherIds(last);
    StartedAppend(body, last);
  }

  lemma OtherIds(one: seq<Event>)
    requires |one| == 1 && !one[0].TestStarted? && !one[0].TestFinished?
    ensures StartedIds(one) == [] && FinishedIds(one) == []
  {
    assert one[..0] == [];
  }

  // ---- the progress shown -----------------------------------------------------------------------

  /** The progress events of a trace. */
  function ProgressOf(trace: seq<Event>): seq<Event> {
    if trace == [] then []
    else ProgressOf(trace[..|trace| - 1]) + (var e := trace[|trace| - 1]; if e.Progress? then [e] else [])
  }

  lemma {:induction false} ProgressAppend(a: seq<Event>, b: seq<Event>)
    ensures ProgressOf(a + b) == ProgressOf(a) + ProgressOf(b)
    decreases |b|
  {
    if b == [] {
      assert a + b == a;
    } else {
      assert (a + b)[..|a + b| - 1] == a + b[..|b| - 1];
      ProgressAppend(a, b[..|b| - 1]);
    }
  }

  lemma OneProgress(e: Event)
    ensures ProgressOf([e]) == if e.Progress? then [e] else []
  {
    assert [e][..0] == [];
  }

  lemma PublishedProgress(t: SuiteTest, r: TestRun, index: nat, completed: nat, total: nat)
    ensures ProgressOf(Published(t, r, index, completed, total)) ==
            if Starts(r) then [Progress(if Completes(r) then completed + 1 else completed, total)] else []
  {
    hide ProgressOf;
    var p := Published(t, r, index, completed, total);
    if p == [] {
      NoProgress();
    } else {
      OneProgress(p[0]);
      OneProgress(p[1]);
      ProgressAppend([p[0]], [p[1]]);
      assert |p| == 2 ==> p == [p[0]] + [p[1]];
      if |p| == 3 {
        OneProgress(p[2]);
        ProgressAppend([p[0]] + [p[1]], [p[2]]);
        assert p == [p[0]] + [p[1]] + [p[2]];
      }
    }
  }

  lemma NoProgress()
    ensures ProgressOf([]) == []
  {
  }

  /** After each of `n` tests, how many have completed. */
  function ProgressOver(runs: nat -> TestRun, n: nat, total: nat): seq<Event> {
    seq(n, k requires 0 <= k < n => Progress(CompletedIn(runs, k + 1), total))
  }

  lemma NextProgress(runs: nat -> TestRun, n: nat, total: nat)
    ensures ProgressOver(runs, n + 1, total) == ProgressOver(runs, n, total) + [Progress(CompletedIn(runs, n + 1), total)]
    ensures ProgressOver(runs, n, total) + [] == ProgressOver(runs, n, total)
  {
  }

  lemma {:induction false} LoopProgress(tests: seq<SuiteTest>, runs: nat -> TestRun, n: nat)
    requires n <= |tests| && forall k | 0 <= k < n - 1 :: GoesOn(tests[k], runs(k))
    ensures ProgressOf(PublishedIn(tests, runs, n)) == ProgressOver(runs, StartedCount(runs, n), |tests|)
  {
    hide ProgressOf, Published, ProgressOver;
    if n == 0 {
      NoProgress();
      assert ProgressOver(runs, 0, |tests|) == [] by { NothingOver(runs, |tests|); }
    } else {
      LoopProgress(tests, runs, n - 1);
      var block := Published(tests[n - 1], runs(n - 1), n, CompletedIn(runs, n - 1), |tests|);
      PublishedProgress(tests[n - 1], runs(n - 1), n, CompletedIn(runs, n - 1), |tests|);
      ProgressAppend(PublishedIn(tests, runs, n - 1), block);
      AllBefore(tests, runs, n);
      NextProgress(runs, n - 1, |tests|);
    }
  }

  lemma NothingOver(runs: nat -> TestRun, total: nat)
    ensures ProgressOver(runs, 0, total) == []
  {
  }

  /** Progress is published once before the tests, with nothing executed, and once after each started
      test, with the number of tests completed so far; the total is the number of selected tests. */
  lemma ProgressIsExact(tests: seq<SuiteTest>, runs: nat -> TestRun)
    ensures var n := Turns(tests, runs, 0);
            ProgressOf(BodyOf(Some(tests), runs)) ==
            [Progress(0, |tests|)] + ProgressOver(runs, StartedCount(runs, n), |tests|)
  {
    hide ProgressOf, PublishedIn, Turns, ProgressOver, StartedCount, BodyOf;
    BodyProgress(tests, runs);
    LoopProgress(tests, runs, Turns(tests, runs, 0));
  }

  lemma BodyProgress(tests: seq<SuiteTest>, runs: nat -> TestRun)
    ensures ProgressOf(BodyOf(Some(tests), runs)) ==
            [Progress(0, |tests|)] + ProgressOf(PublishedIn(tests, runs, Turns(tests, runs, 0)))
  {
    hide ProgressOf, PublishedIn, Turns;
    var published := PublishedIn(tests, runs, Turns(tests, runs, 0));
    OneProgress(ExecutionStarted);
    OneProgress(Progress(0, |tests|));
    ProgressAppend([ExecutionStarted], [Progress(0, |tests|)]);
    ProgressAppend([ExecutionStarted] + [Progress(0, |tests|)], published);
    assert [] + [Progress(0, |tests|)] == [Progress(0, |tests|)];
  }

  predicate IsEdge(e: Event) { e.ExecutionStarted? || e.ExecutionFinished? }

  lemma {:induction false} LoopHasNoEdge(tests: seq<SuiteTest>, runs: nat -> TestRun, n: nat)
    requires n <= |tests|
    ensures forall i | 0 <= i < |PublishedIn(tests, runs, n)| :: !IsEdge(PublishedIn(tests, runs, n)[i])
  {
    if n == 0 {
    } else {
      LoopHasNoEdge(tests, runs, n - 1);
    }
  }

  /** A run starts with `execution_started`, publishes it once, and publishes `execution_finished` once,
      at the end, exactly when the final update of the suite succeeds. */
  lemma OneStartOneEnd(selected: Option<seq<SuiteTest>>, runs: nat -> TestRun, finalUpdate: bool)
    ensures var trace := TraceOf(selected, runs, finalUpdate);
            && |trace| > 0 && trace[0] == ExecutionStarted
            && (forall i | 0 < i < |trace| :: !trace[i].ExecutionStarted?)
            && (forall i | 0 <= i < |trace| :: trace[i].ExecutionFinished? <==> finalUpdate && i == |trace| - 1)
  {
    if selected.Some? {
      hide PublishedIn, Turns;
      var n := Turns(selected.value, runs, 0);
      LoopHasNoEdge(selected.value, runs, n);
    }
  }

  // ---- the counters -----------------------------------------------------------------------------

  /** Tests among the first `n` that completed and were then also counted as failed. */
  function UnrecordedIn(runs: nat -> TestRun, n: nat): nat {
    if n == 0 then 0
    else UnrecordedIn(runs, n - 1) + if Completes(runs(n - 1)) && runs(n - 1).successError.Some? then 1 else 0
  }

  lemma {:induction false} Balance(tests: seq<SuiteTest>, runs: nat -> TestRun, n: nat)
    requires n <= |tests| && forall k | 0 <= k < n - 1 :: GoesOn(tests[k], runs(k))
    ensures CompletedIn(runs, n) + |FaultsIn(runs, n)| ==
            StartedCount(runs, n) + UnrecordedIn(runs, n) + if n > 0 && Escapes(runs(n - 1)) then 1 else 0
  {
    hide Completes, Faults, Escapes, Starts, GoesOn;
    if n == 0 {
    } else {
      Balance(tests, runs, n - 1);
      TurnBalance(runs(n - 1));
      if n > 1 {
        assert GoesOn(tests[n - 2], runs(n - 2));
        EscapeStops(tests[n - 2], runs(n - 2));
        GoingOnStarts(tests[n - 2], runs(n - 2));
      }
    }
  }

  lemma GoingOnStarts(t: SuiteTest, r: TestRun)
    requires GoesOn(t, r)
    ensures Starts(r)
  {
  }

  lemma TurnBalance(r: TestRun)
    ensures (if Completes(r) then 1 else 0) + |Faults(r)| ==
            (if Starts(r) then 1 else 0) + (if Completes(r) && r.successError.Some? then 1 else 0)
            + if Escapes(r) then 1 else 0
  {
  }

  /** Completed plus failed is the number of started tests, exactly when no exception escaped and no
      success failed to be recorded; each of those adds one. */
  lemma CountersBalance(tests: seq<SuiteTest>, runs: nat -> TestRun)
    ensures var n := Turns(tests, runs, 0);
            var escaped := if n > 0 && Escapes(runs(n - 1)) then 1 else 0;
            && CompletedIn(runs, n) + |FaultsIn(runs, n)| == StartedCount(runs, n) + UnrecordedIn(runs, n) + escaped
            && (CompletedIn(runs, n) + |FaultsIn(runs, n)| == StartedCount(runs, n) <==>
                  (forall k | 0 <= k < n :: !Escapes(runs(k)) && !(Completes(runs(k)) && runs(k).successError.Some?)))
  {
    var n := Turns(tests, runs, 0);
    Balance(tests, runs, n);
    UnrecordedZero(runs, n);
    assert n > 0 ==> forall k | 0 <= k < n - 1 :: !Escapes(runs(k));
  }

  lemma {:induction false} UnrecordedZero(runs: nat -> TestRun, n: nat)
    ensures UnrecordedIn(runs, n) == 0 <==> forall k | 0 <= k < n :: !(Completes(runs(k)) && runs(k).successError.Some?)
  {
    if n == 0 {
    } else {
      UnrecordedZero(runs, n - 1);
    }
  }

  lemma {:induction false} FaultFree(runs: nat -> TestRun, n: nat)
    ensures FaultsIn(runs, n) == [] <==> forall k | 0 <= k < n :: Faults(runs(k)) == []
  {
    if n == 0 {
    } else {
      FaultFree(runs, n - 1);
    }
  }

  /** The run is reported as an error exactly when the target was not found or something failed in a test
      that the loop turned to, and the reported message is the first that is not empty. */
  lemma StatusIsExact(selected: Option<seq<SuiteTest>>, runs: nat -> TestRun)
    ensures var trace := TraceOf(selected, runs, true);
            var last := trace[|trace| - 1];
            && last.ExecutionFinished?
            && last.errors == |FaultsOf(selected, runs)| && last.total == TotalOf(selected)
            && last.executed == (if selected.Some? then CompletedIn(runs, Turns(selected.value, runs, 0)) else 0)
            && (last.ok <==> selected.Some? && forall k | 0 <= k < Turns(selected.value, runs, 0) ::
                              runs(k).insertError.None? && runs(k).runError.None? && runs(k).successError.None?)
            && (selected.Some? ==> FirstOf(FaultsIn(runs, Turns(selected.value, runs, 0)), last.error))
  {
    if selected.Some? {
      var n := Turns(selected.value, runs, 0);
      FaultFree(runs, n);
      FirstMessageIsFirst(FaultsIn(runs, n));
      forall k | 0 <= k < n
        ensures Faults(runs(k)) == [] <==>
                  runs(k).insertError.None? && runs(k).runError.None? && runs(k).successError.None?
      {
      }
    }
  }

  /** `m` is the first message that is not empty, or empty when all are. */
  ghost predicate FirstOf(messages: seq<string>, m: string) {
    if forall i | 0 <= i < |messages| :: messages[i] == [] then m == []
    else exists i :: 0 <= i < |messages| && messages[i] == m != [] && forall j | 0 <= j < i :: messages[j] == []
  }

  lemma {:induction false} FirstMessageIsFirst(messages: seq<string>)
    ensures FirstOf(messages, FirstMessage(messages))
  {
    if messages == [] || messages[0] != [] {
    } else {
      var rest := messages[1..];
      FirstMessageIsFirst(rest);
      assert forall i | 0 <= i < |rest| :: rest[i] == messages[i + 1];
      if i :| 0 <= i < |rest| && rest[i] == FirstMessage(rest) != [] && forall j | 0 <= j < i :: rest[j] == [] {
        assert messages[i + 1] == FirstMessage(rest);
        assert forall j | 0 <= j < i + 1 :: messages[j] == if j == 0 then [] else rest[j - 1];
      }
    }
  }

  // ---- the trace, event by event ----------------------------------------------------------------

  /** The handling of the test ends the loop. */
  predicate Stops(t: SuiteTest, r: TestRun) {
    r.insertError.Some? || ((r.runError.Some? || r.successError.Some?) && (t.abort || r.failureError.Some?))
  }

  /** `n` tests are turned to: all, or those up to the first that ends the loop. */
  ghost predicate IsTurns(tests: seq<SuiteTest>, runs: nat -> TestRun, n: nat) {
    && n <= |tests| && (forall k | 0 <= k < n - 1 :: !Stops(tests[k], runs(k)))
    && (n < |tests| ==> n > 0 && Stops(tests[n - 1], runs(n - 1)))
  }

  /** How many of the first `n` have been recorded and run without an exception. */
  ghost function DoneAmong(runs: nat -> TestRun, n: nat): nat {
    |set k: nat | k < n && runs(k).insertError.None? && runs(k).runError.None?|
  }

  /** The event tells what became of the test: nothing raised, or the first exception of running it and
      recording its success. */
  predicate TellsResult(e: Event, t: SuiteTest, r: TestRun) {
    && e.TestFinished? && e.id == t.id
    && (r.runError.Some? ==> e.failure == r.runError) && (r.runError.None? ==> e.failure == r.successError)
  }

  lemma StopsIsEnd(t: SuiteTest, r: TestRun)
    ensures Stops(t, r) <==> !GoesOn(t, r)
  {
  }

  lemma {:induction false} TurnsFrom(tests: seq<SuiteTest>, runs: nat -> TestRun, n: nat, from: nat)
    requires IsTurns(tests, runs, n) && from <= n && (from == n ==> n == |tests|)
    ensures Turns(tests, runs, from) == n
    decreases |tests| - from
  {
    hide Stops, GoesOn;
    if from == |tests| {
    } else {
      StopsIsEnd(tests[from], runs(from));
      if GoesOn(tests[from], runs(from)) {
        TurnsFrom(tests, runs, n, from + 1);
      }
    }
  }

  lemma {:induction false} DoneIsCompleted(runs: nat -> TestRun, n: nat)
    ensures DoneAmong(runs, n) == CompletedIn(runs, n)
  {
    var done := set k: nat | k < n && runs(k).insertError.None? && runs(k).runError.None?;
    if n == 0 {
      assert done == {};
    } else {
      DoneIsCompleted(runs, n - 1);
      var before := set k: nat | k < n - 1 && runs(k).insertError.None? && runs(k).runError.None?;
      assert done == if Completes(runs(n - 1)) then before + {n - 1} else before;
    }
  }

  /** The `k`-th three of the events are the start of the test, its result and the progress. */
  ghost predicate HasBlock(events: seq<Event>, k: nat, t: SuiteTest, r: TestRun, done: nat, total: nat) {
    && 3 * k + 3 <= |events|
    && events[3 * k] == TestStarted(t.id, k + 1) && TellsResult(events[3 * k + 1], t, r) && events[3 * k + 2] == Progress(done, total)
  }

  lemma BlockStays(events: seq<Event>, more: seq<Event>, k: nat, t: SuiteTest, r: TestRun, done: nat, total: nat)
    requires HasBlock(events, k, t, r, done, total)
    ensures HasBlock(events + more, k, t, r, done, total)
  {
  }

  ghost predicate HasBlocks(events: seq<Event>, tests: seq<SuiteTest>, runs: nat -> TestRun, n: nat)
    requires n <= |tests|
  {
    forall k | 0 <= k < n :: HasBlock(events, k, tests[k], runs(k), DoneAmong(runs, k + 1), |tests|)
  }

  lemma BlocksStay(events: seq<Event>, more: seq<Event>, tests: seq<SuiteTest>, runs: nat -> TestRun, n: nat)
    requires n <= |tests| && HasBlocks(events, tests, runs, n)
    ensures HasBlocks(events + more, tests, runs, n)
  {
    hide HasBlock, DoneAmong;
    forall k | 0 <= k < n
      ensures HasBlock(events + more, k, tests[k], runs(k), DoneAmong(runs, k + 1), |tests|)
    {
      BlockStays(events, more, k, tests[k], runs(k), DoneAmong(runs, k + 1), |tests|);
    }
  }

  /** Turns that do not end in an escaping exception publish three events each. */
  lemma {:induction false} BlocksAt(tests: seq<SuiteTest>, runs: nat -> TestRun, n: nat)
    requires n <= |tests| && forall k | 0 <= k < n :: !Escapes(runs(k))
    ensures |PublishedIn(tests, runs, n)| == 3 * n && HasBlocks(PublishedIn(tests, runs, n), tests, runs, n)
  {
    hide DoneAmong, PublishedIn, Published, HasBlock, Completes, Escapes;
    if n == 0 {
      LoopStarts(tests, runs);
    } else {
      BlocksAt(tests, runs, n - 1);
      DoneIsCompleted(runs, n);
      PublishedNext(tests, runs, n);
      var before, block := PublishedIn(tests, runs, n - 1), Published(tests[n - 1], runs(n - 1), n, CompletedIn(runs, n - 1), |tests|);
      OneBlock(tests[n - 1], runs(n - 1), n, CompletedIn(runs, n - 1), |tests|);
      BlocksStay(before, block, tests, runs, n - 1);
      LastIsBlock(before, block, n - 1, tests[n - 1], runs(n - 1), CompletedIn(runs, n), |tests|);
    }
  }

  lemma LastIsBlock(before: seq<Event>, block: seq<Event>, k: nat, t: SuiteTest, r: TestRun, done: nat, total: nat)
    requires |before| == 3 * k && |block| == 3
    requires block[0] == TestStarted(t.id, k + 1) && TellsResult(block[1], t, r) && block[2] == Progress(done, total)
    ensures HasBlock(before + block, k, t, r, done, total)
  {
  }

  lemma OneBlock(t: SuiteTest, r: TestRun, index: nat, completed: nat, total: nat)
    requires !Escapes(r)
    ensures var p := Published(t, r, index, completed, total);
            && |p| == 3 && p[0] == TestStarted(t.id, index) && TellsResult(p[1], t, r)
            && p[2] == Progress(if Completes(r) then completed + 1 else completed, total)
  {
  }

  lemma LastBlock(t: SuiteTest, r: TestRun, index: nat, completed: nat, total: nat)
    requires Escapes(r)
    ensures var progress := Progress(if Completes(r) then completed + 1 else completed, total);
            Published(t, r, index, completed, total) == if r.insertError.Some? then [] else [TestStarted(t.id, index), progress]
  {
  }

  /** The exception of the `n`-th test that escapes its handling. */
  predicate IsLost(r: TestRun) { r.insertError.Some? || ((r.runError.Some? || r.successError.Some?) && r.failureError.Some?) }

  /** The events of the loop: for each test the start with its index, its result and the progress, and for
      a last test whose exception escapes no result, or nothing when its record could not be made. */
  ghost predicate AreTheEvents(tests: seq<SuiteTest>, runs: nat -> TestRun, n: nat, events: seq<Event>)
    requires n <= |tests|
  {
    if n == 0 || !IsLost(runs(n - 1)) then |events| == 3 * n && HasBlocks(events, tests, runs, n)
    else
      && |events| == 3 * (n - 1) + (if runs(n - 1).insertError.Some? then 0 else 2)
      && HasBlocks(events, tests, runs, n - 1)
      && (runs(n - 1).insertError.None? ==>
            && events[3 * (n - 1)] == TestStarted(tests[n - 1].id, n)
            && events[3 * (n - 1) + 1] == Progress(DoneAmong(runs, n), |tests|))
  }

  lemma PublishedAreTheEvents(tests: seq<SuiteTest>, runs: nat -> TestRun, n: nat)
    requires IsTurns(tests, runs, n)
    ensures AreTheEvents(tests, runs, n, PublishedIn(tests, runs, n))
  {
    hide DoneAmong, PublishedIn, Published, TellsResult, HasBlocks;
    forall k | 0 <= k < n - 1
      ensures !Escapes(runs(k))
    {
      StopsIsEnd(tests[k], runs(k));
    }
    if n == 0 || !IsLost(runs(n - 1)) {
      BlocksAt(tests, runs, n);
    } else {
      BlocksAt(tests, runs, n - 1);
      LastBlock(tests[n - 1], runs(n - 1), n, CompletedIn(runs, n - 1), |tests|);
      PublishedNext(tests, runs, n);
      DoneIsCompleted(runs, n);
      BlocksStay(PublishedIn(tests, runs, n - 1), Published(tests[n - 1], runs(n - 1), n, CompletedIn(runs, n - 1), |tests|),
                 tests, runs, n - 1);
    }
  }

  /** Every event of a run: the start, the first progress, the events of the loop, and the end. */
  lemma TraceIsExact(tests: seq<SuiteTest>, runs: nat -> TestRun, finalUpdate: bool, n: nat)
    requires IsTurns(tests, runs, n)
    ensures var trace := TraceOf(Some(tests), runs, finalUpdate);
            var last := if finalUpdate then |trace| - 1 else |trace|;
            && 2 <= last && trace[0] == ExecutionStarted && trace[1] == Progress(0, |tests|)
            && AreTheEvents(tests, runs, n, trace[2..last])
            && (finalUpdate ==> trace[last].ExecutionFinished?)
  {
    hide AreTheEvents, PublishedIn, Turns, FinishedWith, FaultsOf, CompletedOf, TotalOf, IsTurns;
    TurnsBound(tests, runs, n);
    TurnsFrom(tests, runs, n, 0);
    PublishedAreTheEvents(tests, runs, n);
    var trace := TraceOf(Some(tests), runs, finalUpdate);
    var last := if finalUpdate then |trace| - 1 else |trace|;
    assert BodyOf(Some(tests), runs) == [ExecutionStarted, Progress(0, |tests|)] + PublishedIn(tests, runs, n);
    assert trace[2..last] == PublishedIn(tests, runs, n);
    FinishedWithIsLast(FaultsOf(Some(tests), runs), CompletedOf(Some(tests), runs), TotalOf(Some(tests)));
  }

  lemma TurnsBound(tests: seq<SuiteTest>, runs: nat -> TestRun, n: nat)
    requires IsTurns(tests, runs, n)
    ensures n <= |tests| && (0 == n ==> n == |tests|)
  {
  }

  lemma PublishedNext(tests: seq<SuiteTest>, runs: nat -> TestRun, n: nat)
    requires 0 < n <= |tests|
    ensures PublishedIn(tests, runs, n) ==
            PublishedIn(tests, runs, n - 1) + Published(tests[n - 1], runs(n - 1), n, CompletedIn(runs, n - 1), |tests|)
    ensures CompletedIn(runs, n) == CompletedIn(runs, n - 1) + if Completes(runs(n - 1)) then 1 else 0
  {
    hide Published, Completes;
  }

  predicate RaisesNothing(r: TestRun) { r.insertError.None? && r.runError.None? && r.successError.None? }

  /** The message of the first exception of a test. */
  predicate IsFirstMessage(r: TestRun, m: string) {
    if r.insertError.Some? then m == r.insertError.value
    else if r.runError.Some? then m == r.runError.value
    else r.successError == Some(m)
  }

  /** What the end event says: how many tests have been run without an exception, of how many; that all
      is well exactly when nothing raised; and the message of the first test that raised, if it has one. */
  lemma EndIsExact(tests: seq<SuiteTest>, runs: nat -> TestRun, n: nat, k: nat, m: string)
    requires IsTurns(tests, runs, n)
    ensures var trace := TraceOf(Some(tests), runs, true);
            var last := trace[|trace| - 1];
            && last.ExecutionFinished? && last.executed == DoneAmong(runs, n) && last.total == |tests|
            && (last.ok <==> forall j | 0 <= j < n :: RaisesNothing(runs(j)))
            && (k < n && (forall j | 0 <= j < k :: RaisesNothing(runs(j))) && IsFirstMessage(runs(k), m) && m != [] ==> last.error == m)
  {
    hide DoneAmong, PublishedIn, Turns, FaultsIn, FirstMessage, CompletedIn;
    TurnsFrom(tests, runs, n, 0);
    DoneIsCompleted(runs, n);
    StatusIsExact(Some(tests), runs);
    if k < n && (forall j | 0 <= j < k :: RaisesNothing(runs(j))) && IsFirstMessage(runs(k), m) && m != [] {
      FirstFault(runs(k), m);
      forall j | 0 <= j < k
        ensures Faults(runs(j)) == []
      {
        assert RaisesNothing(runs(j));
      }
      FaultsStart(runs, k, n);
    }
  }

  lemma FirstFault(r: TestRun, m: string)
    requires IsFirstMessage(r, m)
    ensures Faults(r) != [] && Faults(r)[0] == m
  {
  }

  /** The first faults come from the first test that has any. */
  lemma {:induction false} FaultsStart(runs: nat -> TestRun, k: nat, n: nat)
    requires k < n && forall j | 0 <= j < k :: Faults(runs(j)) == []
    requires Faults(runs(k)) != []
    ensures var faults := FaultsIn(runs, n);
            faults != [] && faults[0] == Faults(runs(k))[0] && (faults[0] != [] ==> FirstMessage(faults) == faults[0])
  {
    hide Faults;
    if n == k + 1 {
      FaultFree(runs, k);
    } else {
      FaultsStart(runs, k, n - 1);
    }
  }

  /** An unknown target is reported, and nothing is run. */
  lemma UnknownTargetIsReported(runs: nat -> TestRun)
    ensures TraceOf(None, runs, true) ==
            [ExecutionStarted, ExecutionFinished(false, 0, 0, 1, "Suite test not found in suite")]
  {
  }

  /** What is selected: all tests, or the first with the requested id, after the ones before it when these
      are wanted; nothing when there is none. */
  lemma SelectionIs(tests: seq<SuiteTest>, target: string, includePrevious: bool)
    ensures target == [] ==> Selected(tests, target, includePrevious) == Some(tests)
    ensures target != [] && (forall i | 0 <= i < |tests| :: tests[i].id != target) ==> Selected(tests, target, includePrevious).None?
    ensures forall i | 0 <= i < |tests| && target != [] && tests[i].id == target && (forall j | 0 <= j < i :: tests[j].id != target) ::
              Selected(tests, target, includePrevious) == Some(if includePrevious then tests[..i + 1] else [tests[i]])
  {
    forall i | 0 <= i < |tests| && target != [] && tests[i].id == target && (forall j | 0 <= j < i :: tests[j].id != target)
      ensures FirstWithId(tests, target, 0) == i
    {
    }
  }
}
