/**
  The result-building loops of `execute_cb_code` and `execute_std_code` in
  rllm/rewards/code_utils/taco.py. What runs the candidate is a parameter: for call-based
  problems the loaded function, as the outcome of calling it on the arguments of test `index`;
  for standard-input problems the subprocess, as the outcome of running the program on the text
  written to its standard input for test `index`.
 */
module Execution {
  import opened Wrappers
  import opened PyText
  import opened PyValues
  import opened Equivalence

  /** `EXECUTION_RESULTS[code]`: the label of each execution code from 1 down to -4. */
  function ExecutionResults(code: int): string
    requires -4 <= code <= 1
  {
    if code == 1 then "passed"
    else if code == 0 then "false"
    else if code == -1 then "timeout"
    else if code == -2 then "runtime_error"
    else if code == -3 then "returncode:{code}"
    else "compile_error"
  }

  /** One entry of the results: whether the test passed, and its label. */
  datatype TestResult = TestResult(passed: bool, status: string)

  /** The labels the two loops can produce. */
  predicate KnownLabel(r: TestResult) {
    r.status == "passed" || r.status == "false" || r.status == "timeout" || r.status == "runtime_error"
  }

  /** An entry is well formed: a known label, and `passed` set exactly for the `"passed"` label. */
  predicate WellFormed(r: TestResult) {
    KnownLabel(r) && (r.passed <==> r.status == "passed")
  }

  // ---------------------------------------------------------------------------------------
  // execute_cb_code

  /** The outcome of `method(*inputs)`: the returned value, or an exception (a timeout included). */
  datatype CallOutcome = Returned(value: PyValue) | Raised

  /** `method(*inputs)` for test `index`: unpacking raises when `inputs` is not iterable. */
  function CallWith(invoke: (nat, seq<PyValue>) -> CallOutcome, index: nat, inputs: PyValue): CallOutcome
  {
    match Iterate(inputs)
    case None => Raised
    case Some(args) => invoke(index, args)
  }

  /** `a == b` used as a truth value; `None` when the comparison raises. */
  function EqTruth(a: PyValue, b: PyValue): Option<bool>
  {
    match PyEq(a, b)
    case Raises => None
    case c => Some(c == Equal)
  }

  /** `[list(x) for x in v]`; `None` when iterating `v` or some `list(x)` raises. */
  function ListRows(v: PyValue): Option<seq<PyValue>>
  {
    match Iterate(v)
    case None => None
    case Some(xs) => ListEach(xs)
  }

  function ListEach(xs: seq<PyValue>): (r: Option<seq<PyValue>>)
    ensures r.Some? ==> |r.value| == |xs|
  {
    if xs == [] then Some([])
    else
      match (ToList(xs[0]), ListEach(xs[1..]))
      case (Some(x), Some(rest)) => Some([x] + rest)
      case _ => None
  }

  /**
    The inner guarded block: when `exec_outputs[0]` is a tuple, the rows are turned into lists
    and compared with `outputs[0]`. Any exception inside the block leaves `t` as it was.
   */
  function TupleRowsCheck(exec: PyValue, outputs: PyValue, t: bool): bool
  {
    match Subscript(exec, 0)
    case Some(PyTuple(_)) =>
      (match ListRows(exec)
       case None => t
       case Some(rows) =>
         t || (match Subscript(outputs, 0)
               case None => false
               case Some(first) => EqTruth(PyList(rows), first) == Some(true)))
    case _ => t
  }

  /**
    The comparison block for a returned value: a tuple becomes a list, then the value is
    compared with `outputs` and, when `outputs` is a non-empty list, with `outputs[0]`.
    `None` when an exception escapes the block, which the loop reports as a timeout.
   */
  function CbVerdict(returned: PyValue, outputs: PyValue): Option<bool>
  {
    var exec := if returned.PyTuple? then PyList(returned.items) else returned;
    match EqTruth(exec, outputs)
    case None => None
    case Some(t) =>
      var first :=
        if t || !(outputs.PyList? && outputs.items != []) then Some(t)
        else EqTruth(exec, outputs.items[0]);
      match first
      case None => None
      case Some(t') => Some(TupleRowsCheck(exec, outputs, t'))
  }

  /** The entry appended for a verdict. */
  function CbEntry(v: Option<bool>): TestResult
  {
    match v
    case None => TestResult(false, ExecutionResults(-1))
    case Some(true) => TestResult(true, ExecutionResults(1))
    case Some(false) => TestResult(false, ExecutionResults(0))
  }

  /** `n` copies of `x`. */
  function Repeat(x: TestResult, n: nat): (r: seq<TestResult>)
    ensures |r| == n && forall i :: 0 <= i < n ==> r[i] == x
  {
    if n == 0 then [] else [x] + Repeat(x, n - 1)
  }

  /** The entries `execute_cb_code` appends from test `index` on. */
  function CbResults(invoke: (nat, seq<PyValue>) -> CallOutcome, inputsList: seq<PyValue>, outputsList: seq<PyValue>,
                     earlyStop: bool, index: nat): seq<TestResult>
    requires |inputsList| == |outputsList| && index <= |inputsList|
    decreases |inputsList| - index
  {
    if index == |inputsList| then []
    else
      match CallWith(invoke, index, inputsList[index])
      case Raised =>
        if earlyStop then Repeat(TestResult(false, ExecutionResults(-2)), |inputsList| - index)
        else CbResults(invoke, inputsList, outputsList, earlyStop, index + 1)
      case Returned(v) =>
        [CbEntry(CbVerdict(v, outputsList[index]))] + CbResults(invoke, inputsList, outputsList, earlyStop, index + 1)
  }

  /** `execute_cb_code(method, inputs_list, outputs_list, timeout, early_stop)`: its list of results. */
  method ExecuteCbCode(invoke: (nat, seq<PyValue>) -> CallOutcome, inputsList: seq<PyValue>, outputsList: seq<PyValue>,
                       earlyStop: bool) returns (results: seq<TestResult>)
    requires |inputsList| == |outputsList|
    ensures results == CbResults(invoke, inputsList, outputsList, earlyStop, 0)
  {
    results := [];
    var index := 0;
    while index < |inputsList|
      invariant 0 <= index <= |inputsList|
      invariant results + CbResults(invoke, inputsList, outputsList, earlyStop, index)
                == CbResults(invoke, inputsList, outputsList, earlyStop, 0)
      decreases |inputsList| - index
    {
      var outputs := outputsList[index];
      var outcome := CallWith(invoke, index, inputsList[index]);
      if outcome.Raised? {
        if earlyStop {
          var runtimeError := TestResult(false, ExecutionResults(-2));
          ghost var done := results;
          for i := index to |inputsList|
            invariant results == done + Repeat(runtimeError, i - index)
          {
            results := results + [runtimeError];
            RepeatSnoc(runtimeError, i - index);
          }
          assert CbResults(invoke, inputsList, outputsList, earlyStop, index) == Repeat(runtimeError, |inputsList| - index);
          return;
        }
        assert CbResults(invoke, inputsList, outputsList, earlyStop, index) == CbResults(invoke, inputsList, outputsList, earlyStop, index + 1);
        index := index + 1;
        continue;
      }
      var verdict := CbVerdict(outcome.value, outputs);
      CbStep(invoke, inputsList, outputsList, earlyStop, index, results);
      results := results + [CbEntry(verdict)];
      index := index + 1;
    }
  }

  /** One returned value: its entry moves from the remaining results to the accumulated ones. */
  lemma CbStep(invoke: (nat, seq<PyValue>) -> CallOutcome, inputsList: seq<PyValue>, outputsList: seq<PyValue>,
               earlyStop: bool, index: nat, results: seq<TestResult>)
    requires |inputsList| == |outputsList| && index < |inputsList|
    requires CallWith(invoke, index, inputsList[index]).Returned?
    ensures var v := CallWith(invoke, index, inputsList[index]).value;
            results + CbResults(invoke, inputsList, outputsList, earlyStop, index)
            == results + [CbEntry(CbVerdict(v, outputsList[index]))] + CbResults(invoke, inputsList, outputsList, earlyStop, index + 1)
  {
    var v := CallWith(invoke, index, inputsList[index]).value;
    var e := CbEntry(CbVerdict(v, outputsList[index]));
    var rest := CbResults(invoke, inputsList, outputsList, earlyStop, index + 1);
    assert CbResults(invoke, inputsList, outputsList, earlyStop, index) == [e] + rest;
    assert results + ([e] + rest) == results + [e] + rest;
  }

  lemma {:induction false} RepeatSnoc(x: TestResult, n: nat)
    ensures Repeat(x, n) + [x] == Repeat(x, n + 1)
  {
    if n > 0 {
      RepeatSnoc(x, n - 1);
      assert [x] + Repeat(x, n - 1) + [x] == [x] + (Repeat(x, n - 1) + [x]);
    }
  }

  /** With early stop there is exactly one entry per test; without it, at most one. */
  lemma {:induction false} CbResultsLength(invoke: (nat, seq<PyValue>) -> CallOutcome, inputsList: seq<PyValue>,
                                           outputsList: seq<PyValue>, earlyStop: bool, index: nat)
    requires |inputsList| == |outputsList| && index <= |inputsList|
    ensures var r := CbResults(invoke, inputsList, outputsList, earlyStop, index);
            |r| <= |inputsList| - index && (earlyStop ==> |r| == |inputsList| - index)
    decreases |inputsList| - index
  {
    if index < |inputsList| {
      CbResultsLength(invoke, inputsList, outputsList, earlyStop, index + 1);
    }
  }

  /** Every entry is well formed: one of the four labels, passed exactly when labelled `"passed"`. */
  lemma {:induction false} CbResultsWellFormed(invoke: (nat, seq<PyValue>) -> CallOutcome, inputsList: seq<PyValue>,
                                               outputsList: seq<PyValue>, earlyStop: bool, index: nat)
    requires |inputsList| == |outputsList| && index <= |inputsList|
    ensures forall i :: 0 <= i < |CbResults(invoke, inputsList, outputsList, earlyStop, index)| ==>
              WellFormed(CbResults(invoke, inputsList, outputsList, earlyStop, index)[i])
    decreases |inputsList| - index
  {
    if index < |inputsList| {
      CbResultsWellFormed(invoke, inputsList, outputsList, earlyStop, index + 1);
      var r := CbResults(invoke, inputsList, outputsList, earlyStop, index);
      var rest := CbResults(invoke, inputsList, outputsList, earlyStop, index + 1);
      match CallWith(invoke, index, inputsList[index])
      case Raised =>
        var x := TestResult(false, ExecutionResults(-2));
        assert WellFormed(x);
        if earlyStop {
          var xs := Repeat(x, |inputsList| - index);
          assert r == xs;
          forall i | 0 <= i < |r| ensures WellFormed(r[i]) {
            assert r[i] == xs[i] == x;
          }
        } else {
          assert r == rest;
        }
      case Returned(v) =>
        var e := CbEntry(CbVerdict(v, outputsList[index]));
        assert WellFormed(e);
        assert r == [e] + rest;
        forall i | 0 <= i < |r| ensures WellFormed(r[i]) {
          if i == 0 { assert r[0] == e; } else { assert r[i] == rest[i - 1]; }
        }
    }
  }

  /**
    With early stop, entry `k` (counted from test `index`) is a runtime error exactly when the
    call of some test from `index` to `index + k` raised: the first exception fills the rest.
   */
  lemma {:induction false} CbRuntimeErrorFromFirstException(invoke: (nat, seq<PyValue>) -> CallOutcome, inputsList: seq<PyValue>,
                                                            outputsList: seq<PyValue>, index: nat, k: nat)
    requires |inputsList| == |outputsList| && index + k < |inputsList|
    ensures |CbResults(invoke, inputsList, outputsList, true, index)| == |inputsList| - index
    ensures CbResults(invoke, inputsList, outputsList, true, index)[k].status == "runtime_error"
            <==> exists j :: index <= j <= index + k && CallWith(invoke, j, inputsList[j]).Raised?
    decreases k
  {
    CbResultsLength(invoke, inputsList, outputsList, true, index);
    var r := CbResults(invoke, inputsList, outputsList, true, index);
    match CallWith(invoke, index, inputsList[index])
    case Raised =>
      assert r[k] == TestResult(false, "runtime_error");
    case Returned(v) =>
      var rest := CbResults(invoke, inputsList, outputsList, true, index + 1);
      assert r == [CbEntry(CbVerdict(v, outputsList[index]))] + rest;
      if k == 0 {
        assert r[0].status != "runtime_error";
      } else {
        CbRuntimeErrorFromFirstException(invoke, inputsList, outputsList, index + 1, k - 1);
        assert r[k] == rest[k - 1];
        if exists j :: index <= j <= index + k && CallWith(invoke, j, inputsList[j]).Raised? {
          var j :| index <= j <= index + k && CallWith(invoke, j, inputsList[j]).Raised?;
          assert j != index;
        }
      }
  }

  /** A plain value that is not a tuple passes against itself, and against a one-element list of itself. */
  lemma ReturnedExpectedPasses(v: PyValue)
    requires Plain(v) && !v.PyTuple?
    ensures CbVerdict(v, v) == Some(true)
    ensures CbVerdict(v, PyList([v])) == Some(true)
  {
    PyEqReflexive(v);
    assert Plain(PyList([v]));
    PyEqNoRaise(v, PyList([v]));
  }

  /** A returned tuple is compared as a list: a plain tuple passes against the list of its elements. */
  lemma ReturnedTupleComparedAsList(xs: seq<PyValue>)
    requires Plain(PyTuple(xs))
    ensures CbVerdict(PyTuple(xs), PyList(xs)) == Some(true)
  {
    PyEqReflexive(PyList(xs));
  }

  /** On plain values the comparison block never raises, so a timeout label needs an unusual value. */
  lemma PlainNeverTimesOut(v: PyValue, outputs: PyValue)
    requires Plain(v) && Plain(outputs)
    ensures CbVerdict(v, outputs).Some?
  {
    var exec := if v.PyTuple? then PyList(v.items) else v;
    assert Plain(exec);
    PyEqNoRaise(exec, outputs);
    if outputs.PyList? && outputs.items != [] {
      assert Plain(outputs.items[0]);
      PyEqNoRaise(exec, outputs.items[0]);
    }
  }

  /**
    A returned object with the default `==` (a `map` or generator object, an instance of a class
    of the candidate's own) fails against an expected output that is not that object: each
    comparison is false rather than raising, and subscripting the object raises inside the
    guarded block, so the entry is `"false"`, not `"timeout"`.
   */
  lemma ReturnedObjectFails(n: nat, outputs: PyValue)
    requires Plain(outputs) && outputs != PyObject(n)
    requires outputs.PyList? && outputs.items != [] ==> outputs.items[0] != PyObject(n)
    ensures CbVerdict(PyObject(n), outputs) == Some(false)
    ensures CbEntry(CbVerdict(PyObject(n), outputs)) == TestResult(false, ExecutionResults(0))
  {
    if outputs.PyList? && outputs.items != [] {
      assert Plain(outputs.items[0]);
    }
  }

  // ---------------------------------------------------------------------------------------
  // execute_std_code

  /** The outcome of `subprocess.run`: the captured output and exit status, a timeout, or another exception. */
  datatype RunOutcome = Completed(stdout: string, returnCode: int) | TimedOutRun | RunFailed

  /** `"\n".join([str(k) for k in xs])`. */
  function JoinStr(xs: seq<PyValue>, other: PyValue -> string): string
  {
    Join("\n", StrLines(xs, other))
  }

  /** `[str(k) for k in xs]`: one string per element, element `i` being `str(xs[i])`. */
  function StrLines(xs: seq<PyValue>, other: PyValue -> string): (r: seq<string>)
    ensures |r| == |xs|
    ensures forall i :: 0 <= i < |xs| ==> r[i] == StrOf(xs[i], other)
  {
    if xs == [] then [] else [StrOf(xs[0], other)] + StrLines(xs[1..], other)
  }

  /** The text written to the program's standard input: a list is joined line by line; a value that is not a `str` makes `write` raise. */
  function StdinText(inputs: PyValue, other: PyValue -> string): Option<string>
  {
    match inputs
    case PyList(xs) => Some(JoinStr(xs, other))
    case PyStr(s) => Some(s)
    case _ => None
  }

  /** The expected output as compared: a list is joined line by line; a value that is not a `str` makes the comparison raise. */
  function ExpectedText(outputs: PyValue, other: PyValue -> string): Option<string>
  {
    match outputs
    case PyList(xs) => Some(JoinStr(xs, other))
    case PyStr(s) => Some(s)
    case _ => None
  }

  /**
    `exec_code` after the comparison: 1 or 0 for a completed run, -1 for a timeout, -2 for another
    error; `None` when the comparison raises. `compare` is the comparison applied to the cleaned
    output and the expected text; `ExecuteStdCode` uses `compare_std_results`, that is
    `StdEquivalent`, and the properties of the loop that do not depend on it are stated for any.
   */
  function StdCode(outcome: RunOutcome, expected: Option<string>, compare: (string, string, FloatOps) -> bool, ops: FloatOps): Option<int>
  {
    match outcome
    case Completed(out, _) =>
      (match expected
       case None => None
       case Some(e) => Some(if compare(CleanStdout(out), e, ops) then 1 else 0))
    case TimedOutRun => Some(-1)
    case RunFailed => Some(-2)
  }

  /** The entry recorded for an execution code. */
  function StdEntry(code: int): TestResult
    requires -4 <= code <= 1
  {
    TestResult(code == 1, ExecutionResults(code))
  }

  /** `d + s` inside an option: `None` stays `None`. */
  function Prepend(d: seq<TestResult>, r: Option<seq<TestResult>>): Option<seq<TestResult>>
  {
    match r
    case None => None
    case Some(s) => Some(d + s)
  }

  /**
    The entries `execute_std_code` records from test `i` on, keyed by position; `None` when an
    exception escapes the loop (an input that is not a `str` or a list, or an expected output
    that is neither when the run completed).
   */
  function StdResults(run: (nat, string) -> RunOutcome, compare: (string, string, FloatOps) -> bool, ops: FloatOps, other: PyValue -> string,
                      inputsList: seq<PyValue>, outputsList: seq<PyValue>, earlyStop: bool, i: nat): Option<seq<TestResult>>
    requires |inputsList| == |outputsList| && i <= |inputsList|
    decreases |inputsList| - i
  {
    if i == |inputsList| then Some([])
    else
      var expected := ExpectedText(outputsList[i], other);
      match StdinText(inputsList[i], other)
      case None => None
      case Some(stdin) =>
        match StdCode(run(i, stdin), expected, compare, ops)
        case None => None
        case Some(code) =>
          if earlyStop && code <= 0 then Some([StdEntry(code)])
          else Prepend([StdEntry(code)], StdResults(run, compare, ops, other, inputsList, outputsList, earlyStop, i + 1))
  }

  /** The dict `{0: r[0], 1: r[1], ...}`. */
  function AsDict(r: seq<TestResult>): (d: map<nat, TestResult>)
    ensures forall i: nat :: i in d <==> i < |r|
    ensures forall i :: 0 <= i < |r| ==> d[i] == r[i]
  {
    map i | 0 <= i < |r| :: r[i]
  }

  /** `execute_std_code(method, synthesized_code, inputs_list, outputs_list, timeout, early_stop)`; `None` when it raises. */
  method ExecuteStdCode(run: (nat, string) -> RunOutcome, ops: FloatOps, other: PyValue -> string,
                        inputsList: seq<PyValue>, outputsList: seq<PyValue>, earlyStop: bool)
    returns (r: Option<map<nat, TestResult>>)
    requires |inputsList| == |outputsList|
    ensures var s := StdResults(run, StdEquivalent, ops, other, inputsList, outputsList, earlyStop, 0);
            r == (if s.Some? then Some(AsDict(s.value)) else None)
    ensures r.Some? ==> |r.value| <= |inputsList| && forall k: nat :: k in r.value <==> k < |r.value|
    ensures r.Some? && !earlyStop ==> |r.value| == |inputsList|
  {
    StdResultsLength(run, StdEquivalent, ops, other, inputsList, outputsList, earlyStop, 0);
    var total := StdResults(run, StdEquivalent, ops, other, inputsList, outputsList, earlyStop, 0);
    if total.Some? {
      AsDictSize(total.value);
    }
    var execResults: map<nat, TestResult> := map[];
    ghost var done: seq<TestResult> := [];
    PrependNothing(StdResults(run, StdEquivalent, ops, other, inputsList, outputsList, earlyStop, 0));
    var i := 0;
    while i < |inputsList|
      invariant 0 <= i <= |inputsList| && |done| == i
      invariant execResults == AsDict(done)
      invariant StdResults(run, StdEquivalent, ops, other, inputsList, outputsList, earlyStop, 0)
                == Prepend(done, StdResults(run, StdEquivalent, ops, other, inputsList, outputsList, earlyStop, i))
      decreases |inputsList| - i
    {
      var inputs, outputs := inputsList[i], outputsList[i];
      var expected := ExpectedText(outputs, other);
      var stdin := StdinText(inputs, other);
      if stdin.None? {
        StdStopsOnBadInput(run, StdEquivalent, ops, other, inputsList, outputsList, earlyStop, i);
        return None;
      }
      var outcome := run(i, stdin.value);
      var code := ExecCode(outcome, expected, ops);
      if code.None? {
        StdStopsOnBadOutput(run, StdEquivalent, ops, other, inputsList, outputsList, earlyStop, i, stdin.value);
        return None;
      }
      var execCode := code.value;
      StdStep(run, StdEquivalent, ops, other, inputsList, outputsList, earlyStop, i, stdin.value, execCode);
      var entry := TestResult(execCode == 1, ExecutionResults(execCode));
      execResults := execResults[i := entry];
      AsDictSnoc(done, entry);
      if earlyStop && execCode <= 0 {
        done := done + [entry];
        PrependLast(done);
        return Some(execResults);
      }
      PrependStep(done, entry, StdResults(run, StdEquivalent, ops, other, inputsList, outputsList, earlyStop, i + 1));
      done := done + [entry];
      i := i + 1;
    }
    PrependLast(done);
    r := Some(execResults);
  }

  /**
    The body of the loop after the run: the output is cleaned and, for a completed run, compared
    with the expected text; `None` when that comparison raises.
   */
  method ExecCode(outcome: RunOutcome, expected: Option<string>, ops: FloatOps) returns (code: Option<int>)
    ensures code == StdCode(outcome, expected, StdEquivalent, ops)
  {
    var execCode: int;
    var stdout := "";
    match outcome {
      case Completed(out, _) => stdout, execCode := out, 999;
      case TimedOutRun => execCode := -1;
      case RunFailed => execCode := -2;
    }
    stdout := CleanStdout(stdout);
    if execCode > 0 {
      if expected.None? {
        return None;
      }
      var same := CompareStdResults(stdout, expected.value, ops);
      execCode := if same then 1 else 0;
    }
    assert execCode != -3;
    code := Some(execCode);
  }

  /** An input that cannot be written ends the loop with an exception. */
  lemma StdStopsOnBadInput(run: (nat, string) -> RunOutcome, compare: (string, string, FloatOps) -> bool, ops: FloatOps, other: PyValue -> string,
                           inputsList: seq<PyValue>, outputsList: seq<PyValue>, earlyStop: bool, i: nat)
    requires |inputsList| == |outputsList| && i < |inputsList|
    requires StdinText(inputsList[i], other).None?
    ensures StdResults(run, compare, ops, other, inputsList, outputsList, earlyStop, i).None?
  {
  }

  /** A comparison that raises (an expected output that is neither a `str` nor a list) ends the loop with an exception. */
  lemma StdStopsOnBadOutput(run: (nat, string) -> RunOutcome, compare: (string, string, FloatOps) -> bool, ops: FloatOps, other: PyValue -> string,
                            inputsList: seq<PyValue>, outputsList: seq<PyValue>, earlyStop: bool, i: nat, stdin: string)
    requires |inputsList| == |outputsList| && i < |inputsList|
    requires StdinText(inputsList[i], other) == Some(stdin)
    requires StdCode(run(i, stdin), ExpectedText(outputsList[i], other), compare, ops).None?
    ensures StdResults(run, compare, ops, other, inputsList, outputsList, earlyStop, i).None?
  {
  }

  /** One recorded test, in the shape the loop takes it. */
  lemma StdStep(run: (nat, string) -> RunOutcome, compare: (string, string, FloatOps) -> bool, ops: FloatOps, other: PyValue -> string,
                inputsList: seq<PyValue>, outputsList: seq<PyValue>, earlyStop: bool, i: nat, stdin: string, code: int)
    requires |inputsList| == |outputsList| && i < |inputsList|
    requires StdinText(inputsList[i], other) == Some(stdin)
    requires StdCode(run(i, stdin), ExpectedText(outputsList[i], other), compare, ops) == Some(code)
    ensures -4 <= code <= 1
    ensures StdResults(run, compare, ops, other, inputsList, outputsList, earlyStop, i)
            == if earlyStop && code <= 0 then Some([StdEntry(code)])
               else Prepend([StdEntry(code)], StdResults(run, compare, ops, other, inputsList, outputsList, earlyStop, i + 1))
  {
    StdCodeRange(run(i, stdin), ExpectedText(outputsList[i], other), compare, ops);
  }

  /**
    The three ways test `i` can go: an exception escapes (`None`), or the test records the
    entry for `code`, after which the loop stops (early stop and no pass) or goes on.
   */
  lemma StdCases(run: (nat, string) -> RunOutcome, compare: (string, string, FloatOps) -> bool, ops: FloatOps, other: PyValue -> string,
                 inputsList: seq<PyValue>, outputsList: seq<PyValue>, earlyStop: bool, i: nat)
    returns (code: Option<int>)
    requires |inputsList| == |outputsList| && i < |inputsList|
    ensures code.None? ==> StdResults(run, compare, ops, other, inputsList, outputsList, earlyStop, i).None?
    ensures code.Some? ==>
              (code.value == 1 || code.value == 0 || code.value == -1 || code.value == -2)
              && StdResults(run, compare, ops, other, inputsList, outputsList, earlyStop, i)
                 == if earlyStop && code.value <= 0 then Some([StdEntry(code.value)])
                    else Prepend([StdEntry(code.value)], StdResults(run, compare, ops, other, inputsList, outputsList, earlyStop, i + 1))
  {
    var expected := ExpectedText(outputsList[i], other);
    match StdinText(inputsList[i], other)
    case None =>
      code := None;
    case Some(stdin) =>
      StdCodeRange(run(i, stdin), expected, compare, ops);
      code := StdCode(run(i, stdin), expected, compare, ops);
  }

  /** The accumulated entries are everything once the rest is empty. */
  lemma PrependLast(d: seq<TestResult>)
    ensures Prepend(d, Some([])) == Some(d)
  {
    assert d + [] == d;
  }

  lemma PrependNothing(r: Option<seq<TestResult>>)
    ensures Prepend([], r) == r
  {
    if r.Some? {
      assert [] + r.value == r.value;
    }
  }

  lemma PrependStep(d: seq<TestResult>, e: TestResult, r: Option<seq<TestResult>>)
    ensures Prepend(d, Prepend([e], r)) == Prepend(d + [e], r)
  {
    if r.Some? {
      assert d + ([e] + r.value) == d + [e] + r.value;
    }
  }

  lemma AsDictSnoc(d: seq<TestResult>, e: TestResult)
    ensures AsDict(d)[|d| := e] == AsDict(d + [e])
  {
  }

  /** A dict built by `AsDict` has as many entries as the sequence. */
  lemma {:induction false} AsDictSize(r: seq<TestResult>)
    ensures |AsDict(r)| == |r|
    decreases |r|
  {
    if r != [] {
      var init := r[..|r| - 1];
      AsDictSize(init);
      AsDictSnoc(init, r[|r| - 1]);
      assert init + [r[|r| - 1]] == r;
      assert |init| !in AsDict(init);
    }
  }

  /** The execution code of a test is one of 1, 0, -1 and -2, and 1 only for a completed run. */
  lemma StdCodeRange(outcome: RunOutcome, expected: Option<string>, compare: (string, string, FloatOps) -> bool, ops: FloatOps)
    ensures var c := StdCode(outcome, expected, compare, ops);
            c.Some? ==> (c.value == 1 || c.value == 0 || c.value == -1 || c.value == -2)
                        && (c.value >= 0 <==> outcome.Completed?)
  {
  }

  /** At most one entry per test, each well formed: one of the four labels, passed exactly when labelled `"passed"`. */
  lemma {:induction false} StdResultsWellFormed(run: (nat, string) -> RunOutcome, compare: (string, string, FloatOps) -> bool, ops: FloatOps, other: PyValue -> string,
                                                inputsList: seq<PyValue>, outputsList: seq<PyValue>, earlyStop: bool, i: nat)
    requires |inputsList| == |outputsList| && i <= |inputsList|
    ensures StdResults(run, compare, ops, other, inputsList, outputsList, earlyStop, i).Some? ==>
              AllWellFormed(StdResults(run, compare, ops, other, inputsList, outputsList, earlyStop, i).value, |inputsList| - i)
    decreases |inputsList| - i
  {
    if i < |inputsList| {
      StdResultsWellFormed(run, compare, ops, other, inputsList, outputsList, earlyStop, i + 1);
      var code := StdCases(run, compare, ops, other, inputsList, outputsList, earlyStop, i);
      if code.Some? {
        var e := StdEntry(code.value);
        assert WellFormed(e);
        var rest := StdResults(run, compare, ops, other, inputsList, outputsList, earlyStop, i + 1);
        if !(earlyStop && code.value <= 0) && rest.Some? {
          AllWellFormedCons(e, rest.value, |inputsList| - i - 1);
        }
      }
    }
  }

  /** The loop records at most one entry per test, and one for every test when it does not stop early. */
  lemma {:induction false} StdResultsLength(run: (nat, string) -> RunOutcome, compare: (string, string, FloatOps) -> bool, ops: FloatOps, other: PyValue -> string,
                                            inputsList: seq<PyValue>, outputsList: seq<PyValue>, earlyStop: bool, i: nat)
    requires |inputsList| == |outputsList| && i <= |inputsList|
    ensures StdResults(run, compare, ops, other, inputsList, outputsList, earlyStop, i).Some? ==>
              |StdResults(run, compare, ops, other, inputsList, outputsList, earlyStop, i).value| <= |inputsList| - i
    ensures StdResults(run, compare, ops, other, inputsList, outputsList, false, i).Some? ==>
              |StdResults(run, compare, ops, other, inputsList, outputsList, false, i).value| == |inputsList| - i
    decreases |inputsList| - i
  {
    if i < |inputsList| {
      StdResultsLength(run, compare, ops, other, inputsList, outputsList, earlyStop, i + 1);
      var code := StdCases(run, compare, ops, other, inputsList, outputsList, earlyStop, i);
      var codeNoStop := StdCases(run, compare, ops, other, inputsList, outputsList, false, i);
    }
  }

  /** At most `n` entries, each well formed. */
  predicate AllWellFormed(s: seq<TestResult>, n: nat) {
    |s| <= n && forall j :: 0 <= j < |s| ==> WellFormed(s[j])
  }

  lemma AllWellFormedCons(e: TestResult, s: seq<TestResult>, n: nat)
    requires WellFormed(e) && AllWellFormed(s, n)
    ensures AllWellFormed([e] + s, n + 1)
  {
    var r := [e] + s;
    forall j | 0 <= j < |r| ensures WellFormed(r[j]) {
      if j == 0 { assert r[0] == e; } else { assert r[j] == s[j - 1]; }
    }
  }

  /**
    With early stop, every entry but the last passed, and results that stop before the last
    test end with a failure: the loop breaks after the first test that does not pass.
   */
  lemma {:induction false} StdResultsStopAtFirstFailure(run: (nat, string) -> RunOutcome, compare: (string, string, FloatOps) -> bool, ops: FloatOps, other: PyValue -> string,
                                                        inputsList: seq<PyValue>, outputsList: seq<PyValue>, i: nat)
    requires |inputsList| == |outputsList| && i <= |inputsList|
    ensures StdResults(run, compare, ops, other, inputsList, outputsList, true, i).Some? ==>
              StopsAtFirstFailure(StdResults(run, compare, ops, other, inputsList, outputsList, true, i).value, |inputsList| - i)
    decreases |inputsList| - i
  {
    if i < |inputsList| {
      StdResultsStopAtFirstFailure(run, compare, ops, other, inputsList, outputsList, i + 1);
      var code := StdCases(run, compare, ops, other, inputsList, outputsList, true, i);
      if code.Some? {
        var e := StdEntry(code.value);
        var rest := StdResults(run, compare, ops, other, inputsList, outputsList, true, i + 1);
        if code.value > 0 && rest.Some? {
          StopsAtFirstFailureCons(e, rest.value, |inputsList| - i - 1);
        }
      }
    }
  }

  /** Every entry but the last passed, and results shorter than `n` end with a failure. */
  predicate StopsAtFirstFailure(s: seq<TestResult>, n: nat) {
    (forall j :: 0 <= j < |s| - 1 ==> s[j].passed) && (|s| < n ==> s != [] && !s[|s| - 1].passed)
  }

  lemma StopsAtFirstFailureCons(e: TestResult, s: seq<TestResult>, n: nat)
    requires e.passed && StopsAtFirstFailure(s, n)
    ensures StopsAtFirstFailure([e] + s, n + 1)
  {
    var r := [e] + s;
    forall j | 0 <= j < |r| - 1 ensures r[j].passed {
      if j > 0 { assert r[j] == s[j - 1]; }
    }
    if s != [] {
      assert r[|r| - 1] == s[|s| - 1];
    }
  }

  /** Two runs that differ only in their exit statuses give the same results: the status never reaches a label. */
  lemma {:induction false} StdIgnoresReturnCode(run1: (nat, string) -> RunOutcome, run2: (nat, string) -> RunOutcome,
                                                compare: (string, string, FloatOps) -> bool, ops: FloatOps, other: PyValue -> string,
                                                inputsList: seq<PyValue>, outputsList: seq<PyValue>, earlyStop: bool, i: nat)
    requires |inputsList| == |outputsList| && i <= |inputsList|
    requires forall n, s :: SameUpToReturnCode(run1(n, s), run2(n, s))
    ensures StdResults(run1, compare, ops, other, inputsList, outputsList, earlyStop, i)
            == StdResults(run2, compare, ops, other, inputsList, outputsList, earlyStop, i)
    decreases |inputsList| - i
  {
    if i < |inputsList| {
      StdIgnoresReturnCode(run1, run2, compare, ops, other, inputsList, outputsList, earlyStop, i + 1);
      match StdinText(inputsList[i], other)
      case None =>
      case Some(stdin) =>
        assert SameUpToReturnCode(run1(i, stdin), run2(i, stdin));
        var expected := ExpectedText(outputsList[i], other);
        assert StdCode(run1(i, stdin), expected, compare, ops) == StdCode(run2(i, stdin), expected, compare, ops);
    }
  }

  /** Equal outcomes but for the exit status of a completed run. */
  predicate SameUpToReturnCode(a: RunOutcome, b: RunOutcome) {
    match (a, b)
    case (Completed(x, _), Completed(y, _)) => x == y
    case _ => a == b
  }

  /** A program that prints the expected text, followed by any number of newlines, passes that test. */
  lemma ExactOutputPasses(e: string, t: string, rc: int, ops: FloatOps)
    requires forall i :: 0 <= i < |t| ==> t[i] == '\n'
    ensures StdCode(Completed(e + t, rc), Some(e), StdEquivalent, ops) == Some(1)
  {
    var out := e + t;
    var c := CleanStdout(out);
    CleanStdoutRemovesTrailingNewlines(out);
    var tail := out[|c|..];
    assert out == c + tail;
    NewlinesDoNotStrip(e, t);
    NewlinesDoNotStrip(c, tail);
    assert Strip(c) == Strip(e);
    StrippedCompareReflexive([], e, [], ops);
    assert [] + e + [] == e;
    assert StrippedCompare(c, e, ops);
  }

  /** Trailing newlines make no difference once a text is stripped. */
  lemma NewlinesDoNotStrip(x: string, t: string)
    requires forall i :: 0 <= i < |t| ==> t[i] == '\n'
    ensures Strip(x + t) == Strip(x)
  {
    assert AllSpace(t);
    StripSurroundingSpace([], x, t);
    assert [] + x + t == x + t;
  }
}
