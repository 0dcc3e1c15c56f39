/**
  `run_test` in rllm/rewards/code_utils/taco.py: it reads the test specification, builds the
  lists of test inputs and expected outputs, synthesises and loads the candidate program, runs
  the tests through `execute_cb_code` or `execute_std_code`, and turns the labels into the list
  of verdicts the reward code reads. Everything that evaluates Python is a field of `Runtime`.
 */
module Harness {
  import opened Wrappers
  import opened PyText
  import opened PyValues
  import opened Normalize
  import opened Synthesis
  import opened Equivalence
  import opened Execution

  /** A module loaded by `RuntimeModule.from_string` (or the `Solution()` instance made from it). */
  datatype Module = Module(id: nat)

  /** The callable `getattr` returns. */
  datatype Callable = Callable(id: nat)

  /**
    The parts of the Python runtime `run_test` relies on:
    `ast.literal_eval` (`None` for a `ValueError` or `SyntaxError`), `int(k)` on a dict key,
    loading a program text (the flag asks for a `Solution()` instance; `None` when loading or
    instantiating raises), `getattr` (`None` when it raises), calling a loaded function on the
    arguments of a test, running a program text in a subprocess, `str()` of values the model
    does not print itself, and the floating-point operations of the output comparison.
   */
  datatype Runtime = Runtime(
    literalEval: string -> Option<PyValue>,
    parseInt: string -> Option<int>,
    load: (string, bool) -> Option<Module>,
    getAttr: (Module, string) -> Option<Callable>,
    invoke: Callable -> (nat, seq<PyValue>) -> CallOutcome,
    run: string -> (nat, string) -> RunOutcome,
    other: PyValue -> string,
    ops: FloatOps)

  /** One element of the list `run_test` returns: `True`, `False` or an integer code. */
  datatype Verdict = Pass | Fail | Code(code: int)

  // ---------------------------------------------------------------------------------------
  // Reading the specification

  /** What `in_outs` turns into: a parse error (`[]` is returned), an escaping exception, or a usable dict. */
  datatype LoadedSpec = ParseError | SpecRaises | TestDict(entries: seq<Entry>)

  /**
    A string is parsed with `literal_eval` and must give a dict (the assertion is not caught).
    Only a non-empty dict gets past `if in_outs:` and the `in_outs["inputs"]` lookup; anything
    else makes `.get`, the subscript or the lookup raise.
   */
  function LoadSpec(inOuts: PyValue, literalEval: string -> Option<PyValue>): LoadedSpec
  {
    var v := match inOuts
      case PyStr(s) => literalEval(s)
      case _ => Some(inOuts);
    match v
    case None => ParseError
    case Some(PyDict(es)) => if es == [] then SpecRaises else TestDict(es)
    case Some(_) => SpecRaises
  }

  /** The kind of problem: standard input, or call-based with the given method name. */
  datatype Kind = StandardInput | CallBased(methodName: PyValue)

  /** `in_outs.get("fn_name")`: missing or `None` means standard input; `None` here when the lookup raises. */
  function KindOf(es: seq<Entry>): Option<Kind>
  {
    match Find(es, PyStr("fn_name"))
    case LookupRaised => None
    case Miss => Some(StandardInput)
    case Hit(v) => if v == PyNone then Some(StandardInput) else Some(CallBased(v))
  }

  /**
    The lists the loop over `in_outs["inputs"]` builds from its first `|ins|` tests, each pair
    passed through `process_input_output`; `outputs` is `in_outs["outputs"]` (`None` when that
    lookup raises). `None` when the loop raises.
   */
  function TestLists(ins: seq<PyValue>, outputs: Option<PyValue>, parseInt: string -> Option<int>)
    : (r: Option<(seq<PyValue>, seq<PyValue>)>)
    ensures r.Some? ==> |r.value.0| == |ins| && |r.value.1| == |ins|
    decreases |ins|
  {
    if ins == [] then Some(([], []))
    else
      match TestLists(ins[..|ins| - 1], outputs, parseInt)
      case None => None
      case Some((a, b)) =>
        match outputs
        case None => None
        case Some(outs) =>
          match Subscript(outs, |ins| - 1)
          case None => None
          case Some(o) =>
            var p := ProcessInputOutput(ins[|ins| - 1], o, parseInt);
            Some((a + [p.0], b + [p.1]))
  }

  /** The loop over `enumerate(in_outs["inputs"])`. */
  method BuildTestLists(ins: seq<PyValue>, outputs: Option<PyValue>, parseInt: string -> Option<int>)
    returns (r: Option<(seq<PyValue>, seq<PyValue>)>)
    ensures r == TestLists(ins, outputs, parseInt)
  {
    var inputsList: seq<PyValue> := [];
    var outputsList: seq<PyValue> := [];
    var index := 0;
    while index < |ins|
      invariant 0 <= index <= |ins|
      invariant TestLists(ins[..index], outputs, parseInt) == Some((inputsList, outputsList))
      decreases |ins| - index
    {
      assert ins[..index + 1][..index] == ins[..index];
      if outputs.None? {
        TestListsStaysFailed(ins, outputs, parseInt, index + 1);
        return None;
      }
      var o := Subscript(outputs.value, index);
      if o.None? {
        TestListsStaysFailed(ins, outputs, parseInt, index + 1);
        return None;
      }
      var p := ProcessInputOutput(ins[index], o.value, parseInt);
      inputsList := inputsList + [p.0];
      outputsList := outputsList + [p.1];
      index := index + 1;
    }
    assert ins[..index] == ins;
    r := Some((inputsList, outputsList));
  }

  /** Once a prefix of the tests fails, the whole loop fails. */
  lemma {:induction false} TestListsStaysFailed(ins: seq<PyValue>, outputs: Option<PyValue>, parseInt: string -> Option<int>, k: nat)
    requires k <= |ins| && TestLists(ins[..k], outputs, parseInt).None?
    ensures TestLists(ins, outputs, parseInt).None?
    decreases |ins| - k
  {
    if k < |ins| {
      var next := ins[..k + 1];
      assert next[..|next| - 1] == ins[..k];
      assert TestLists(next, outputs, parseInt).None?;
      TestListsStaysFailed(ins, outputs, parseInt, k + 1);
    } else {
      assert ins[..k] == ins;
    }
  }

  /** The test lists are built exactly when every test has an expected output; an empty input list looks nothing up. */
  lemma TestListsBuilt(ins: seq<PyValue>, outputs: Option<PyValue>, parseInt: string -> Option<int>)
    ensures TestLists(ins, outputs, parseInt).Some?
            <==> ins == [] || (outputs.Some? && forall i :: 0 <= i < |ins| ==> Subscript(outputs.value, i).Some?)
  {
    if TestLists(ins, outputs, parseInt).Some? {
      TestListsPairs(ins, outputs, parseInt);
    } else if ins == [] || (outputs.Some? && forall i :: 0 <= i < |ins| ==> Subscript(outputs.value, i).Some?) {
      TestListsFound(ins, outputs, parseInt);
    }
  }

  lemma {:induction false} TestListsFound(ins: seq<PyValue>, outputs: Option<PyValue>, parseInt: string -> Option<int>)
    requires ins == [] || (outputs.Some? && forall i :: 0 <= i < |ins| ==> Subscript(outputs.value, i).Some?)
    ensures TestLists(ins, outputs, parseInt).Some?
    decreases |ins|
  {
    if ins != [] {
      var n := |ins| - 1;
      var init := ins[..n];
      assert forall i :: 0 <= i < |init| ==> Subscript(outputs.value, i).Some?;
      TestListsFound(init, outputs, parseInt);
      assert Subscript(outputs.value, n).Some?;
    }
  }

  /** Pair `i` of the lists is `process_input_output(inputs[i], outputs[i])`. */
  lemma {:induction false} TestListsPairs(ins: seq<PyValue>, outputs: Option<PyValue>, parseInt: string -> Option<int>)
    requires TestLists(ins, outputs, parseInt).Some?
    ensures outputs.Some? || ins == []
    ensures forall i :: 0 <= i < |ins| ==>
              Subscript(outputs.value, i).Some?
              && (TestLists(ins, outputs, parseInt).value.0[i], TestLists(ins, outputs, parseInt).value.1[i])
                 == ProcessInputOutput(ins[i], Subscript(outputs.value, i).value, parseInt)
    decreases |ins|
  {
    if ins != [] {
      var n := |ins| - 1;
      var init := ins[..n];
      TestListsPairs(init, outputs, parseInt);
      var a := TestLists(init, outputs, parseInt).value;
      var r := TestLists(ins, outputs, parseInt).value;
      forall i | 0 <= i < n
        ensures Subscript(outputs.value, i).Some?
                && (r.0[i], r.1[i]) == ProcessInputOutput(ins[i], Subscript(outputs.value, i).value, parseInt)
      {
        assert init[i] == ins[i];
        assert r.0[i] == a.0[i] && r.1[i] == a.1[i];
      }
    }
  }

  /** The problem read from a usable dict: its kind and its two equally long test lists. */
  datatype Problem = Problem(kind: Kind, inputsList: seq<PyValue>, outputsList: seq<PyValue>)

  /** Lines 88-101: the kind, then the test lists; `None` when a lookup or the iteration raises. */
  function ProblemOf(es: seq<Entry>, parseInt: string -> Option<int>): (r: Option<Problem>)
    ensures r.Some? ==> |r.value.inputsList| == |r.value.outputsList|
  {
    match (KindOf(es), GetStr(es, "inputs"))
    case (Some(kind), Some(insValue)) =>
      (match Iterate(insValue)
       case None => None
       case Some(ins) =>
         match TestLists(ins, GetStr(es, "outputs"), parseInt)
         case None => None
         case Some((a, b)) => Some(Problem(kind, a, b)))
    case _ => None
  }

  // ---------------------------------------------------------------------------------------
  // Loading the candidate

  /** What `compile_and_get_func` gives: `False`, an escaping exception, or the callable. */
  datatype Candidate = CompileFailed | CompileRaises | Loaded(f: Callable)

  /**
    `compile_and_get_func(program, which_type, method_name)`: load the program (a call-based
    program that mentions `class Solution` is instantiated), then look up the method name, or
    `"code"` for standard input. A call-based method name that is not a `str` fails the
    assertion between the two steps, which is not caught.
   */
  function CompileAndGetFunc(program: string, kind: Kind, rt: Runtime): Candidate
  {
    match rt.load(program, kind.CallBased? && Contains(program, "class Solution"))
    case None => CompileFailed
    case Some(m) =>
      match kind
      case CallBased(PyStr(name)) => (match rt.getAttr(m, name) case None => CompileFailed case Some(f) => Loaded(f))
      case CallBased(_) => CompileRaises
      case StandardInput => (match rt.getAttr(m, "code") case None => CompileFailed case Some(f) => Loaded(f))
  }

  /** The program `run_test` loads: the call-based program, or `sol` for standard input. */
  function ProgramOf(kind: Kind, source: string): string
  {
    if kind.CallBased? then SynthesizeCbCode(source) else SolOf(source)
  }

  // ---------------------------------------------------------------------------------------
  // Turning results into verdicts

  /** Lines 134-142: `"passed"` is `True`, `"false"` is `False`, `"timeout"` is -1, any other label is -3. */
  function VerdictOf(r: TestResult): Verdict
  {
    if r.status == "passed" then Pass
    else if r.status == "false" then Fail
    else if r.status == "timeout" then Code(-1)
    else Code(-3)
  }

  function Verdicts(rs: seq<TestResult>): (vs: seq<Verdict>)
    ensures |vs| == |rs| && forall i :: 0 <= i < |rs| ==> vs[i] == VerdictOf(rs[i])
  {
    seq(|rs|, i requires 0 <= i < |rs| => VerdictOf(rs[i]))
  }

  /** The verdicts a test can get once the candidate ran. */
  predicate Reported(v: Verdict) {
    v == Pass || v == Fail || v == Code(-1) || v == Code(-3)
  }

  /**
    For a well-formed entry the verdict is `True` exactly when the test passed, `False` exactly
    for a wrong answer, -1 exactly for a timeout and -3 exactly for a runtime error.
   */
  lemma VerdictOfLabels(r: TestResult)
    requires WellFormed(r)
    ensures Reported(VerdictOf(r))
    ensures VerdictOf(r) == Pass <==> r.passed
    ensures VerdictOf(r) == Fail <==> r.status == "false"
    ensures VerdictOf(r) == Code(-1) <==> r.status == "timeout"
    ensures VerdictOf(r) == Code(-3) <==> r.status == "runtime_error"
  {
  }

  /**
    The loop over `detail_results.items()`, whose keys are `0 .. n - 1` in insertion order:
    one verdict per entry, in key order.
   */
  method MapLabels(detailResults: map<nat, TestResult>) returns (results: seq<Verdict>)
    requires forall i: nat :: i in detailResults <==> i < |detailResults|
    ensures |results| == |detailResults|
    ensures forall i :: 0 <= i < |detailResults| ==> results[i] == VerdictOf(detailResults[i])
  {
    results := [];
    var testId := 0;
    while testId < |detailResults|
      invariant 0 <= testId <= |detailResults| && |results| == testId
      invariant forall i :: 0 <= i < testId ==> results[i] == VerdictOf(detailResults[i])
      decreases |detailResults| - testId
    {
      var testResult := detailResults[testId];
      var v: Verdict;
      if testResult.status == "passed" {
        v := Pass;
      } else if testResult.status == "false" {
        v := Fail;
      } else if testResult.status == "timeout" {
        v := Code(-1);
      } else {
        v := Code(-3);
      }
      results := results + [v];
      testId := testId + 1;
    }
  }

  /** The values of `detail_results` in order, for a list of results: broadcast when it has one element, then cut to `n` by `zip`. */
  function Aligned(rs: seq<TestResult>, n: nat): seq<TestResult>
  {
    var b := if |rs| == 1 then Repeat(rs[0], n) else rs;
    if |b| <= n then b else b[..n]
  }

  /** A one-element result list becomes `n` copies of its element; any other list is cut to at most `n` entries. */
  lemma AlignedSpec(rs: seq<TestResult>, n: nat)
    ensures |rs| == 1 ==> Aligned(rs, n) == Repeat(rs[0], n)
    ensures |rs| != 1 ==> |Aligned(rs, n)| == (if |rs| <= n then |rs| else n)
                          && forall i :: 0 <= i < |Aligned(rs, n)| ==> Aligned(rs, n)[i] == rs[i]
  {
  }

  /** `set(detail_results.values()) == {(False, "returncode:1")}`. */
  predicate RetryWanted(s: seq<TestResult>) {
    |s| > 0 && forall i :: 0 <= i < |s| ==> s[i] == TestResult(false, "returncode:1")
  }

  /** The same test on the dict the loop returns. */
  predicate RetryWantedDict(d: map<nat, TestResult>) {
    |d| > 0 && forall i :: i in d ==> d[i] == TestResult(false, "returncode:1")
  }

  lemma RetryWantedAsDict(s: seq<TestResult>)
    ensures RetryWantedDict(AsDict(s)) <==> RetryWanted(s)
  {
    AsDictSize(s);
  }

  // ---------------------------------------------------------------------------------------
  // run_test

  /** Lines 121-122 and 132-133: the call-based results, aligned with the tests and turned into verdicts. */
  function CbStage(invoke: (nat, seq<PyValue>) -> CallOutcome, inputsList: seq<PyValue>, outputsList: seq<PyValue>): seq<Verdict>
    requires |inputsList| == |outputsList|
  {
    Verdicts(Aligned(CbResults(invoke, inputsList, outputsList, true, 0), |inputsList|))
  }

  /**
    Lines 123-129 and 134-142: the standard-input results of `sol2` (with the retry on `sol`
    followed by a call of `code()` when every label is `"returncode:1"`) turned into verdicts.
   */
  function StdStage(run: string -> (nat, string) -> RunOutcome, compare: (string, string, FloatOps) -> bool, ops: FloatOps, other: PyValue -> string,
                    sol: string, sol2: string, inputsList: seq<PyValue>, outputsList: seq<PyValue>): Option<seq<Verdict>>
    requires |inputsList| == |outputsList|
  {
    match StdResults(run(sol2), compare, ops, other, inputsList, outputsList, true, 0)
    case None => None
    case Some(s) =>
      if RetryWanted(s) then
        match StdResults(run(sol + "\ncode()\n"), compare, ops, other, inputsList, outputsList, true, 0)
        case None => None
        case Some(s2) => Some(Verdicts(s2))
      else Some(Verdicts(s))
  }

  /**
    `run_test(in_outs, test)`: the list of verdicts, or `None` when an exception escapes.
    `baseImports` is `BASE_IMPORTS`, put in front of the candidate.
   */
  function RunTestSpec(inOuts: PyValue, test: string, baseImports: string, rt: Runtime): Option<seq<Verdict>>
  {
    match LoadSpec(inOuts, rt.literalEval)
    case ParseError => Some([])
    case SpecRaises => None
    case TestDict(es) =>
      match ProblemOf(es, rt.parseInt)
      case None => None
      case Some(p) =>
        var source := baseImports + "\n" + test;
        match CompileAndGetFunc(ProgramOf(p.kind, source), p.kind, rt)
        case CompileFailed => Some([Code(-2)])
        case CompileRaises => None
        case Loaded(f) =>
          if p.kind.CallBased? then Some(CbStage(rt.invoke(f), p.inputsList, p.outputsList))
          else StdStage(rt.run, StdEquivalent, rt.ops, rt.other, SolOf(source), Sol2Of(source), p.inputsList, p.outputsList)
  }

  /** The call-based branch once the candidate is loaded: lines 121-122 and 130-142. */
  method RunCb(invoke: (nat, seq<PyValue>) -> CallOutcome, inputsList: seq<PyValue>, outputsList: seq<PyValue>)
    returns (results: seq<Verdict>)
    requires |inputsList| == |outputsList|
    ensures results == CbStage(invoke, inputsList, outputsList)
  {
    var detailResults := ExecuteCbCode(invoke, inputsList, outputsList, true);
    var aligned := Aligned(detailResults, |inputsList|);
    AsDictSize(aligned);
    results := MapLabels(AsDict(aligned));
    assert results == Verdicts(aligned);
  }

  /**
    The standard-input branch once the candidate is loaded: lines 123-129 and 134-142. The retry
    synthesises the same programs again; `sol` is reused for it.
   */
  method RunStd(run: string -> (nat, string) -> RunOutcome, ops: FloatOps, other: PyValue -> string,
                sol: string, sol2: string, inputsList: seq<PyValue>, outputsList: seq<PyValue>)
    returns (r: Option<seq<Verdict>>)
    requires |inputsList| == |outputsList|
    ensures r == StdStage(run, StdEquivalent, ops, other, sol, sol2, inputsList, outputsList)
  {
    ghost var s := StdResults(run(sol2), StdEquivalent, ops, other, inputsList, outputsList, true, 0);
    var detailResults := ExecuteStdCode(run(sol2), ops, other, inputsList, outputsList, true);
    if detailResults.None? {
      return None;
    }
    RetryWantedAsDict(s.value);
    if RetryWantedDict(detailResults.value) {
      s := StdResults(run(sol + "\ncode()\n"), StdEquivalent, ops, other, inputsList, outputsList, true, 0);
      detailResults := ExecuteStdCode(run(sol + "\ncode()\n"), ops, other, inputsList, outputsList, true);
      if detailResults.None? {
        return None;
      }
    }
    AsDictSize(s.value);
    var results := MapLabels(detailResults.value);
    assert results == Verdicts(s.value);
    r := Some(results);
  }

  /** `run_test`, step by step, calling the loops of the model. */
  method RunTest(inOuts: PyValue, test: string, baseImports: string, rt: Runtime) returns (r: Option<seq<Verdict>>)
    ensures r == RunTestSpec(inOuts, test, baseImports, rt)
  {
    var source := baseImports + "\n" + test;
    var spec := LoadSpec(inOuts, rt.literalEval);
    if spec.ParseError? {
      return Some([]);
    } else if spec.SpecRaises? {
      return None;
    }
    var es := spec.entries;
    var kind := KindOf(es);
    var insValue := GetStr(es, "inputs");
    if kind.None? || insValue.None? {
      return None;
    }
    var ins := Iterate(insValue.value);
    if ins.None? {
      return None;
    }
    var lists := BuildTestLists(ins.value, GetStr(es, "outputs"), rt.parseInt);
    if lists.None? {
      return None;
    }
    var inputsList, outputsList := lists.value.0, lists.value.1;
    assert ProblemOf(es, rt.parseInt) == Some(Problem(kind.value, inputsList, outputsList));
    var synthesizedCode, execCode := "", "";
    if kind.value.CallBased? {
      synthesizedCode := SynthesizeCbCode(source);
    } else {
      synthesizedCode, execCode := SynthesizeStdCode(source);
    }
    var methodFunc := CompileAndGetFunc(synthesizedCode, kind.value, rt);
    if methodFunc.CompileFailed? {
      return Some([Code(-2)]);
    } else if methodFunc.CompileRaises? {
      return None;
    }
    if kind.value.CallBased? {
      var results := RunCb(rt.invoke(methodFunc.f), inputsList, outputsList);
      r := Some(results);
    } else {
      r := RunStd(rt.run, rt.ops, rt.other, synthesizedCode, execCode, inputsList, outputsList);
    }
  }

  // ---------------------------------------------------------------------------------------
  // Properties

  /**
    A string specification `literal_eval` rejects gives `[]`; one that evaluates to anything but
    a non-empty dict, like any non-string that is not a non-empty dict, raises.
   */
  lemma LoadSpecCases(inOuts: PyValue, literalEval: string -> Option<PyValue>)
    ensures LoadSpec(inOuts, literalEval) == ParseError <==> inOuts.PyStr? && literalEval(inOuts.s).None?
    ensures LoadSpec(inOuts, literalEval).TestDict? <==>
              if inOuts.PyStr? then literalEval(inOuts.s).Some? && literalEval(inOuts.s).value.PyDict?
                                    && literalEval(inOuts.s).value.entries != []
              else inOuts.PyDict? && inOuts.entries != []
    ensures LoadSpec(inOuts, literalEval).TestDict? && !inOuts.PyStr? ==> LoadSpec(inOuts, literalEval).entries == inOuts.entries
  {
  }

  /** An unparseable specification string makes `run_test` return `[]`, whatever the candidate. */
  lemma UnparseableSpecGivesEmpty(s: string, test: string, baseImports: string, rt: Runtime)
    requires rt.literalEval(s).None?
    ensures RunTestSpec(PyStr(s), test, baseImports, rt) == Some([])
  {
  }

  /**
    Loading fails (`False`) exactly when loading the program raises or `getattr` raises; a
    call-based method name that is not a `str` raises once the program loaded.
   */
  lemma CompileAndGetFuncCases(program: string, kind: Kind, rt: Runtime)
    ensures CompileAndGetFunc(program, kind, rt) == CompileFailed <==>
              rt.load(program, kind.CallBased? && Contains(program, "class Solution")).None?
              || (kind.StandardInput? && rt.getAttr(rt.load(program, false).value, "code").None?)
              || (kind.CallBased? && kind.methodName.PyStr?
                  && rt.getAttr(rt.load(program, Contains(program, "class Solution")).value, kind.methodName.s).None?)
    ensures CompileAndGetFunc(program, kind, rt) == CompileRaises <==>
              rt.load(program, kind.CallBased? && Contains(program, "class Solution")).Some?
              && kind.CallBased? && !kind.methodName.PyStr?
  {
  }

  /** A candidate that fails to load gives the single verdict -2, not one per test. */
  lemma CompileFailureGivesMinusTwo(inOuts: PyValue, test: string, baseImports: string, rt: Runtime, p: Problem)
    requires LoadSpec(inOuts, rt.literalEval).TestDict?
    requires ProblemOf(LoadSpec(inOuts, rt.literalEval).entries, rt.parseInt) == Some(p)
    requires CompileAndGetFunc(ProgramOf(p.kind, baseImports + "\n" + test), p.kind, rt) == CompileFailed
    ensures RunTestSpec(inOuts, test, baseImports, rt) == Some([Code(-2)])
  {
  }

  /** The labels the standard-input loop produces never include `"returncode:1"`, so the retry never runs. */
  lemma RetryNeverFires(run: (nat, string) -> RunOutcome, compare: (string, string, FloatOps) -> bool, ops: FloatOps,
                        other: PyValue -> string, inputsList: seq<PyValue>, outputsList: seq<PyValue>)
    requires |inputsList| == |outputsList|
    ensures StdResults(run, compare, ops, other, inputsList, outputsList, true, 0).Some? ==>
              !RetryWanted(StdResults(run, compare, ops, other, inputsList, outputsList, true, 0).value)
  {
    StdResultsWellFormed(run, compare, ops, other, inputsList, outputsList, true, 0);
    var s := StdResults(run, compare, ops, other, inputsList, outputsList, true, 0);
    if s.Some? && s.value != [] {
      assert WellFormed(s.value[0]);
    }
  }

  /** The standard-input branch is the verdicts of a single run of `sol2`. */
  lemma StdStageRunsOnce(run: string -> (nat, string) -> RunOutcome, compare: (string, string, FloatOps) -> bool, ops: FloatOps, other: PyValue -> string,
                         sol: string, sol2: string, inputsList: seq<PyValue>, outputsList: seq<PyValue>)
    requires |inputsList| == |outputsList|
    ensures StdStage(run, compare, ops, other, sol, sol2, inputsList, outputsList)
            == match StdResults(run(sol2), compare, ops, other, inputsList, outputsList, true, 0)
               case None => None
               case Some(s) => Some(Verdicts(s))
  {
    RetryNeverFires(run(sol2), compare, ops, other, inputsList, outputsList);
  }

  /**
    Verdicts that stop at the first failure: at most `n`, each one the loop can report; every
    verdict but the last is `True`, and fewer than `n` verdicts end with one that is not `True`.
   */
  predicate StopsAtFirstFailedVerdict(vs: seq<Verdict>, n: nat) {
    |vs| <= n
    && (forall j :: 0 <= j < |vs| ==> Reported(vs[j]))
    && (forall j :: 0 <= j < |vs| - 1 ==> vs[j] == Pass)
    && (|vs| < n ==> vs != [] && vs[|vs| - 1] != Pass)
  }

  /** Well-formed entries that stop at the first failure give verdicts that do. */
  lemma VerdictsStopAtFirstFailure(s: seq<TestResult>, n: nat)
    requires AllWellFormed(s, n) && StopsAtFirstFailure(s, n)
    ensures StopsAtFirstFailedVerdict(Verdicts(s), n)
  {
    var vs := Verdicts(s);
    forall j | 0 <= j < |vs| ensures Reported(vs[j]) && (vs[j] == Pass <==> s[j].passed) {
      VerdictOfLabels(s[j]);
    }
  }

  /** Standard input: the verdicts stop at the first test that does not pass. */
  lemma StdStageStopsAtFirstFailure(run: string -> (nat, string) -> RunOutcome, compare: (string, string, FloatOps) -> bool, ops: FloatOps, other: PyValue -> string,
                                    sol: string, sol2: string, inputsList: seq<PyValue>, outputsList: seq<PyValue>)
    requires |inputsList| == |outputsList|
    ensures StdStage(run, compare, ops, other, sol, sol2, inputsList, outputsList).Some? ==>
              StopsAtFirstFailedVerdict(StdStage(run, compare, ops, other, sol, sol2, inputsList, outputsList).value, |inputsList|)
  {
    StdStageRunsOnce(run, compare, ops, other, sol, sol2, inputsList, outputsList);
    var s := StdResults(run(sol2), compare, ops, other, inputsList, outputsList, true, 0);
    if s.Some? {
      StdResultsWellFormed(run(sol2), compare, ops, other, inputsList, outputsList, true, 0);
      StdResultsStopAtFirstFailure(run(sol2), compare, ops, other, inputsList, outputsList, 0);
      VerdictsStopAtFirstFailure(s.value, |inputsList|);
    }
  }

  /**
    Call-based: exactly one verdict per test, each one the loop can report; verdict `i` is `True`
    exactly when test `i` passed, and -3 exactly when the call of some test up to `i` raised.
   */
  lemma CbStageOnePerTest(invoke: (nat, seq<PyValue>) -> CallOutcome, inputsList: seq<PyValue>, outputsList: seq<PyValue>)
    requires |inputsList| == |outputsList|
    ensures |CbResults(invoke, inputsList, outputsList, true, 0)| == |inputsList|
    ensures |CbStage(invoke, inputsList, outputsList)| == |inputsList|
    ensures forall i :: 0 <= i < |inputsList| ==>
              var v := CbStage(invoke, inputsList, outputsList)[i];
              Reported(v)
              && (v == Pass <==> CbResults(invoke, inputsList, outputsList, true, 0)[i].passed)
              && (v == Code(-3) <==> exists j :: 0 <= j <= i && CallWith(invoke, j, inputsList[j]).Raised?)
  {
    var rs := CbResults(invoke, inputsList, outputsList, true, 0);
    CbResultsLength(invoke, inputsList, outputsList, true, 0);
    CbResultsWellFormed(invoke, inputsList, outputsList, true, 0);
    AlignedSpec(rs, |inputsList|);
    assert Aligned(rs, |inputsList|) == rs by {
      if |rs| == 1 {
        assert Repeat(rs[0], 1) == rs;
      }
    }
    forall i | 0 <= i < |inputsList|
      ensures var v := CbStage(invoke, inputsList, outputsList)[i];
              Reported(v)
              && (v == Pass <==> rs[i].passed)
              && (v == Code(-3) <==> exists j :: 0 <= j <= i && CallWith(invoke, j, inputsList[j]).Raised?)
    {
      VerdictOfLabels(rs[i]);
      CbRuntimeErrorFromFirstException(invoke, inputsList, outputsList, 0, i);
    }
  }

  /**
    What `run_test` returns, when it returns: the single verdict -2 for a candidate that did not
    load, or otherwise only `True`, `False`, -1 and -3.
   */
  lemma RunTestVerdicts(inOuts: PyValue, test: string, baseImports: string, rt: Runtime)
    ensures var r := RunTestSpec(inOuts, test, baseImports, rt);
            r.Some? ==> r.value == [Code(-2)] || forall i :: 0 <= i < |r.value| ==> Reported(r.value[i])
  {
    if LoadSpec(inOuts, rt.literalEval).TestDict? {
      var es := LoadSpec(inOuts, rt.literalEval).entries;
      if ProblemOf(es, rt.parseInt).Some? {
        var p := ProblemOf(es, rt.parseInt).value;
        var source := baseImports + "\n" + test;
        match CompileAndGetFunc(ProgramOf(p.kind, source), p.kind, rt)
        case CompileFailed =>
        case CompileRaises =>
        case Loaded(f) =>
          if p.kind.CallBased? {
            CbStageOnePerTest(rt.invoke(f), p.inputsList, p.outputsList);
          } else {
            StdStageStopsAtFirstFailure(rt.run, StdEquivalent, rt.ops, rt.other, SolOf(source), Sol2Of(source), p.inputsList, p.outputsList);
          }
      }
    }
  }
}
