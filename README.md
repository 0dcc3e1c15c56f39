# TACO/APPS code-test harness and DeepScaler preprocessing, in Dafny

This project models the test harness that rllm uses to score code written by a model on
TACO/APPS-style problems (rllm/rewards/code_utils/taco.py), and the per-example preprocessing of
the DeepScaler math dataset (scripts/data/deepscaler_dataset.py). It also proves properties of
both.

A TACO problem comes with a test specification `in_outs`: a dict with `inputs`, `outputs` and,
for call-based problems, `fn_name`. `run_test` reads this specification and restores the
integer keys that JSON turned into strings (`process_input_output`). It then synthesises the
program to load: an import header in front of the candidate, or, for standard-input problems,
the two programs `sol` (code wrapped in `def code():`) and `sol2` (the flat script that is
run). Next it loads the function to call (`compile_and_get_func`) and runs every test: it calls
the function (`execute_cb_code`) or runs `sol2` in a subprocess and compares the output
(`execute_std_code`, `clean_stdout`, `compare_std_results`, `stripped_string_compare`).
Finally it turns the labels into the list of verdicts the reward reads: `True`, `False`, -1,
-2 or -3.

Modules, in dependency order:

- `Wrappers`: `Option`.
- `PyText`: the Python `str` operations the harness uses, on `seq<char>`: `strip`, `lstrip`, `rstrip`, `rstrip(c)`, `split(c)`, `split()`, `join`, `in`, `startswith`, `str(int)`.
- `PyValues`: Python values (`None`, bool, int, float, str, list, tuple, dict in insertion order, an object compared by identity such as a `map` object or an instance of the candidate's own class, and an object whose `==` raises). Containers compare their items by identity first, as Python does, for the two object kinds (the only values that carry an identity here). Also Python's `==` with exceptions, `v[i]` and `d[k]`, iteration, and `str()`.
- `Normalize`: `process_input_output`.
- `Synthesis`: `synthesize_cb_code` and `synthesize_std_code`. The latter is a method with its two loops, proved against the functions `SolOf` and `Sol2Of`.
- `Equivalence`: `stripped_string_compare`, `compare_std_results` for two strings (a method proved against the predicate `StdEquivalent`), and `clean_stdout`.
- `Execution`: the result loops of `execute_cb_code` and `execute_std_code`. Each is a method proved against a recursive function (`CbResults`, `StdResults`).
- `Harness`: `run_test`. It is a method proved against `RunTestSpec`, and built from the loop that builds the test lists, the loading step, the two execution stages and the label-to-verdict loop.
- `Deepscaler`: `process_fn`. It is a method on an `Example` object whose field map it pops. The per-split loop is modelled too.

Everything that evaluates Python is a parameter: a field of `Harness.Runtime`, or of
`Equivalence.FloatOps` for the floating-point operations. These are `ast.literal_eval`,
`int(k)` on a dict key, loading a program text, `getattr`, calling the loaded function,
running a program in a subprocess, `str()` of floats and containers, `float(s)`,
`np.isclose`, `np.allclose` and `round(x, 3)`. The properties are proved for every choice of
these operations. Each exception that the code catches becomes a branch of the model. An
exception that escapes `run_test` becomes the result `None`.

Behaviour of the code worth noting:

- A candidate that fails to load gives the single verdict `[-2]`. It is not repeated once per test (taco.py:117-119).
- `execute_std_code` never produces the label `"returncode:1"`, because the assertion at taco.py:431 rules code -3 out. So the retry at taco.py:127-129 never runs (`Harness.RetryNeverFires`, `Harness.StdStageRunsOnce`).
- A call that raises is labelled `"runtime_error"`, and `run_test` reports every label other than `passed`, `false` and `timeout` as -3. So a runtime error is -3, not -2 (taco.py:141-142).
- `stripped_string_compare` ignores differing tokens that do not both parse as floats. For example, `"YES"` against `"NO"` is accepted (taco.py:622-631, `Equivalence.NonNumericMismatchIgnored`).

## Model

| member | source | states |
|---|---|---|
| PyText.LStripSpec | rllm/rewards/code_utils/taco.py:587-588 | `lstrip()` removes exactly the leading run of Python whitespace: the result is a suffix, starts with a non-space, and everything removed is space |
| PyText.RStripSpec | rllm/rewards/code_utils/taco.py:587-588 | `rstrip()` removes exactly the trailing run of whitespace: the result is a prefix ending in a non-space, and everything removed is space |
| PyText.StripSpec | rllm/rewards/code_utils/taco.py:587-588 | `s.lstrip().rstrip()` is empty or starts and ends with a non-space |
| PyText.StripSurroundingSpace | rllm/rewards/code_utils/taco.py:587-588 | whitespace added on either side of a string does not change its stripped form |
| PyText.StripIdempotent | rllm/rewards/code_utils/taco.py:605-606 | stripping twice is stripping once |
| PyText.RStripCharSpec | rllm/rewards/code_utils/taco.py:353-354 | `rstrip(c)` removes exactly the trailing run of `c` |
| PyText.RStripCharIdempotent | rllm/rewards/code_utils/taco.py:353-354 | `rstrip(c)` applied twice is applied once |
| PyText.Split | rllm/rewards/code_utils/taco.py:218 | `split(c)` gives at least one piece, and no piece contains `c` |
| PyText.JoinSplit | rllm/rewards/code_utils/taco.py:218 | joining the pieces of `split(c)` with `c` gives back the string |
| PyText.SplitJoin | rllm/rewards/code_utils/taco.py:603-604 | splitting a join of `c`-free pieces gives back the pieces |
| PyText.SplitWsWords | rllm/rewards/code_utils/taco.py:614-615 | every element of `split()` is a non-empty run of non-space characters |
| PyText.SplitWsEmpty | rllm/rewards/code_utils/taco.py:614-619 | `split()` is empty exactly when the string is all whitespace |
| PyText.SplitWsWordThen | rllm/rewards/code_utils/taco.py:614-615 | `split()` of a word followed by whitespace-led text is that word, then the split of the rest |
| PyText.IntToDecimalRoundTrip | rllm/rewards/code_utils/taco.py:370 | `str(i)` is the canonical decimal form of `i`: reading its digits back gives `i`; a minus sign exactly when `i` is negative; no leading zero unless `i` is 0 |
| PyValues.PyEqNoRaise | rllm/rewards/code_utils/taco.py:319 | `==` between values built from literals and identity-compared objects (no NaN, no object whose `==` raises) never raises |
| PyValues.PyEqReflexive | rllm/rewards/code_utils/taco.py:319 | such a value is equal to itself |
| PyValues.SameItemsEqual | rllm/rewards/code_utils/taco.py:319-321 | a list or tuple equals itself even when it holds objects whose own `==` raises, because items are compared by identity first |
| PyValues.FindNoRaise | rllm/rewards/code_utils/taco.py:89 | looking a literal key up in a literal dict never raises, and a hit is a literal value |
| PyValues.FindOwnKey | rllm/rewards/code_utils/taco.py:94 | looking up a key of a dict with unequal keys finds that key's own value |
| Normalize.Trunc | rllm/rewards/code_utils/taco.py:150 | `int(x)` on a float truncates toward zero, for both signs |
| Normalize.SetIntKeyNew | rllm/rewards/code_utils/taco.py:150 | a new integer key is appended at the end of the dict being built |
| Normalize.SetIntKeyIntKeyed | rllm/rewards/code_utils/taco.py:150 | assigning an int key keeps the dict's keys distinct integers and adds only that key |
| Normalize.ConvertIntoIntKeyed | rllm/rewards/code_utils/taco.py:150 | a completed conversion is a dict of distinct integer keys |
| Normalize.ConvertIntoFails | rllm/rewards/code_utils/taco.py:148-152 | the conversion raises exactly when some key's `int()` raises |
| Normalize.ConvertIntoInjective | rllm/rewards/code_utils/taco.py:150 | when the keys convert to distinct integers, the result is the entries with converted keys, in order |
| Normalize.ConvertKeysOfIntKeyed | rllm/rewards/code_utils/taco.py:150 | a dict already keyed by distinct integers converts to itself |
| Normalize.InputsRehydrated | rllm/rewards/code_utils/taco.py:148-150 | when `inputs[0]` is a dict whose keys convert injectively, the inputs become `[{int(k): v}]` |
| Normalize.InputsRehydratedIntKeyed | rllm/rewards/code_utils/taco.py:148-150 | when every key of `inputs[0]` converts, the inputs become a one-element list of an int-keyed dict |
| Normalize.InputsKeptOnFailure | rllm/rewards/code_utils/taco.py:148-152 | when some key of `inputs[0]` does not convert, the inputs are returned unchanged |
| Normalize.BareDictOutputWrapped | rllm/rewards/code_utils/taco.py:154-158 | a dict output whose keys convert injectively becomes `[{int(k): v}]` |
| Normalize.RehydrateShape | rllm/rewards/code_utils/taco.py:148-164 | each normalisation step either returns its input or a one-element list of an int-keyed dict |
| Normalize.NormalizeInputsShape | rllm/rewards/code_utils/taco.py:148-152 | the inputs come back unchanged or wrapped as a one-element list of an int-keyed dict |
| Normalize.WrappedFixed | rllm/rewards/code_utils/taco.py:146-166 | a wrapped value is left as it is by both the input and the output step |
| Normalize.ProcessIdempotent | rllm/rewards/code_utils/taco.py:146-166 | `process_input_output` applied to its own result changes nothing |
| Synthesis.LineTypeCases | rllm/rewards/code_utils/taco.py:222-228 | type 2 exactly for lines containing `import *`; type 1 exactly for the other lines that start with `from ` or `import `; type 0 for the rest |
| Synthesis.IndentedImportIsCode | rllm/rewards/code_utils/taco.py:225-228 | an indented `import` line (without `import *`) is classified as code |
| Synthesis.ClassifyLines | rllm/rewards/code_utils/taco.py:220-228 | the classification loop computes the code types of all the lines |
| Synthesis.CodeStart | rllm/rewards/code_utils/taco.py:235-247 | the first code line: every line before it is an import, and it is code |
| Synthesis.SynthesizeStdCode | rllm/rewards/code_utils/taco.py:210-259 | the method computes exactly `SolOf(raw)` and `Sol2Of(raw)` |
| Synthesis.AssemblePrograms | rllm/rewards/code_utils/taco.py:235-253 | the assembly loop builds `sol` with the code wrapped in `def code():`, the `import *` lines hoisted and later lines tab-indented, and `sol2` with the header inserted before the first code line |
| Synthesis.Sol2InsertsHeaderOnce | rllm/rewards/code_utils/taco.py:235-249 | `sol2` is the candidate's lines, each ending in a newline, with the import header and `stdin`/`stdout` lines inserted once, just before the first code line (not at all when there is none) |
| Synthesis.SolWithoutCode | rllm/rewards/code_utils/taco.py:248-253 | a candidate with no code line gives a `sol` holding only its non-`import *` lines, with no header and no `def code():` |
| Synthesis.LinesOfSplit | rllm/rewards/code_utils/taco.py:218 | re-joining the lines of the candidate, each with a newline, gives the candidate plus a newline |
| Synthesis.KeptAndWildcardsPartition | rllm/rewards/code_utils/taco.py:232-253 | every line goes either to the kept lines of `sol` or to the `import *` lines, never both |
| Synthesis.KeptAndWildcardsOfOne | rllm/rewards/code_utils/taco.py:232-253 | a single line goes to the body of `sol` when its type is below 2, and tab-stripped to the hoisted imports when its type is 2 |
| Synthesis.KeptAppend | rllm/rewards/code_utils/taco.py:250-253 | the body of `sol` keeps the candidate's order: the kept lines of two consecutive blocks are those of the first followed by those of the second |
| Synthesis.WildcardsAppend | rllm/rewards/code_utils/taco.py:232 | the hoisted imports keep the candidate's order in the same way |
| Synthesis.KeptFromCandidate | rllm/rewards/code_utils/taco.py:250-253 | a line is in the body of `sol` iff it is a line of the candidate whose type is below 2 |
| Synthesis.WildcardsFromCandidate | rllm/rewards/code_utils/taco.py:232 | a line is among the hoisted imports iff it is the tab-stripped form of a type-2 line of the candidate |
| Synthesis.CbCodeKeepsCandidate | rllm/rewards/code_utils/taco.py:202-207 | the call-based program is the import header followed by the candidate, unchanged |
| Equivalence.NonEmptyMembers | rllm/rewards/code_utils/taco.py:608-609 | the filter keeps exactly the non-empty strings of the list |
| Equivalence.NonEmptyAppend | rllm/rewards/code_utils/taco.py:608-609 | the filter keeps the order: filtering two lists one after the other is filtering their concatenation |
| Equivalence.NonEmptyKeepsAll | rllm/rewards/code_utils/taco.py:608-609 | the filter keeps a list of non-empty strings whole |
| Equivalence.TokensAreWords | rllm/rewards/code_utils/taco.py:614-619 | stripping and filtering the tokens of `split()` gives back `split()` |
| Equivalence.TokensAgreeAll | rllm/rewards/code_utils/taco.py:622-631 | the token loop accepts exactly when every token pair agrees |
| Equivalence.LinesAgreeAll | rllm/rewards/code_utils/taco.py:613-632 | the line loop accepts exactly when every line pair has equally many tokens, all agreeing |
| Equivalence.StrippedCompareCharacterised | rllm/rewards/code_utils/taco.py:586-632 | `stripped_string_compare` holds iff the stripped strings are equal; or both parse as floats and are close; or neither-both-floats and the non-blank lines match in number and, token by token, agree |
| Equivalence.StrippedCompareIgnoresSurroundingSpace | rllm/rewards/code_utils/taco.py:587-588 | whitespace around either argument does not change the answer |
| Equivalence.StrippedCompareReflexive | rllm/rewards/code_utils/taco.py:587-591 | an output equal to the expected one up to surrounding whitespace is accepted |
| Equivalence.StrippedCompareSymmetric | rllm/rewards/code_utils/taco.py:586-632 | for a symmetric `isclose`, the comparison is symmetric |
| Equivalence.LineCountMismatchFails | rllm/rewards/code_utils/taco.py:610-611 | different numbers of non-blank lines are rejected (unless the texts are equal or both floats) |
| Equivalence.NonNumericMismatchIgnored | rllm/rewards/code_utils/taco.py:622-631 | `"YES"` is accepted against `"NO"` |
| Equivalence.OneWordMismatchIgnored | rllm/rewards/code_utils/taco.py:622-631 | any two single words that are not both floats are accepted against each other |
| Equivalence.ParseAll | rllm/rewards/code_utils/taco.py:527-528 | `[float(x) for x in xs]` succeeds iff every element parses, and then holds the parsed values |
| Equivalence.CompareStdResults | rllm/rewards/code_utils/taco.py:458-583 | the method returns exactly `StdEquivalent`: the stripped comparison, the float check, the set check or the rounded set check |
| Equivalence.StdEquivalentAcceptsExact | rllm/rewards/code_utils/taco.py:458-460 | an output equal to the expected one up to surrounding whitespace passes, whatever the float operations |
| Equivalence.WordSetsMatchIgnoresWordOrder | rllm/rewards/code_utils/taco.py:564-568 | the set check depends only on the set of words of the program output |
| Equivalence.WordSetsMatchCompareCharacters | rllm/rewards/code_utils/taco.py:558-568 | the set check compares character sets of output words with word sets of expected lines: output `"ab ba"` matches expected `"a b"` |
| Equivalence.CleanStdoutRemovesTrailingNewlines | rllm/rewards/code_utils/taco.py:353-354 | `clean_stdout` removes exactly the trailing newlines |
| Equivalence.CleanStdoutIdempotent | rllm/rewards/code_utils/taco.py:353-354 | cleaning twice is cleaning once |
| Equivalence.CleanStdoutDropsAddedNewlines | rllm/rewards/code_utils/taco.py:353-354 | newlines appended to a text that does not end in one are all removed |
| Execution.Repeat | rllm/rewards/code_utils/taco.py:309-310 | `n` copies of the entry |
| Execution.ExecuteCbCode | rllm/rewards/code_utils/taco.py:288-343 | the call loop computes exactly `CbResults` |
| Execution.CbResultsLength | rllm/rewards/code_utils/taco.py:293-313 | at most one entry per test, and exactly one per test with early stop |
| Execution.CbResultsWellFormed | rllm/rewards/code_utils/taco.py:310-337 | every entry has a known label, and `passed` is true exactly for `"passed"` |
| Execution.CbRuntimeErrorFromFirstException | rllm/rewards/code_utils/taco.py:303-311 | with early stop, entry `k` is `"runtime_error"` iff some call at or before test `k` raised |
| Execution.ReturnedExpectedPasses | rllm/rewards/code_utils/taco.py:319-321 | a returned literal equal to the expected output, or to its only element, passes |
| Execution.ReturnedTupleComparedAsList | rllm/rewards/code_utils/taco.py:316-319 | a returned tuple passes against the list of the same elements |
| Execution.PlainNeverTimesOut | rllm/rewards/code_utils/taco.py:314-337 | comparing such values never raises, so the `"timeout"` label needs a value whose `==` raises |
| Execution.ReturnedObjectFails | rllm/rewards/code_utils/taco.py:314-333 | a returned object with the default `==` (a `map` or generator object, an instance of the candidate's class) gets `"false"`, not `"timeout"`, against an expected output from the specification |
| Execution.StrLines | rllm/rewards/code_utils/taco.py:369-374 | `[str(k) for k in xs]` has one string per element, element `i` being `str(xs[i])` |
| Execution.ExecuteStdCode | rllm/rewards/code_utils/taco.py:357-440 | the run loop computes exactly `StdResults`, as a dict keyed by exactly the positions 0..n-1, with n at most the number of tests and equal to it without early stop; or it raises |
| Execution.StdResultsLength | rllm/rewards/code_utils/taco.py:366-439 | the loop records at most one entry per test, and one for every test when it does not stop early |
| Execution.AsDictSize | rllm/rewards/code_utils/taco.py:432 | the dict of n results has n entries |
| Execution.ExecCode | rllm/rewards/code_utils/taco.py:381-405 | the exit code of one run: 1 or 0 by `compare_std_results` for a completed run, -1 for a timeout, -2 for another error, raising when the expected output is not text |
| Execution.StdStopsOnBadInput | rllm/rewards/code_utils/taco.py:369-376 | an input that is neither a list nor a `str` makes the loop raise |
| Execution.StdStopsOnBadOutput | rllm/rewards/code_utils/taco.py:401-402 | an exception in the comparison makes the loop raise |
| Execution.StdStep | rllm/rewards/code_utils/taco.py:431-439 | one test's entry is recorded; with early stop a code of 0 or below ends the loop |
| Execution.StdCases | rllm/rewards/code_utils/taco.py:381-439 | every completed step has code 1, 0, -1 or -2 |
| Execution.StdCodeRange | rllm/rewards/code_utils/taco.py:381-405 | the code is 1, 0, -1 or -2, and is at least 0 exactly when the run completed |
| Execution.StdResultsWellFormed | rllm/rewards/code_utils/taco.py:431-432 | at most one entry per test, each with a known label and `passed` exactly for `"passed"` |
| Execution.StdResultsStopAtFirstFailure | rllm/rewards/code_utils/taco.py:438-439 | with early stop every entry but the last passed, and if fewer entries than tests, the last one failed |
| Execution.StdIgnoresReturnCode | rllm/rewards/code_utils/taco.py:384-387 | the results do not depend on the subprocess's return code |
| Execution.ExactOutputPasses | rllm/rewards/code_utils/taco.py:399-403 | a run that prints the expected text followed by newlines passes, whatever its return code |
| Execution.NewlinesDoNotStrip | rllm/rewards/code_utils/taco.py:353-354 | trailing newlines disappear under stripping too |
| Harness.TestLists | rllm/rewards/code_utils/taco.py:95-101 | the lists have one element per test |
| Harness.BuildTestLists | rllm/rewards/code_utils/taco.py:95-101 | the loop computes exactly `TestLists` |
| Harness.TestListsBuilt | rllm/rewards/code_utils/taco.py:97-98 | the loop completes iff there are no tests or `outputs[i]` exists for every test |
| Harness.TestListsPairs | rllm/rewards/code_utils/taco.py:97-101 | element `i` of the two lists is `process_input_output(inputs[i], outputs[i])` |
| Harness.ProblemOf | rllm/rewards/code_utils/taco.py:88-101 | a problem read from the spec has as many expected outputs as inputs |
| Harness.CompileAndGetFuncCases | rllm/rewards/code_utils/taco.py:169-199 | loading fails iff the program fails to load (a call-based one instantiated when it mentions `class Solution`) or `getattr` of the method name, or of `code`, fails; a non-`str` method name raises |
| Harness.VerdictOfLabels | rllm/rewards/code_utils/taco.py:134-142 | `True` iff passed, `False` iff `"false"`, -1 iff `"timeout"`, -3 iff `"runtime_error"` |
| Harness.MapLabels | rllm/rewards/code_utils/taco.py:134-142 | the loop gives one verdict per entry of the dict, in key order |
| Harness.AlignedSpec | rllm/rewards/code_utils/taco.py:130-133 | a single result is broadcast to every test; any other list is cut to the number of tests by `zip` |
| Harness.RetryWantedAsDict | rllm/rewards/code_utils/taco.py:127 | the retry test on the dict agrees with the test on the list of results |
| Harness.RunCb | rllm/rewards/code_utils/taco.py:121-142 | the call-based stage computes exactly `CbStage` |
| Harness.RunStd | rllm/rewards/code_utils/taco.py:123-142 | the standard-input stage computes exactly `StdStage` |
| Harness.RunTest | rllm/rewards/code_utils/taco.py:75-143 | `run_test` computes exactly `RunTestSpec` |
| Harness.LoadSpecCases | rllm/rewards/code_utils/taco.py:80-94 | a parse error iff a string spec fails `literal_eval`; a usable spec iff the (evaluated) spec is a non-empty dict, kept as given when not a string |
| Harness.UnparseableSpecGivesEmpty | rllm/rewards/code_utils/taco.py:81-87 | an unparseable spec string gives `[]`, whatever the candidate |
| Harness.CompileFailureGivesMinusTwo | rllm/rewards/code_utils/taco.py:117-119 | a candidate that fails to load gives exactly `[-2]` |
| Harness.RetryNeverFires | rllm/rewards/code_utils/taco.py:127-129 | the results never all read `"returncode:1"` (line 431 rules code -3 out), so the retry is never taken |
| Harness.StdStageRunsOnce | rllm/rewards/code_utils/taco.py:124-129 | the standard-input verdicts are those of the one run of `sol2` |
| Harness.VerdictsStopAtFirstFailure | rllm/rewards/code_utils/taco.py:134-142 | well-formed results that stop at the first failure give verdicts that are all `True` but the last, which is not `True` when the run stopped early |
| Harness.StdStageStopsAtFirstFailure | rllm/rewards/code_utils/taco.py:123-142 | standard-input verdicts are reported codes, all `True` before the last, and stop early only after a failure |
| Harness.CbStageOnePerTest | rllm/rewards/code_utils/taco.py:122-142 | call-based problems get exactly one verdict per test: `True` iff that test passed, -3 iff some call at or before it raised |
| Harness.RunTestVerdicts | rllm/rewards/code_utils/taco.py:75-143 | `run_test` returns `[-2]` or a list of `True`, `False`, -1 and -3 only |
| Deepscaler.ProcessFn | scripts/data/deepscaler_dataset.py:45-66 | the record built from the example's problem and answer is returned; both are popped from the example, nothing else changes, and a missing key leaves the pops done so far |
| Deepscaler.PromptIsQuestionAndInstruction | scripts/data/deepscaler_dataset.py:48-55 | the prompt is one user message: the question, a space and the instruction (the default one when none is given) |
| Deepscaler.AnswerAndQuestionKept | scripts/data/deepscaler_dataset.py:57-63 | the answer is the ground truth in all three places, and the question is kept in both tasks |
| Deepscaler.IdentifiersKept | scripts/data/deepscaler_dataset.py:58-64 | `uid` and `extra_info.index` are the index, and `extra_info.split` is the split |
| Deepscaler.RecordExactlyWithBothFields | scripts/data/deepscaler_dataset.py:46-51 | a record comes back iff the example has both `problem` and `answer` |
| Deepscaler.OtherFieldsKept | scripts/data/deepscaler_dataset.py:46-51 | popping the two fields leaves every other field as it was |
| Deepscaler.ProcessFresh | scripts/data/deepscaler_dataset.py:94 | `process_fn` on a fresh example gives the record of its fields |
| Deepscaler.ProcessSplit | scripts/data/deepscaler_dataset.py:91-96 | the per-split loop computes exactly `SplitRecords` |
| Deepscaler.SplitRecordsInOrder | scripts/data/deepscaler_dataset.py:91-105 | the loop completes iff every example is complete, and then keeps one record per example, in order, record `i` being `process_fn(example i, i)` |

## Left out

- `reliability_guard`, `signal.alarm`, `faulthandler` and the 90-second timeout: a timeout is one outcome of the call or of the subprocess.
- `RuntimeModule.from_string`, `getattr`, `ast.literal_eval`, `int(k)` and `subprocess.run`: these are opaque parameters (`Harness.Runtime`), so what they do inside is not modelled.
- `call_method`, `Capturing` and `ForkedPDB` are not part of this model. The harness never calls them on the paths modelled here.
- Temporary files (`create_temp_file`, `remove_tmp_files`, the `NamedTemporaryFile` for standard input): the text written to the program's standard input is passed straight to the run.
- The `debug` paths: printing, the `"debug"` key of the results dict, `debug_infos` and `print_debug_info`.
- The module's `__main__` block, `extract_solution` in the dataset script, and the tools package: neither the harness nor `process_fn` uses them.
- Floating point: values are `Finite(real)`, infinities or NaN, and `float()`, `isclose`, `allclose` and `round(x, 3)` are parameters. No IEEE rounding is modelled.
- Equivalence.StdEquivalent: covers only the call shape the harness uses, with both arguments strings. The branches of `compare_std_results` that assume a list output are always false for a `str` and are left out.
- Equivalence.RoundedCharSets: NaN values inside the rounded sets are compared as equal values, not by identity.
- Harness.RunTestSpec: program state that persists between calls of the loaded function (globals, a `Solution` instance) is not modelled. Each call sees only the test index it is given.
- Harness.RunTestSpec: `BASE_IMPORTS` is a parameter (`baseImports`), because its text is defined outside taco.py.
- Harness.RunTestSpec: the `test is None` branch at taco.py:105-106 is left out. `test` is always a string by then, since line 80 has already formatted it.
- Harness.LoadSpec: `literal_eval` either returns a value or raises `ValueError`/`SyntaxError`. Its other exceptions (a `MemoryError`, a `RecursionError`), which would escape `run_test`, are not modelled.
- Harness.CompileAndGetFunc: whatever `getattr` returns counts as loaded. A falsy attribute (say `code = 0`) would make `if not method_func` give `[-2]`, and that case is not modelled.
- Harness.RunTestSpec: a `BaseException` that is not an `Exception` (such as `SystemExit` from a `sys.exit()` in the candidate, or `KeyboardInterrupt`), raised while the candidate is loaded (taco.py:170-178) or called (taco.py:300-303), escapes `run_test`. The model treats every failure of a load as `[-2]` and every failure of a call as `"runtime_error"`.
- Harness.StdStage: the retry re-synthesises `sol` from the same text. Synthesis is a function, so the model reuses `SolOf` of that text.
- PyValues.PyEq: a NaN float has no identity in the model, so the same NaN object on both sides of a list, tuple or dict comparison counts as unequal, where Python's identity check makes it equal.
- PyValues.PyEq: `set`, `frozenset` and `bytes` are not value kinds of the model. A returned one is covered by `PyObject`, which is unequal to every literal, as it is in Python. The model gets it wrong only when the expected output itself holds a set or bytes literal equal to it.
- PyValues.Iterate: a `PyObject` is neither iterable nor subscriptable. A `map`, `filter` or generator object is iterable in Python, so `list(x)` of such a row at taco.py:326-327 succeeds there and raises in the model.
- Harness.KindOf: a spec value whose `==` raises (`PyOpaque`) is modelled as making the lookup raise. Its exact exception type is not tracked.
- Deepscaler.ProcessSplit: models the train loop and each test loop as one loop over a sequence of examples. Each example is a fresh object, so aliasing between dataset rows is not modelled. The dataset loading, `pandas` and the parquet output are left out.
