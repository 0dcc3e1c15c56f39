/**
  Output equivalence for standard-input problems (`stripped_string_compare`, `compare_std_results`
  and `clean_stdout` in rllm/rewards/code_utils/taco.py). `compare_std_results` is modelled for
  the one call shape the harness uses: the program's cleaned standard output against the expected
  output, both strings. Float parsing and the numpy closeness tests are parameters (`FloatOps`).
 */
module Equivalence {
  import opened Wrappers
  import opened PyText
  import opened PyValues

  /**
    The floating-point operations the comparison relies on: `float(s)` (`None` when it raises),
    `np.isclose`, `np.allclose` on two equally long lists, and `round(x, 3)`.
   */
  datatype FloatOps = FloatOps(
    parse: string -> Option<FloatValue>,
    isClose: (FloatValue, FloatValue) -> bool,
    allClose: (seq<FloatValue>, seq<FloatValue>) -> bool,
    round3: FloatValue -> FloatValue)

  // ---------------------------------------------------------------------------------------
  // List comprehensions

  /** `[s.lstrip().rstrip() for s in xs]`. */
  function StripAll(xs: seq<string>): (r: seq<string>)
    ensures |r| == |xs| && forall i :: 0 <= i < |xs| ==> r[i] == Strip(xs[i])
  {
    seq(|xs|, i requires 0 <= i < |xs| => Strip(xs[i]))
  }

  /** `[s for s in xs if s]`, which is also `list(filter(len, xs))`: the non-empty strings, in order. */
  function NonEmpty(xs: seq<string>): (r: seq<string>)
    ensures |r| <= |xs|
    ensures forall i :: 0 <= i < |r| ==> r[i] != []
  {
    if xs == [] then []
    else (if xs[0] == [] then [] else [xs[0]]) + NonEmpty(xs[1..])
  }

  /** The filter keeps exactly the non-empty strings of `xs`. */
  lemma {:induction false} NonEmptyMembers(xs: seq<string>)
    ensures forall s :: s in NonEmpty(xs) <==> s in xs && s != []
  {
    if xs != [] {
      NonEmptyMembers(xs[1..]);
      assert xs == [xs[0]] + xs[1..];
    }
  }

  /** The filter keeps order: filtering a concatenation concatenates the filtered parts. */
  lemma {:induction false} NonEmptyAppend(xs: seq<string>, ys: seq<string>)
    ensures NonEmpty(xs + ys) == NonEmpty(xs) + NonEmpty(ys)
  {
    if xs != [] {
      NonEmptyAppend(xs[1..], ys);
      assert (xs + ys)[1..] == xs[1..] + ys;
    } else {
      assert xs + ys == ys;
    }
  }

  /** Filtering one string keeps it exactly when it is not empty. */
  lemma NonEmptySingle(x: string)
    ensures NonEmpty([x]) == if x == [] then [] else [x]
  {
    assert [x][1..] == [];
  }

  /** Filtering keeps every element when none is empty. */
  lemma {:induction false} NonEmptyKeepsAll(xs: seq<string>)
    requires forall i :: 0 <= i < |xs| ==> xs[i] != []
    ensures NonEmpty(xs) == xs
  {
    if xs != [] {
      NonEmptyKeepsAll(xs[1..]);
      assert [xs[0]] + xs[1..] == xs;
    }
  }

  /** The lines `stripped_string_compare` compares: split on newlines, each stripped, blank ones dropped. */
  function NonBlankLines(s: string): seq<string>
  {
    NonEmpty(StripAll(Split(s, '\n')))
  }

  /** The tokens of one line: split on whitespace, each stripped, empty ones dropped. */
  function Tokens(line: string): seq<string>
  {
    NonEmpty(StripAll(SplitWs(line)))
  }

  /** Stripping and filtering after `split()` change nothing: the tokens are the words of the line. */
  lemma TokensAreWords(line: string)
    ensures Tokens(line) == SplitWs(line)
  {
    var ws := SplitWs(line);
    SplitWsWords(line);
    forall i | 0 <= i < |ws| ensures Strip(ws[i]) == ws[i] {
      var w := ws[i];
      assert IsWord(w);
      assert LStrip(w) == w;
      assert RStrip(w) == w;
    }
    assert StripAll(ws) == ws;
    NonEmptyKeepsAll(ws);
  }

  // ---------------------------------------------------------------------------------------
  // stripped_string_compare

  /** A pair of tokens passes unless they differ, both parse as floats, and are not close. */
  predicate TokenAgrees(x: string, y: string, ops: FloatOps)
  {
    x == y || ops.parse(x).None? || ops.parse(y).None? || ops.isClose(ops.parse(x).value, ops.parse(y).value)
  }

  /** The inner loop over the token pairs of one line pair; it stops at the first failing pair. */
  predicate TokensAgree(xs: seq<string>, ys: seq<string>, ops: FloatOps)
    requires |xs| == |ys|
  {
    xs == [] || (TokenAgrees(xs[0], ys[0], ops) && TokensAgree(xs[1..], ys[1..], ops))
  }

  /** The outer loop over the line pairs; a line pair with different token counts stops it. */
  predicate LinesAgree(la: seq<string>, lb: seq<string>, ops: FloatOps)
    requires |la| == |lb|
  {
    la == []
    || (var ta, tb := Tokens(la[0]), Tokens(lb[0]);
        |ta| == |tb| && TokensAgree(ta, tb, ops) && LinesAgree(la[1..], lb[1..], ops))
  }

  /** `stripped_string_compare(s1, s2)`. */
  predicate StrippedCompare(s1: string, s2: string, ops: FloatOps)
  {
    var a, b := Strip(s1), Strip(s2);
    if a == b then true
    else if ops.parse(a).Some? && ops.parse(b).Some? then ops.isClose(ops.parse(a).value, ops.parse(b).value)
    else
      var la, lb := NonBlankLines(a), NonBlankLines(b);
      |la| == |lb| && LinesAgree(la, lb, ops)
  }

  /** The token loop succeeds exactly when every token pair passes. */
  lemma {:induction false} TokensAgreeAll(xs: seq<string>, ys: seq<string>, ops: FloatOps)
    requires |xs| == |ys|
    ensures TokensAgree(xs, ys, ops) <==> forall i :: 0 <= i < |xs| ==> TokenAgrees(xs[i], ys[i], ops)
  {
    if xs != [] {
      TokensAgreeAll(xs[1..], ys[1..], ops);
      if TokensAgree(xs, ys, ops) {
        forall i | 0 <= i < |xs| ensures TokenAgrees(xs[i], ys[i], ops) {
          if i > 0 { assert xs[i] == xs[1..][i - 1] && ys[i] == ys[1..][i - 1]; }
        }
      }
      if forall i :: 0 <= i < |xs| ==> TokenAgrees(xs[i], ys[i], ops) {
        forall i | 0 <= i < |xs| - 1 ensures TokenAgrees(xs[1..][i], ys[1..][i], ops) {
          assert xs[1..][i] == xs[i + 1] && ys[1..][i] == ys[i + 1];
        }
      }
    }
  }

  /** Line pair `i` passes: same token count, and every token pair passes. */
  predicate LinePairAgrees(x: string, y: string, ops: FloatOps)
  {
    var tx, ty := Tokens(x), Tokens(y);
    |tx| == |ty| && forall j :: 0 <= j < |tx| ==> TokenAgrees(tx[j], ty[j], ops)
  }

  /** The line loop succeeds exactly when every line pair passes. */
  lemma {:induction false} LinesAgreeAll(la: seq<string>, lb: seq<string>, ops: FloatOps)
    requires |la| == |lb|
    ensures LinesAgree(la, lb, ops) <==> forall i :: 0 <= i < |la| ==> LinePairAgrees(la[i], lb[i], ops)
  {
    if la != [] {
      LinesAgreeAll(la[1..], lb[1..], ops);
      var ta, tb := Tokens(la[0]), Tokens(lb[0]);
      if |ta| == |tb| {
        TokensAgreeAll(ta, tb, ops);
      }
      if LinesAgree(la, lb, ops) {
        forall i | 0 <= i < |la| ensures LinePairAgrees(la[i], lb[i], ops) {
          if i > 0 { assert la[i] == la[1..][i - 1] && lb[i] == lb[1..][i - 1]; }
        }
      }
      if forall i :: 0 <= i < |la| ==> LinePairAgrees(la[i], lb[i], ops) {
        assert LinePairAgrees(la[0], lb[0], ops);
        forall i | 0 <= i < |la| - 1 ensures LinePairAgrees(la[1..][i], lb[1..][i], ops) {
          assert la[1..][i] == la[i + 1] && lb[1..][i] == lb[i + 1];
        }
      }
    }
  }

  /**
    What `stripped_string_compare` decides, stated without its loops: the stripped strings are
    equal; or both parse as floats and are close; or neither float test applies, the non-blank
    lines are equally many, and line by line the words are equally many and every differing pair
    of words fails to parse on some side or is close.
   */
  lemma StrippedCompareCharacterised(s1: string, s2: string, ops: FloatOps)
    ensures var a, b := Strip(s1), Strip(s2);
            var la, lb := NonBlankLines(a), NonBlankLines(b);
            var bothFloats := ops.parse(a).Some? && ops.parse(b).Some?;
            StrippedCompare(s1, s2, ops) <==>
              a == b
              || (bothFloats && ops.isClose(ops.parse(a).value, ops.parse(b).value))
              || (!bothFloats && |la| == |lb|
                  && forall i :: 0 <= i < |la| ==>
                       var wx, wy := SplitWs(la[i]), SplitWs(lb[i]);
                       |wx| == |wy| && forall j :: 0 <= j < |wx| ==> TokenAgrees(wx[j], wy[j], ops))
  {
    var a, b := Strip(s1), Strip(s2);
    var la, lb := NonBlankLines(a), NonBlankLines(b);
    if |la| == |lb| {
      LinesAgreeAll(la, lb, ops);
      forall i | 0 <= i < |la| ensures Tokens(la[i]) == SplitWs(la[i]) && Tokens(lb[i]) == SplitWs(lb[i]) {
        TokensAreWords(la[i]);
        TokensAreWords(lb[i]);
      }
    }
  }

  /** Only the stripped strings matter: whitespace added around either side changes nothing. */
  lemma StrippedCompareIgnoresSurroundingSpace(w1: string, s1: string, w2: string, w3: string, s2: string, w4: string, ops: FloatOps)
    requires AllSpace(w1) && AllSpace(w2) && AllSpace(w3) && AllSpace(w4)
    ensures StrippedCompare(w1 + s1 + w2, w3 + s2 + w4, ops) == StrippedCompare(s1, s2, ops)
  {
    StripSurroundingSpace(w1, s1, w2);
    StripSurroundingSpace(w3, s2, w4);
  }

  /** Equal texts, up to surrounding whitespace, always compare equal. */
  lemma StrippedCompareReflexive(w1: string, s: string, w2: string, ops: FloatOps)
    requires AllSpace(w1) && AllSpace(w2)
    ensures StrippedCompare(w1 + s + w2, s, ops)
  {
    StripSurroundingSpace(w1, s, w2);
  }

  /** Different numbers of non-blank lines make the comparison fail when the float test does not apply. */
  lemma LineCountMismatchFails(s1: string, s2: string, ops: FloatOps)
    requires Strip(s1) != Strip(s2)
    requires ops.parse(Strip(s1)).None? || ops.parse(Strip(s2)).None?
    requires |NonBlankLines(Strip(s1))| != |NonBlankLines(Strip(s2))|
    ensures !StrippedCompare(s1, s2, ops)
  {
  }

  /**
    Two differing words that are not both numbers are skipped: under any float parser that
    rejects `"YES"`, one-word outputs `"YES"` and `"NO"` compare equal.
   */
  lemma NonNumericMismatchIgnored(ops: FloatOps)
    requires ops.parse("YES").None?
    ensures StrippedCompare("YES", "NO", ops)
  {
    assert IsWord("YES") && IsWord("NO");
    OneWordMismatchIgnored("YES", "NO", ops);
  }

  /** Two one-word outputs, one of which is not a number, always compare equal. */
  lemma OneWordMismatchIgnored(x: string, y: string, ops: FloatOps)
    requires IsWord(x) && IsWord(y)
    requires ops.parse(x).None? || ops.parse(y).None?
    ensures StrippedCompare(x, y, ops)
  {
    WordIsOneLine(x);
    WordIsOneLine(y);
    assert [x][1..] == [] && [y][1..] == [];
    assert TokensAgree([x], [y], ops);
    assert LinesAgree([x], [y], ops);
  }

  /** A word is its own stripped text, its only non-blank line and its only token. */
  lemma WordIsOneLine(w: string)
    requires IsWord(w)
    ensures Strip(w) == w && NonBlankLines(w) == [w] && Tokens(w) == [w]
  {
    assert LStrip(w) == w;
    assert RStrip(w) == w;
    SplitNoSep(w, '\n');
    assert StripAll([w]) == [w];
    NonEmptyKeepsAll([w]);
    TokensAreWords(w);
    WordCountOne(w);
  }

  /** A non-empty string without whitespace is one word. */
  lemma WordCountOne(w: string)
    requires w != [] && forall i :: 0 <= i < |w| ==> !IsSpace(w[i])
    ensures SplitWs(w) == [w]
  {
    SplitWsWordThen(w, []);
    assert w + [] == w;
  }

  /** With a symmetric closeness test the token loop is symmetric. */
  lemma {:induction false} TokensAgreeSymmetric(xs: seq<string>, ys: seq<string>, ops: FloatOps)
    requires |xs| == |ys|
    requires forall x, y :: ops.isClose(x, y) == ops.isClose(y, x)
    ensures TokensAgree(xs, ys, ops) == TokensAgree(ys, xs, ops)
  {
    if xs != [] {
      TokensAgreeSymmetric(xs[1..], ys[1..], ops);
    }
  }

  /** With a symmetric closeness test the line loop is symmetric. */
  lemma {:induction false} LinesAgreeSymmetric(la: seq<string>, lb: seq<string>, ops: FloatOps)
    requires |la| == |lb|
    requires forall x, y :: ops.isClose(x, y) == ops.isClose(y, x)
    ensures LinesAgree(la, lb, ops) == LinesAgree(lb, la, ops)
  {
    if la != [] {
      LinesAgreeSymmetric(la[1..], lb[1..], ops);
      var ta, tb := Tokens(la[0]), Tokens(lb[0]);
      if |ta| == |tb| {
        TokensAgreeSymmetric(ta, tb, ops);
      }
    }
  }

  /** With a symmetric closeness test the comparison is symmetric. */
  lemma StrippedCompareSymmetric(s1: string, s2: string, ops: FloatOps)
    requires forall x, y :: ops.isClose(x, y) == ops.isClose(y, x)
    ensures StrippedCompare(s1, s2, ops) == StrippedCompare(s2, s1, ops)
  {
    var la, lb := NonBlankLines(Strip(s1)), NonBlankLines(Strip(s2));
    if |la| == |lb| {
      LinesAgreeSymmetric(la, lb, ops);
    }
  }

  // ---------------------------------------------------------------------------------------
  // compare_std_results, for a `str` against a `str`

  /** The expected output as the later checks see it: split on newlines, blank-free, then each stripped. */
  function OutputLines(o: string): seq<string>
  {
    StripAll(NonEmpty(Split(o, '\n')))
  }

  /** `[float(x) for x in xs]`: every element parsed, or `None` when some `float` raises. */
  function ParseAll(xs: seq<string>, parse: string -> Option<FloatValue>): (r: Option<seq<FloatValue>>)
    ensures r.Some? <==> forall i :: 0 <= i < |xs| ==> parse(xs[i]).Some?
    ensures r.Some? ==> |r.value| == |xs| && forall i :: 0 <= i < |xs| ==> r.value[i] == parse(xs[i]).value
  {
    if xs == [] then Some([])
    else
      match (parse(xs[0]), ParseAll(xs[1..], parse))
      case (Some(x), Some(rest)) => Some([x] + rest)
      case _ => None
  }

  /** The one-character strings of `s`: what iterating the `str` yields. */
  function CharStrings(s: string): (r: seq<string>)
    ensures |r| == |s| && forall i :: 0 <= i < |s| ==> r[i] == [s[i]]
  {
    seq(|s|, i requires 0 <= i < |s| => [s[i]])
  }

  /** `set(w.split())`. */
  function WordSet(line: string): set<string>
  {
    set w | w in SplitWs(line)
  }

  /** `frozenset(w)` for a word: its characters, as one-character strings. */
  function CharSet(w: string): set<string>
  {
    set c | c in w :: [c]
  }

  /** The list the in-place loop leaves in `outputs`: the word set of every line. */
  function WordSets(lines: seq<string>): (r: seq<set<string>>)
    ensures |r| == |lines| && forall i :: 0 <= i < |lines| ==> r[i] == WordSet(lines[i])
  {
    seq(|lines|, i requires 0 <= i < |lines| => WordSet(lines[i]))
  }

  /** Every character of every word parses as a float. */
  predicate CharsParse(words: set<string>, ops: FloatOps)
  {
    forall w, c :: w in words && c in w ==> ops.parse([c]).Some?
  }

  /** Every word of every set parses as a float. */
  predicate WordsParse(sets: seq<set<string>>, ops: FloatOps)
  {
    forall i, t :: 0 <= i < |sets| && t in sets[i] ==> ops.parse(t).Some?
  }

  /** `set(frozenset(round(float(t), 3) for t in s) for s in words)`, where each `t` is a character. */
  function RoundedCharSets(words: set<string>, ops: FloatOps): set<set<FloatValue>>
    requires CharsParse(words, ops)
  {
    set w | w in words :: set c | c in w :: ops.round3(ops.parse([c]).value)
  }

  /** `set(frozenset(round(float(t), 3) for t in s) for s in sets)`, where each `t` is a word. */
  function RoundedWordSets(sets: seq<set<string>>, ops: FloatOps): set<set<FloatValue>>
    requires WordsParse(sets, ops)
  {
    set i | 0 <= i < |sets| :: set t | t in sets[i] :: ops.round3(ops.parse(t).value)
  }

  /** The float check: every character of `e` and every expected line parse, equally many, and all close. */
  predicate FloatsClose(e: string, lines: seq<string>, ops: FloatOps)
  {
    var fe, fo := ParseAll(CharStrings(e), ops.parse), ParseAll(lines, ops.parse);
    fe.Some? && fo.Some? && |fe.value| == |fo.value| && ops.allClose(fe.value, fo.value)
  }

  /** The set check: the character sets of the words of `e` are the word sets of the expected lines. */
  predicate WordSetsMatch(e: string, lines: seq<string>)
  {
    (set w | w in WordSet(e) :: CharSet(w)) == (set s | s in WordSets(lines))
  }

  /** The rounded set check, which applies only when every `float` call succeeds. */
  predicate RoundedMatch(e: string, lines: seq<string>, ops: FloatOps)
  {
    var ws := WordSets(lines);
    CharsParse(WordSet(e), ops) && WordsParse(ws, ops)
    && RoundedCharSets(WordSet(e), ops) == RoundedWordSets(ws, ops)
  }

  /**
    `compare_std_results(e, o)` for strings: the stripped comparison, then the float check, then
    the set check, then the rounded set check. (The checks that compare the `str` with a list are
    false for every `str` and are left out of the disjunction.)
   */
  predicate StdEquivalent(e: string, o: string, ops: FloatOps)
  {
    var lines := OutputLines(o);
    StrippedCompare(e, o, ops) || FloatsClose(e, lines, ops) || WordSetsMatch(e, lines) || RoundedMatch(e, lines, ops)
  }

  /** `compare_std_results(exec_outputs, outputs)` with both arguments strings. */
  method CompareStdResults(execOutputs: string, outputs: string, ops: FloatOps) returns (r: bool)
    ensures r == StdEquivalent(execOutputs, outputs, ops)
  {
    if StrippedCompare(execOutputs, outputs, ops) {
      return true;
    }
    var lines := StripAll(NonEmpty(Split(outputs, '\n')));
    var tmpResult := false;
    var outputFloat := ParseAll(CharStrings(execOutputs), ops.parse);
    var gtFloat := ParseAll(lines, ops.parse);
    if outputFloat.Some? && gtFloat.Some? {
      tmpResult := |outputFloat.value| == |gtFloat.value| && ops.allClose(outputFloat.value, gtFloat.value);
    }
    if tmpResult {
      return true;
    }
    // `outputs[tmp_index] = set(i.split())`, element by element
    var wordSets: seq<set<string>> := [];
    for idx := 0 to |lines|
      invariant |wordSets| == idx
      invariant forall j :: 0 <= j < idx ==> wordSets[j] == WordSet(lines[j])
    {
      wordSets := wordSets + [WordSet(lines[idx])];
    }
    assert wordSets == WordSets(lines);
    var execWords := WordSet(execOutputs);
    tmpResult := (set w | w in execWords :: CharSet(w)) == (set s | s in wordSets);
    if CharsParse(execWords, ops) && WordsParse(wordSets, ops) {
      tmpResult := tmpResult || RoundedCharSets(execWords, ops) == RoundedWordSets(wordSets, ops);
    }
    r := tmpResult;
  }

  /** Whatever the float operations do, a program output equal to the expected output, up to surrounding whitespace, passes. */
  lemma StdEquivalentAcceptsExact(w1: string, o: string, w2: string, ops: FloatOps)
    requires AllSpace(w1) && AllSpace(w2)
    ensures StdEquivalent(w1 + o + w2, o, ops)
  {
    StrippedCompareReflexive(w1, o, w2, ops);
  }

  /** The set check ignores the order and the repetition of the words of the program's output. */
  lemma WordSetsMatchIgnoresWordOrder(e1: string, e2: string, lines: seq<string>)
    requires forall w :: w in SplitWs(e1) <==> w in SplitWs(e2)
    ensures WordSetsMatch(e1, lines) == WordSetsMatch(e2, lines)
  {
    assert WordSet(e1) == WordSet(e2);
  }

  /**
    The set check can accept outputs whose words differ: `"ab ba"` against `"a b"` passes, since
    each word of the program's output stands for the set of its characters.
   */
  lemma WordSetsMatchCompareCharacters()
    ensures WordSetsMatch("ab ba", ["a b"])
  {
    ProgramSideAbBa();
    ExpectedSideAB();
  }

  /** The program's side of the example: both words of `"ab ba"` stand for the set `{a, b}`. */
  lemma ProgramSideAbBa()
    ensures (set w | w in WordSet("ab ba") :: CharSet(w)) == {{"a", "b"}}
  {
    WordSetAbBa();
    CharSetsAbBa();
    SameCharSets("ab", "ba");
  }

  /** The two words of `"ab ba"`. */
  lemma WordSetAbBa()
    ensures WordSet("ab ba") == {"ab", "ba"}
  {
    WordSetOfTwo("ab", "ba");
    assert "ab" + " " + "ba" == "ab ba";
  }

  /** Both words of `"ab ba"` have the characters `a` and `b`. */
  lemma CharSetsAbBa()
    ensures CharSet("ab") == {"a", "b"} && CharSet("ba") == {"a", "b"}
  {
    CharSetTwo('a', 'b');
    CharSetTwo('b', 'a');
  }

  /** The word set of two words joined by a blank. */
  lemma WordSetOfTwo(x: string, y: string)
    requires IsWord(x) && IsWord(y)
    ensures WordSet(x + " " + y) == {x, y}
  {
    SplitWsTwoWords(x, y);
  }

  /** Two words with the same characters give one character set. */
  lemma SameCharSets(x: string, y: string)
    requires CharSet(x) == CharSet(y)
    ensures (set w | w in {x, y} :: CharSet(w)) == {CharSet(x)}
  {
  }

  /** `split()` of two words joined by a blank. */
  lemma SplitWsTwoWords(x: string, y: string)
    requires IsWord(x) && IsWord(y)
    ensures SplitWs(x + " " + y) == [x, y]
  {
    assert x + " " + y == x + (" " + y);
    SplitWsWordThen(x, " " + y);
    assert (" " + y)[1..] == y;
    WordCountOne(y);
  }

  /** The character set of a two-character word. */
  lemma CharSetTwo(a: char, b: char)
    ensures CharSet([a, b]) == {[a], [b]}
  {
  }

  /** The expected side of the example: the one line `"a b"` has the word set `{a, b}`. */
  lemma ExpectedSideAB()
    ensures (set s | s in WordSets(["a b"])) == {{"a", "b"}}
  {
    var ws := WordSets(["a b"]);
    assert WordSet("a b") == {"a", "b"} by { WordSetOfTwo("a", "b"); assert "a" + " " + "b" == "a b"; }
    assert ws == [{"a", "b"}] by { assert |ws| == 1 && ws[0] == WordSet("a b"); }
  }

  // ---------------------------------------------------------------------------------------
  // clean_stdout

  /** `stdout.rstrip("\n")`. */
  function CleanStdout(stdout: string): string
  {
    RStripChar(stdout, '\n')
  }

  /** Cleaning removes trailing newlines and nothing else: the result is a prefix, followed in `stdout` by newlines only. */
  lemma CleanStdoutRemovesTrailingNewlines(stdout: string)
    ensures var r := CleanStdout(stdout);
            r == stdout[..|r|] && (r == [] || r[|r| - 1] != '\n')
            && forall i :: |r| <= i < |stdout| ==> stdout[i] == '\n'
  {
    RStripCharSpec(stdout, '\n');
  }

  /** Cleaning twice is cleaning once. */
  lemma CleanStdoutIdempotent(stdout: string)
    ensures CleanStdout(CleanStdout(stdout)) == CleanStdout(stdout)
  {
    RStripCharIdempotent(stdout, '\n');
  }

  /** Newlines added to text that does not end in one are exactly what cleaning removes. */
  lemma {:induction false} CleanStdoutDropsAddedNewlines(s: string, t: string)
    requires s == [] || s[|s| - 1] != '\n'
    requires forall i :: 0 <= i < |t| ==> t[i] == '\n'
    ensures CleanStdout(s + t) == s
    decreases |t|
  {
    if t != [] {
      var t' := t[..|t| - 1];
      assert (s + t)[..|s + t| - 1] == s + t';
      CleanStdoutDropsAddedNewlines(s, t');
    } else {
      assert s + t == s;
    }
  }
}
