/**
  Program synthesis for the two test modes (`synthesize_cb_code` and `synthesize_std_code` in
  rllm/rewards/code_utils/taco.py). A call-based candidate gets a fixed import header in front.
  A standard-input candidate is split into lines, each line is classified, and two programs are
  built: `sol`, which wraps the code in `def code():`, and `sol2`, the flat script that is run.
 */
module Synthesis {
  import opened PyText

  /** `normal_import_lines`: the fixed import header both synthesisers put in front of the code, one line per piece. */
  const NormalImportLines: string :=
    "import sys\n"
    + "import time\n"
    + "import itertools\n"
    + "from itertools import accumulate, product, permutations, combinations\n"
    + "import collections\n"
    + "from collections import Counter, OrderedDict, deque, defaultdict, ChainMap\n"
    + "from functools import lru_cache\n"
    + "import math\n"
    + "from math import sqrt, sin, cos, tan, ceil, fabs, floor, gcd, exp, log, log2\n"
    + "import fractions\n"
    + "from typing import List, Tuple\n"
    + "import numpy as np\n"
    + "import random\n"
    + "import heapq\n"
    + "from heapq import *\n"

  /** The two lines that bind `stdin` and `stdout`, with the newline that closes the preceding text. */
  const StdioLines: string := "\nstdin = sys.stdin\nstdout = sys.stdout\n"

  const CodeHeader: string := "def code():\n"

  /** `synthesize_cb_code`: the import header, then the candidate exactly as given. */
  function SynthesizeCbCode(raw: string): string
  {
    NormalImportLines + raw
  }

  /** Line classification: 2 for a wildcard import, 1 for an import, 0 for anything else. */
  function LineType(x: string): nat
  {
    if Contains(x, "import *") then 2
    else if StartsWith(x, "from ") || StartsWith(x, "import ") then 1
    else 0
  }

  /** The `code_types` list: the type of every line, in order. */
  function LineTypes(ls: seq<string>): (ts: seq<nat>)
    ensures |ts| == |ls|
  {
    seq(|ls|, i requires 0 <= i < |ls| => LineType(ls[i]))
  }

  /** Every line, each followed by a newline. */
  function LinesOf(ls: seq<string>): string
  {
    if ls == [] then "" else LinesOf(ls[..|ls| - 1]) + ls[|ls| - 1] + "\n"
  }

  /** Every line, each preceded by a tab and followed by a newline. */
  function TabbedLinesOf(ls: seq<string>): string
  {
    if ls == [] then "" else TabbedLinesOf(ls[..|ls| - 1]) + "\t" + ls[|ls| - 1] + "\n"
  }

  /** The lines whose type is below 2 (not wildcard imports), in order. */
  function Kept(ls: seq<string>, ts: seq<nat>): (r: seq<string>)
    requires |ts| == |ls|
    ensures |r| <= |ls|
  {
    if ls == [] then []
    else Kept(ls[..|ls| - 1], ts[..|ts| - 1]) + (if ts[|ts| - 1] < 2 then [ls[|ls| - 1]] else [])
  }

  /** The wildcard-import lines (type 2), in order, with leading tabs removed. */
  function Wildcards(ls: seq<string>, ts: seq<nat>): (r: seq<string>)
    requires |ts| == |ls|
    ensures |r| <= |ls|
  {
    if ls == [] then []
    else Wildcards(ls[..|ls| - 1], ts[..|ts| - 1]) + (if ts[|ts| - 1] == 2 then [LStripChar(ls[|ls| - 1], '\t')] else [])
  }

  /** Index of the first ordinary code line (type 0), or `|ts|` when there is none. */
  function CodeStart(ts: seq<nat>): (k: nat)
    ensures k <= |ts|
    ensures forall i :: 0 <= i < k ==> ts[i] != 0
    ensures k < |ts| ==> ts[k] == 0
  {
    if ts == [] || ts[0] == 0 then 0 else 1 + CodeStart(ts[1..])
  }

  /** The text `sol` puts in front of the first code line, after the import header: wildcard imports, stdio, `def code():`. */
  function SolHeaderRest(ls: seq<string>, ts: seq<nat>): string
    requires |ts| == |ls|
  {
    Join("\n", Wildcards(ls, ts)) + StdioLines + CodeHeader
  }

  /** What the compiled program `sol` is, for lines `ls` of types `ts`, with `header` before the first code line. */
  function SolWith(ls: seq<string>, ts: seq<nat>, header: string): string
    requires |ts| == |ls|
  {
    var k := CodeStart(ts);
    if k == |ls| then LinesOf(Kept(ls, ts))
    else LinesOf(Kept(ls[..k], ts[..k])) + header + TabbedLinesOf(Kept(ls[k..], ts[k..]))
  }

  /** What the executed script `sol2` is, for lines `ls` of types `ts`, with `ins` before the first code line. */
  function Sol2With(ls: seq<string>, ts: seq<nat>, ins: string): string
    requires |ts| == |ls|
  {
    var k := CodeStart(ts);
    if k == |ls| then LinesOf(ls)
    else LinesOf(ls[..k]) + ins + LinesOf(ls[k..])
  }

  /** `sol` for the candidate `raw`. */
  function SolOf(raw: string): string
  {
    var ls := Split(raw, '\n');
    var ts := LineTypes(ls);
    SolWith(ls, ts, NormalImportLines + SolHeaderRest(ls, ts))
  }

  /** `sol2` for the candidate `raw`. */
  function Sol2Of(raw: string): string
  {
    var ls := Split(raw, '\n');
    Sol2With(ls, LineTypes(ls), NormalImportLines + StdioLines)
  }

  /** `sol2` after `n` lines, when the first code line is line `k` and `ins` goes in front of it. */
  function Sol2Prefix(ls: seq<string>, k: nat, n: nat, ins: string): string
    requires n <= |ls|
  {
    if n <= k then LinesOf(ls[..n]) else LinesOf(ls[..k]) + ins + LinesOf(ls[k..n])
  }

  /** `sol` after `n` lines, when the first code line is line `k` and `header` goes in front of it. */
  function SolPrefix(ls: seq<string>, ts: seq<nat>, k: nat, n: nat, header: string): string
    requires |ts| == |ls| && n <= |ls|
  {
    if n <= k then LinesOf(Kept(ls[..n], ts[..n]))
    else LinesOf(Kept(ls[..k], ts[..k])) + header + TabbedLinesOf(Kept(ls[k..n], ts[k..n]))
  }

  /** The first loop of `synthesize_std_code`, which builds `code_types`. */
  method ClassifyLines(tmpTest: seq<string>) returns (codeTypes: seq<nat>)
    ensures codeTypes == LineTypes(tmpTest)
  {
    codeTypes := [];
    for idx := 0 to |tmpTest|
      invariant |codeTypes| == idx
      invariant forall i :: 0 <= i < idx ==> codeTypes[i] == LineType(tmpTest[i])
    {
      var x := tmpTest[idx];
      if Contains(x, "import *") {
        codeTypes := codeTypes + [2];
      } else if StartsWith(x, "from ") || StartsWith(x, "import ") {
        codeTypes := codeTypes + [1];
      } else {
        codeTypes := codeTypes + [0];
      }
    }
  }

  /** `synthesize_std_code(raw)`: returns `(sol, sol2)`. */
  method SynthesizeStdCode(raw: string) returns (sol: string, sol2: string)
    ensures sol == SolOf(raw)
    ensures sol2 == Sol2Of(raw)
  {
    var normalImportLines := NormalImportLines;
    var tmpTest := Split(raw, '\n');
    var codeTypes := ClassifyLines(tmpTest);
    sol, sol2 := AssemblePrograms(tmpTest, codeTypes, normalImportLines);
  }

  /**
    The second loop of `synthesize_std_code`: one pass over the lines with the `started` flag,
    building `sol` and `sol2` side by side; `normalImportLines` is the import header.
   */
  method AssemblePrograms(tmpTest: seq<string>, codeTypes: seq<nat>, normalImportLines: string)
    returns (sol: string, sol2: string)
    requires |codeTypes| == |tmpTest|
    ensures sol == SolWith(tmpTest, codeTypes, normalImportLines + SolHeaderRest(tmpTest, codeTypes))
    ensures sol2 == Sol2With(tmpTest, codeTypes, normalImportLines + StdioLines)
  {
    var started := false;
    var specialImportLines := Join("\n", Wildcards(tmpTest, codeTypes));
    ghost var k := CodeStart(codeTypes);
    ghost var header := normalImportLines + SolHeaderRest(tmpTest, codeTypes);
    ghost var ins := normalImportLines + StdioLines;
    sol, sol2 := "", "";
    for idx := 0 to |tmpTest|
      invariant started <==> k < idx
      invariant sol2 == Sol2Prefix(tmpTest, k, idx, ins)
      invariant sol == SolPrefix(tmpTest, codeTypes, k, idx, header)
    {
      var i := tmpTest[idx];
      var codeType := codeTypes[idx];
      if codeType == 0 && !started {
        Sol2PrefixAt(tmpTest, k, normalImportLines);
        SolPrefixAt(tmpTest, codeTypes, k, normalImportLines);
        sol2 := sol2 + normalImportLines;
        sol2 := sol2 + StdioLines;
        sol2 := sol2 + (i + "\n");
        sol := sol + normalImportLines;
        sol := sol + specialImportLines;
        sol := sol + StdioLines;
        sol := sol + CodeHeader;
        sol := sol + ("\t" + i + "\n");
        started := true;
      } else {
        Sol2PrefixOther(tmpTest, k, idx, ins);
        sol2 := sol2 + (i + "\n");
        if codeType < 2 {
          if started {
            SolPrefixAfterKept(tmpTest, codeTypes, k, idx, header);
            sol := sol + "\t";
          } else {
            SolPrefixBeforeKept(tmpTest, codeTypes, k, idx, header);
          }
          sol := sol + (i + "\n");
        } else {
          SolPrefixSkip(tmpTest, codeTypes, k, idx, header);
        }
      }
    }
    SolPrefixComplete(tmpTest, codeTypes, header);
    Sol2PrefixComplete(tmpTest, codeTypes, ins);
  }

  /** Once every line is processed, the prefix is the whole of `sol`. */
  lemma SolPrefixComplete(ls: seq<string>, ts: seq<nat>, header: string)
    requires |ts| == |ls|
    ensures SolPrefix(ls, ts, CodeStart(ts), |ls|, header) == SolWith(ls, ts, header)
  {
    assert ls[..|ls|] == ls && ts[..|ts|] == ts;
  }

  /** Once every line is processed, the prefix is the whole of `sol2`. */
  lemma Sol2PrefixComplete(ls: seq<string>, ts: seq<nat>, ins: string)
    requires |ts| == |ls|
    ensures Sol2Prefix(ls, CodeStart(ts), |ls|, ins) == Sol2With(ls, ts, ins)
  {
    assert ls[..|ls|] == ls;
  }

  lemma LinesOfSnoc(xs: seq<string>, x: string)
    ensures LinesOf(xs + [x]) == LinesOf(xs) + (x + "\n")
  {
    assert (xs + [x])[..|xs|] == xs;
  }

  lemma TabbedLinesOfSnoc(xs: seq<string>, x: string)
    ensures TabbedLinesOf(xs + [x]) == TabbedLinesOf(xs) + "\t" + (x + "\n")
  {
    assert (xs + [x])[..|xs|] == xs;
  }

  lemma KeptSnoc(xs: seq<string>, ys: seq<nat>, x: string, y: nat)
    requires |ys| == |xs|
    ensures Kept(xs + [x], ys + [y]) == Kept(xs, ys) + (if y < 2 then [x] else [])
  {
    assert (xs + [x])[..|xs|] == xs;
    assert (ys + [y])[..|ys|] == ys;
  }

  /** At the first code line, `sol2` takes the import header `n`, the stdio lines and then the line. */
  lemma Sol2PrefixAt(ls: seq<string>, k: nat, n: string)
    requires k < |ls|
    ensures Sol2Prefix(ls, k, k + 1, n + StdioLines) == Sol2Prefix(ls, k, k, n + StdioLines) + n + StdioLines + (ls[k] + "\n")
  {
    assert ls[k..k + 1] == [] + [ls[k]];
    LinesOfSnoc([], ls[k]);
    var a, t := LinesOf(ls[..k]), ls[k] + "\n";
    assert LinesOf(ls[k..k + 1]) == t;
    assert a + (n + StdioLines) + t == a + n + StdioLines + t;
  }

  /** Any other line is appended to `sol2` as it is. */
  lemma Sol2PrefixOther(ls: seq<string>, k: nat, n: nat, ins: string)
    requires n < |ls| && n != k
    ensures Sol2Prefix(ls, k, n + 1, ins) == Sol2Prefix(ls, k, n, ins) + (ls[n] + "\n")
  {
    if n < k {
      assert ls[..n + 1] == ls[..n] + [ls[n]];
      LinesOfSnoc(ls[..n], ls[n]);
    } else {
      assert ls[k..n + 1] == ls[k..n] + [ls[n]];
      LinesOfSnoc(ls[k..n], ls[n]);
      var a, b := LinesOf(ls[..k]), LinesOf(ls[k..n]);
      assert a + ins + (b + (ls[n] + "\n")) == a + ins + b + (ls[n] + "\n");
    }
  }

  /** Before the first code line, `sol` takes each plain import line as it is. */
  lemma SolPrefixBeforeKept(ls: seq<string>, ts: seq<nat>, k: nat, n: nat, header: string)
    requires |ts| == |ls| && n < |ls| && n < k && ts[n] < 2
    ensures SolPrefix(ls, ts, k, n + 1, header) == SolPrefix(ls, ts, k, n, header) + (ls[n] + "\n")
  {
    assert ls[..n + 1] == ls[..n] + [ls[n]];
    assert ts[..n + 1] == ts[..n] + [ts[n]];
    KeptSnoc(ls[..n], ts[..n], ls[n], ts[n]);
    LinesOfSnoc(Kept(ls[..n], ts[..n]), ls[n]);
  }

  /** A wildcard import line leaves `sol` as it is, before and after the first code line. */
  lemma SolPrefixSkip(ls: seq<string>, ts: seq<nat>, k: nat, n: nat, header: string)
    requires |ts| == |ls| && n < |ls| && n != k && ts[n] >= 2
    ensures SolPrefix(ls, ts, k, n + 1, header) == SolPrefix(ls, ts, k, n, header)
  {
    if n < k {
      assert ls[..n + 1] == ls[..n] + [ls[n]];
      assert ts[..n + 1] == ts[..n] + [ts[n]];
      KeptSnoc(ls[..n], ts[..n], ls[n], ts[n]);
      var kept := Kept(ls[..n], ts[..n]);
      assert kept + [] == kept;
    } else {
      assert ls[k..n + 1] == ls[k..n] + [ls[n]];
      assert ts[k..n + 1] == ts[k..n] + [ts[n]];
      KeptSnoc(ls[k..n], ts[k..n], ls[n], ts[n]);
      var t := Kept(ls[k..n], ts[k..n]);
      assert t + [] == t;
    }
  }

  lemma TabbedLinesOfSingle(x: string)
    ensures TabbedLinesOf([x]) == "\t" + x + "\n"
  {
    assert [x][..0] == [];
  }

  /** At the first code line, `sol` takes the import header `n`, the rest of the header and then the line, tabbed. */
  lemma SolPrefixAt(ls: seq<string>, ts: seq<nat>, k: nat, n: string)
    requires |ts| == |ls| && k < |ls| && ts[k] == 0
    ensures var header := n + SolHeaderRest(ls, ts);
            SolPrefix(ls, ts, k, k + 1, header)
            == SolPrefix(ls, ts, k, k, header) + n + Join("\n", Wildcards(ls, ts)) + StdioLines + CodeHeader + ("\t" + ls[k] + "\n")
  {
    var header := n + SolHeaderRest(ls, ts);
    var x := ls[k];
    assert ls[k..k + 1] == [x];
    assert ts[k..k + 1] == [ts[k]];
    KeptAndWildcardsOfOne(x, ts[k]);
    TabbedLinesOfSingle(x);
    var a := LinesOf(Kept(ls[..k], ts[..k]));
    assert SolPrefix(ls, ts, k, k, header) == a;
    assert SolPrefix(ls, ts, k, k + 1, header) == a + header + ("\t" + x + "\n");
    Regroup(a, n, Join("\n", Wildcards(ls, ts)), StdioLines, CodeHeader, "\t" + x + "\n");
  }

  lemma Regroup(a: string, n: string, j: string, s: string, c: string, t: string)
    ensures a + (n + (j + s + c)) + t == a + n + j + s + c + t
  {
  }

  /** After the first code line, `sol` takes each line that is not a wildcard import, tabbed. */
  lemma SolPrefixAfterKept(ls: seq<string>, ts: seq<nat>, k: nat, n: nat, header: string)
    requires |ts| == |ls| && k < n < |ls| && ts[n] < 2
    ensures SolPrefix(ls, ts, k, n + 1, header) == SolPrefix(ls, ts, k, n, header) + "\t" + (ls[n] + "\n")
  {
    var a := LinesOf(Kept(ls[..k], ts[..k]));
    assert ls[k..n + 1] == ls[k..n] + [ls[n]];
    assert ts[k..n + 1] == ts[k..n] + [ts[n]];
    var t := Kept(ls[k..n], ts[k..n]);
    KeptSnoc(ls[k..n], ts[k..n], ls[n], ts[n]);
    TabbedLinesOfSnoc(t, ls[n]);
    var b := TabbedLinesOf(t);
    assert SolPrefix(ls, ts, k, n + 1, header) == a + header + (b + "\t" + (ls[n] + "\n"));
    assert SolPrefix(ls, ts, k, n, header) == a + header + b;
  }

  // ---------------------------------------------------------------------------------------
  // Properties

  /** The classification: a wildcard import wins over the import prefixes; anything else is code. */
  lemma LineTypeCases(x: string)
    ensures LineType(x) == 2 <==> Contains(x, "import *")
    ensures LineType(x) == 1 <==> !Contains(x, "import *") && (StartsWith(x, "from ") || StartsWith(x, "import "))
    ensures LineType(x) == 0 <==> !Contains(x, "import *") && !StartsWith(x, "from ") && !StartsWith(x, "import ")
  {
  }

  /** An import indented by a whitespace character is ordinary code unless it is a wildcard import. */
  lemma IndentedImportIsCode(c: char, x: string)
    requires IsSpace(c)
    requires !Contains([c] + x, "import *")
    ensures LineType([c] + x) == 0
  {
    var y := [c] + x;
    assert y[0] == c && !IsSpace('f') && !IsSpace('i');
    assert "from "[0] == 'f' && "import "[0] == 'i';
  }

  lemma {:induction false} LinesOfAppend(xs: seq<string>, ys: seq<string>)
    ensures LinesOf(xs + ys) == LinesOf(xs) + LinesOf(ys)
    decreases |ys|
  {
    if ys == [] {
      assert xs + ys == xs;
    } else {
      var ys', y := ys[..|ys| - 1], ys[|ys| - 1];
      LinesOfAppend(xs, ys');
      assert ys == ys' + [y];
      assert xs + ys == (xs + ys') + [y];
      LinesOfSnoc(xs + ys', y);
      LinesOfSnoc(ys', y);
      var a, b := LinesOf(xs), LinesOf(ys');
      assert a + b + (y + "\n") == a + (b + (y + "\n"));
    }
  }

  lemma {:induction false} JoinAppend(sep: string, xs: seq<string>, x: string)
    requires xs != []
    ensures Join(sep, xs + [x]) == Join(sep, xs) + sep + x
    decreases |xs|
  {
    if |xs| == 1 {
      assert (xs + [x])[1..] == [x];
    } else {
      assert (xs + [x])[1..] == xs[1..] + [x];
      JoinAppend(sep, xs[1..], x);
    }
  }

  /** Lines each followed by a newline are the lines joined by newlines, plus a final newline. */
  lemma {:induction false} LinesOfJoin(ls: seq<string>)
    requires ls != []
    ensures LinesOf(ls) == Join("\n", ls) + "\n"
    decreases |ls|
  {
    var init := ls[..|ls| - 1];
    if init == [] {
      assert ls == [ls[0]];
    } else {
      LinesOfJoin(init);
      JoinAppend("\n", init, ls[|ls| - 1]);
      assert init + [ls[|ls| - 1]] == ls;
    }
  }

  /** The raw lines, each followed by a newline, are the candidate followed by one newline. */
  lemma LinesOfSplit(raw: string)
    ensures LinesOf(Split(raw, '\n')) == raw + "\n"
  {
    LinesOfJoin(Split(raw, '\n'));
    JoinSplit(raw, '\n');
  }

  /** Cutting the lines anywhere cuts their text at the same place. */
  lemma LinesOfCut(ls: seq<string>, k: nat)
    requires k <= |ls|
    ensures LinesOf(ls[..k]) + LinesOf(ls[k..]) == LinesOf(ls)
  {
    LinesOfAppend(ls[..k], ls[k..]);
    assert ls[..k] + ls[k..] == ls;
  }

  /**
    `sol2` is the candidate with one newline added, and with the import header and the stdio
    lines inserted once, at the start of the first code line; without a code line, nothing is inserted.
   */
  lemma Sol2InsertsHeaderOnce(raw: string)
    ensures var ls := Split(raw, '\n');
            var k := CodeStart(LineTypes(ls));
            var before, after := LinesOf(ls[..k]), LinesOf(ls[k..]);
            before + after == raw + "\n"
            && Sol2Of(raw) == if k == |ls| then before else before + (NormalImportLines + StdioLines) + after
  {
    var ls := Split(raw, '\n');
    var k := CodeStart(LineTypes(ls));
    LinesOfCut(ls, k);
    LinesOfSplit(raw);
    if k == |ls| {
      assert ls[..k] == ls;
    }
  }

  /** With every line an import, `sol` is the plain import lines, whatever the header. */
  lemma SolWithNoCode(ls: seq<string>, ts: seq<nat>, header: string)
    requires |ts| == |ls|
    requires forall i :: 0 <= i < |ts| ==> ts[i] != 0
    ensures SolWith(ls, ts, header) == LinesOf(Kept(ls, ts))
  {
    assert CodeStart(ts) == |ts|;
  }

  /** Without any code line, `sol` is only the plain import lines, in order, with no header. */
  lemma SolWithoutCode(raw: string)
    requires forall x :: x in Split(raw, '\n') ==> LineType(x) != 0
    ensures var ls := Split(raw, '\n');
            SolOf(raw) == LinesOf(Kept(ls, LineTypes(ls)))
  {
    var ls := Split(raw, '\n');
    var ts := LineTypes(ls);
    forall i | 0 <= i < |ts| ensures ts[i] != 0 {
      assert ls[i] in ls;
    }
    SolWithNoCode(ls, ts, NormalImportLines + SolHeaderRest(ls, ts));
  }

  lemma PrefixAndSuffix(p: string, raw: string)
    ensures (p + raw)[..|p|] == p
    ensures (p + raw)[|p|..] == raw
  {
  }

  /** The call-based program is the import header followed by the candidate, unchanged. */
  lemma CbCodeKeepsCandidate(raw: string)
    ensures var r, n := SynthesizeCbCode(raw), |NormalImportLines|;
            n <= |r| && r[..n] == NormalImportLines && r[n..] == raw
  {
    PrefixAndSuffix(NormalImportLines, raw);
  }

  /**
    Every line goes either into the body of `sol` (type below 2) or, tab-stripped, into the
    wildcard imports after the header (type 2): no line is lost and none is emitted twice.
   */
  lemma {:induction false} KeptAndWildcardsPartition(ls: seq<string>, ts: seq<nat>)
    requires |ts| == |ls|
    requires forall i :: 0 <= i < |ts| ==> ts[i] <= 2
    ensures |Kept(ls, ts)| + |Wildcards(ls, ts)| == |ls|
    decreases |ls|
  {
    if ls != [] {
      var n := |ls| - 1;
      assert forall i :: 0 <= i < n ==> ts[..n][i] == ts[i];
      KeptAndWildcardsPartition(ls[..n], ts[..n]);
      assert Kept(ls, ts) == Kept(ls[..n], ts[..n]) + (if ts[n] < 2 then [ls[n]] else []);
      assert Wildcards(ls, ts) == Wildcards(ls[..n], ts[..n]) + (if ts[n] == 2 then [LStripChar(ls[n], '\t')] else []);
      assert ts[n] < 2 || ts[n] == 2;
    }
  }

  /** Every line of type below 2 reaches the body of `sol`. */
  lemma {:induction false} KeptHas(ls: seq<string>, ts: seq<nat>, i: nat)
    requires |ts| == |ls| && i < |ls| && ts[i] < 2
    ensures ls[i] in Kept(ls, ts)
    decreases |ls|
  {
    var n := |ls| - 1;
    if i < n {
      KeptHas(ls[..n], ts[..n], i);
    }
  }

  /** Every line of the body of `sol` comes from a line of type below 2, returned as `i`. */
  lemma {:induction false} KeptSource(ls: seq<string>, ts: seq<nat>, x: string) returns (i: nat)
    requires |ts| == |ls| && x in Kept(ls, ts)
    ensures i < |ls| && ts[i] < 2 && ls[i] == x
    decreases |ls|
  {
    assert ls != [];
    var n := |ls| - 1;
    if x in Kept(ls[..n], ts[..n]) {
      i := KeptSource(ls[..n], ts[..n], x);
    } else {
      i := n;
    }
  }

  /** The body of `sol` holds exactly the lines of the candidate whose type is below 2. */
  lemma KeptFromCandidate(ls: seq<string>, ts: seq<nat>)
    requires |ts| == |ls|
    ensures forall x :: x in Kept(ls, ts) <==> exists i :: 0 <= i < |ls| && ts[i] < 2 && ls[i] == x
  {
    forall x ensures x in Kept(ls, ts) <==> exists i :: 0 <= i < |ls| && ts[i] < 2 && ls[i] == x {
      if x in Kept(ls, ts) {
        var i := KeptSource(ls, ts, x);
      }
      if exists i :: 0 <= i < |ls| && ts[i] < 2 && ls[i] == x {
        var i :| 0 <= i < |ls| && ts[i] < 2 && ls[i] == x;
        KeptHas(ls, ts, i);
      }
    }
  }

  /** Every line of type 2 reaches the hoisted imports, tab-stripped. */
  lemma {:induction false} WildcardsHas(ls: seq<string>, ts: seq<nat>, i: nat)
    requires |ts| == |ls| && i < |ls| && ts[i] == 2
    ensures LStripChar(ls[i], '\t') in Wildcards(ls, ts)
    decreases |ls|
  {
    var n := |ls| - 1;
    if i < n {
      WildcardsHas(ls[..n], ts[..n], i);
    }
  }

  /** Every hoisted import comes from a line of type 2, returned as `i`. */
  lemma {:induction false} WildcardsSource(ls: seq<string>, ts: seq<nat>, x: string) returns (i: nat)
    requires |ts| == |ls| && x in Wildcards(ls, ts)
    ensures i < |ls| && ts[i] == 2 && LStripChar(ls[i], '\t') == x
    decreases |ls|
  {
    assert ls != [];
    var n := |ls| - 1;
    if x in Wildcards(ls[..n], ts[..n]) {
      i := WildcardsSource(ls[..n], ts[..n], x);
    } else {
      i := n;
    }
  }

  /** The hoisted imports are exactly the tab-stripped lines of the candidate whose type is 2. */
  lemma WildcardsFromCandidate(ls: seq<string>, ts: seq<nat>)
    requires |ts| == |ls|
    ensures forall x :: x in Wildcards(ls, ts) <==> exists i :: 0 <= i < |ls| && ts[i] == 2 && LStripChar(ls[i], '\t') == x
  {
    forall x ensures x in Wildcards(ls, ts) <==> exists i :: 0 <= i < |ls| && ts[i] == 2 && LStripChar(ls[i], '\t') == x {
      if x in Wildcards(ls, ts) {
        var i := WildcardsSource(ls, ts, x);
      }
      if exists i :: 0 <= i < |ls| && ts[i] == 2 && LStripChar(ls[i], '\t') == x {
        var i :| 0 <= i < |ls| && ts[i] == 2 && LStripChar(ls[i], '\t') == x;
        WildcardsHas(ls, ts, i);
      }
    }
  }

  /** One line goes to the body of `sol` when its type is below 2, and tab-stripped to the hoisted imports when it is 2. */
  lemma KeptAndWildcardsOfOne(x: string, y: nat)
    ensures Kept([x], [y]) == if y < 2 then [x] else []
    ensures Wildcards([x], [y]) == if y == 2 then [LStripChar(x, '\t')] else []
  {
    assert [x][..0] == [] && [y][..0] == [];
  }

  lemma WildcardsSnoc(xs: seq<string>, ys: seq<nat>, x: string, y: nat)
    requires |ys| == |xs|
    ensures Wildcards(xs + [x], ys + [y]) == Wildcards(xs, ys) + (if y == 2 then [LStripChar(x, '\t')] else [])
  {
    assert (xs + [x])[..|xs|] == xs;
    assert (ys + [y])[..|ys|] == ys;
  }

  /** The body of `sol` keeps the candidate's order: two consecutive blocks of lines contribute their lines in turn. */
  lemma {:induction false} KeptAppend(ls1: seq<string>, ts1: seq<nat>, ls2: seq<string>, ts2: seq<nat>)
    requires |ts1| == |ls1| && |ts2| == |ls2|
    ensures Kept(ls1 + ls2, ts1 + ts2) == Kept(ls1, ts1) + Kept(ls2, ts2)
    decreases |ls2|
  {
    if ls2 == [] {
      assert ls1 + ls2 == ls1 && ts1 + ts2 == ts1;
    } else {
      var n := |ls2| - 1;
      var init, tinit := ls2[..n], ts2[..n];
      KeptAppend(ls1, ts1, init, tinit);
      assert ls1 + ls2 == (ls1 + init) + [ls2[n]];
      assert ts1 + ts2 == (ts1 + tinit) + [ts2[n]];
      assert ls2 == init + [ls2[n]] && ts2 == tinit + [ts2[n]];
      KeptSnoc(ls1 + init, ts1 + tinit, ls2[n], ts2[n]);
      KeptSnoc(init, tinit, ls2[n], ts2[n]);
    }
  }

  /** The hoisted imports keep the candidate's order in the same way. */
  lemma {:induction false} WildcardsAppend(ls1: seq<string>, ts1: seq<nat>, ls2: seq<string>, ts2: seq<nat>)
    requires |ts1| == |ls1| && |ts2| == |ls2|
    ensures Wildcards(ls1 + ls2, ts1 + ts2) == Wildcards(ls1, ts1) + Wildcards(ls2, ts2)
    decreases |ls2|
  {
    if ls2 == [] {
      assert ls1 + ls2 == ls1 && ts1 + ts2 == ts1;
    } else {
      var n := |ls2| - 1;
      var init, tinit := ls2[..n], ts2[..n];
      WildcardsAppend(ls1, ts1, init, tinit);
      assert ls1 + ls2 == (ls1 + init) + [ls2[n]];
      assert ts1 + ts2 == (ts1 + tinit) + [ts2[n]];
      assert ls2 == init + [ls2[n]] && ts2 == tinit + [ts2[n]];
      WildcardsSnoc(ls1 + init, ts1 + tinit, ls2[n], ts2[n]);
      WildcardsSnoc(init, tinit, ls2[n], ts2[n]);
    }
  }
}
