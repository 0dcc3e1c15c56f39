/**
  Test-specification normalisation (`process_input_output` in rllm/rewards/code_utils/taco.py).
  JSON turns integer dict keys into strings; this step turns them back into integers when the
  input (or the output) is a dict, or a list whose first element is a dict, and wraps the
  converted dict into a one-element list. Any exception while doing so leaves the value as it was.
 */
module Normalize {
  import opened Wrappers
  import opened PyValues

  /** Python's `int(x)` on a float: truncation toward zero. */
  function Trunc(r: real): (n: int)
    ensures r >= 0.0 ==> n as real <= r < n as real + 1.0
    ensures r < 0.0 ==> n as real - 1.0 < r <= n as real
  {
    if r >= 0.0 then r.Floor else -((-r).Floor)
  }

  /** `int(k)`; the text-to-integer conversion of `int(str)` is `parseInt`. `None` when it raises. */
  function IntOf(k: PyValue, parseInt: string -> Option<int>): Option<int>
  {
    match k
    case PyInt(i) => Some(i)
    case PyBool(b) => Some(if b then 1 else 0)
    case PyStr(s) => parseInt(s)
    case PyFloat(Finite(r)) => Some(Trunc(r))
    case _ => None
  }

  /** Every key is an `int` and no two keys are the same. */
  predicate IntKeyed(es: seq<Entry>) {
    (forall i :: 0 <= i < |es| ==> es[i].key.PyInt?)
    && forall i, j :: 0 <= i < j < |es| ==> es[i].key != es[j].key
  }

  /** `d[k] = v` on an int-keyed dict: an existing key keeps its place and takes the new value; a new key goes last. */
  function SetIntKey(es: seq<Entry>, k: int, v: PyValue): seq<Entry>
  {
    if es == [] then [Entry(PyInt(k), v)]
    else if es[0].key == PyInt(k) then [Entry(PyInt(k), v)] + es[1..]
    else [es[0]] + SetIntKey(es[1..], k, v)
  }

  /** `{int(k): v for k, v in d.items()}`; `None` when some `int(k)` raises. */
  function ConvertKeys(es: seq<Entry>, parseInt: string -> Option<int>): Option<seq<Entry>>
  {
    ConvertInto(es, parseInt, [])
  }

  function ConvertInto(es: seq<Entry>, parseInt: string -> Option<int>, acc: seq<Entry>): Option<seq<Entry>>
    decreases es
  {
    if es == [] then Some(acc)
    else
      match IntOf(es[0].key, parseInt)
      case None => None
      case Some(k) => ConvertInto(es[1..], parseInt, SetIntKey(acc, k, es[0].value))
  }

  /** `[{int(k): v for k, v in d.items()}]`, or `fallback` when a conversion raises. */
  function Rehydrate(es: seq<Entry>, fallback: PyValue, parseInt: string -> Option<int>): PyValue
  {
    match ConvertKeys(es, parseInt)
    case Some(c) => PyList([PyDict(c)])
    case None => fallback
  }

  /** The input half: `if isinstance(inputs[0], dict): inputs = [...]`, exceptions swallowed. */
  function NormalizeInputs(inputs: PyValue, parseInt: string -> Option<int>): PyValue
  {
    match Subscript(inputs, 0)
    case Some(PyDict(es)) => Rehydrate(es, inputs, parseInt)
    case _ => inputs
  }

  /** The output half: first a bare dict, then a dict at `outputs[0]`, each exception swallowed. */
  function NormalizeOutputs(outputs: PyValue, parseInt: string -> Option<int>): PyValue
  {
    var first := match outputs
      case PyDict(es) => Rehydrate(es, outputs, parseInt)
      case _ => outputs;
    NormalizeInputs(first, parseInt)
  }

  /** `process_input_output(inputs, outputs)`. */
  function ProcessInputOutput(inputs: PyValue, outputs: PyValue, parseInt: string -> Option<int>): (PyValue, PyValue)
  {
    (NormalizeInputs(inputs, parseInt), NormalizeOutputs(outputs, parseInt))
  }

  // ---------------------------------------------------------------------------------------
  // Properties

  /** Every key of `es` converts, and no two keys convert to the same integer. */
  predicate ConvertsInjectively(es: seq<Entry>, parseInt: string -> Option<int>) {
    (forall i :: 0 <= i < |es| ==> IntOf(es[i].key, parseInt).Some?)
    && forall i, j :: 0 <= i < j < |es| ==> IntOf(es[i].key, parseInt) != IntOf(es[j].key, parseInt)
  }

  /** The entries with each key replaced by its integer and each value unchanged. */
  function Converted(es: seq<Entry>, parseInt: string -> Option<int>): (r: seq<Entry>)
    requires forall i :: 0 <= i < |es| ==> IntOf(es[i].key, parseInt).Some?
    ensures |r| == |es|
    ensures forall i :: 0 <= i < |es| ==> r[i] == Entry(PyInt(IntOf(es[i].key, parseInt).value), es[i].value)
  {
    seq(|es|, i requires 0 <= i < |es| => Entry(PyInt(IntOf(es[i].key, parseInt).value), es[i].value))
  }

  /** A key not present yet is appended. */
  lemma {:induction false} SetIntKeyNew(es: seq<Entry>, k: int, v: PyValue)
    requires forall i :: 0 <= i < |es| ==> es[i].key != PyInt(k)
    ensures SetIntKey(es, k, v) == es + [Entry(PyInt(k), v)]
  {
    if es != [] {
      SetIntKeyNew(es[1..], k, v);
      assert [es[0]] + (es[1..] + [Entry(PyInt(k), v)]) == es + [Entry(PyInt(k), v)];
    }
  }

  /** Setting a key only ever adds that key. */
  lemma {:induction false} SetIntKeyKeys(es: seq<Entry>, k: int, v: PyValue)
    ensures forall x :: x in Keys(SetIntKey(es, k, v)) ==> x in Keys(es) || x == PyInt(k)
  {
    var r := SetIntKey(es, k, v);
    if es == [] {
    } else if es[0].key == PyInt(k) {
      forall x | x in Keys(r) ensures x in Keys(es) || x == PyInt(k) {
        var i :| 0 <= i < |r| && Keys(r)[i] == x;
        if i > 0 { assert r[i] == es[i] && Keys(es)[i] == x; }
      }
    } else {
      var tail := es[1..];
      SetIntKeyKeys(tail, k, v);
      var t := SetIntKey(tail, k, v);
      assert r == [es[0]] + t;
      forall x | x in Keys(r) ensures x in Keys(es) || x == PyInt(k) {
        var i :| 0 <= i < |r| && Keys(r)[i] == x;
        if i > 0 {
          assert Keys(t)[i - 1] == x;
          if x in Keys(tail) {
            var j :| 0 <= j < |tail| && Keys(tail)[j] == x;
            assert Keys(es)[j + 1] == x;
          }
        } else {
          assert Keys(es)[0] == x;
        }
      }
    }
  }

  /** Setting a key keeps a dict int-keyed, and only ever adds that key. */
  lemma {:induction false} SetIntKeyIntKeyed(es: seq<Entry>, k: int, v: PyValue)
    requires IntKeyed(es)
    ensures IntKeyed(SetIntKey(es, k, v))
    ensures forall x :: x in Keys(SetIntKey(es, k, v)) ==> x in Keys(es) || x == PyInt(k)
  {
    SetIntKeyKeys(es, k, v);
    var r := SetIntKey(es, k, v);
    if es == [] {
    } else if es[0].key == PyInt(k) {
      assert forall i :: 1 <= i < |r| ==> r[i] == es[i];
    } else {
      var tail := es[1..];
      assert IntKeyed(tail);
      SetIntKeyIntKeyed(tail, k, v);
      var t := SetIntKey(tail, k, v);
      assert r == [es[0]] + t;
      forall i, j | 0 <= i < j < |r| ensures r[i].key != r[j].key {
        if i == 0 {
          assert r[j].key == Keys(t)[j - 1];
          if r[j].key in Keys(tail) {
            var m :| 0 <= m < |tail| && Keys(tail)[m] == r[j].key;
            assert es[m + 1].key == r[j].key;
          }
        } else {
          assert r[i] == t[i - 1] && r[j] == t[j - 1];
        }
      }
    }
  }

  /** Converted keys always form an int-keyed dict. */
  lemma {:induction false} ConvertIntoIntKeyed(es: seq<Entry>, parseInt: string -> Option<int>, acc: seq<Entry>)
    requires IntKeyed(acc)
    ensures ConvertInto(es, parseInt, acc).Some? ==> IntKeyed(ConvertInto(es, parseInt, acc).value)
    decreases es
  {
    if es != [] {
      match IntOf(es[0].key, parseInt)
      case None =>
      case Some(k) =>
        SetIntKeyIntKeyed(acc, k, es[0].value);
        ConvertIntoIntKeyed(es[1..], parseInt, SetIntKey(acc, k, es[0].value));
    }
  }

  /** The conversion fails exactly when some key fails to convert. */
  lemma {:induction false} ConvertIntoFails(es: seq<Entry>, parseInt: string -> Option<int>, acc: seq<Entry>)
    ensures ConvertInto(es, parseInt, acc).None? <==> exists i :: 0 <= i < |es| && IntOf(es[i].key, parseInt).None?
    decreases es
  {
    if es != [] {
      match IntOf(es[0].key, parseInt)
      case None =>
      case Some(k) =>
        ConvertIntoFails(es[1..], parseInt, SetIntKey(acc, k, es[0].value));
        if exists i :: 0 <= i < |es| && IntOf(es[i].key, parseInt).None? {
          var i :| 0 <= i < |es| && IntOf(es[i].key, parseInt).None?;
          assert es[1..][i - 1] == es[i];
        }
        if exists i :: 0 <= i < |es[1..]| && IntOf(es[1..][i].key, parseInt).None? {
          var i :| 0 <= i < |es[1..]| && IntOf(es[1..][i].key, parseInt).None?;
          assert es[i + 1] == es[1..][i];
        }
    }
  }

  /** With distinct converted keys, the conversion appends each entry with its integer key, in order. */
  lemma {:induction false} ConvertIntoInjective(es: seq<Entry>, parseInt: string -> Option<int>, acc: seq<Entry>)
    requires ConvertsInjectively(es, parseInt)
    requires forall i, j :: 0 <= i < |acc| && 0 <= j < |es| ==> acc[i].key != PyInt(IntOf(es[j].key, parseInt).value)
    ensures ConvertInto(es, parseInt, acc) == Some(acc + Converted(es, parseInt))
    decreases es
  {
    if es == [] {
      assert acc + Converted(es, parseInt) == acc;
    } else {
      var k := IntOf(es[0].key, parseInt).value;
      SetIntKeyNew(acc, k, es[0].value);
      var acc' := acc + [Entry(PyInt(k), es[0].value)];
      var tail := es[1..];
      assert ConvertsInjectively(tail, parseInt) by {
        forall i, j | 0 <= i < j < |tail| ensures IntOf(tail[i].key, parseInt) != IntOf(tail[j].key, parseInt) {
          assert tail[i] == es[i + 1] && tail[j] == es[j + 1];
        }
      }
      forall i, j | 0 <= i < |acc'| && 0 <= j < |tail|
        ensures acc'[i].key != PyInt(IntOf(tail[j].key, parseInt).value)
      {
        assert tail[j] == es[j + 1];
        if i == |acc| {
          assert IntOf(es[0].key, parseInt) != IntOf(es[j + 1].key, parseInt);
        }
      }
      ConvertIntoInjective(tail, parseInt, acc');
      assert acc' + Converted(tail, parseInt) == acc + Converted(es, parseInt);
    }
  }

  /** Converting an int-keyed dict gives it back unchanged. */
  lemma ConvertKeysOfIntKeyed(c: seq<Entry>, parseInt: string -> Option<int>)
    requires IntKeyed(c)
    ensures ConvertKeys(c, parseInt) == Some(c)
  {
    assert ConvertsInjectively(c, parseInt);
    ConvertIntoInjective(c, parseInt, []);
    assert Converted(c, parseInt) == c;
    assert [] + c == c;
  }

  /** `inputs[0]` a dict whose keys all convert to distinct integers: inputs becomes `[that dict, int-keyed]`. */
  lemma InputsRehydrated(inputs: PyValue, outputs: PyValue, es: seq<Entry>, parseInt: string -> Option<int>)
    requires Subscript(inputs, 0) == Some(PyDict(es))
    requires ConvertsInjectively(es, parseInt)
    ensures ProcessInputOutput(inputs, outputs, parseInt).0 == PyList([PyDict(Converted(es, parseInt))])
  {
    ConvertIntoInjective(es, parseInt, []);
    assert [] + Converted(es, parseInt) == Converted(es, parseInt);
  }

  /** Whether or not the keys collide, a successful conversion yields a one-element list of an int-keyed dict. */
  lemma InputsRehydratedIntKeyed(inputs: PyValue, outputs: PyValue, es: seq<Entry>, parseInt: string -> Option<int>)
    requires Subscript(inputs, 0) == Some(PyDict(es))
    requires forall i :: 0 <= i < |es| ==> IntOf(es[i].key, parseInt).Some?
    ensures Wrapped(ProcessInputOutput(inputs, outputs, parseInt).0)
  {
    ConvertIntoFails(es, parseInt, []);
    ConvertIntoIntKeyed(es, parseInt, []);
  }

  /** A key that fails to convert leaves the inputs exactly as they were. */
  lemma InputsKeptOnFailure(inputs: PyValue, outputs: PyValue, es: seq<Entry>, parseInt: string -> Option<int>, i: nat)
    requires Subscript(inputs, 0) == Some(PyDict(es))
    requires i < |es| && IntOf(es[i].key, parseInt).None?
    ensures ProcessInputOutput(inputs, outputs, parseInt).0 == inputs
  {
    ConvertIntoFails(es, parseInt, []);
  }

  /** A bare dict output whose keys convert injectively becomes `[that dict, int-keyed]`. */
  lemma BareDictOutputWrapped(inputs: PyValue, es: seq<Entry>, parseInt: string -> Option<int>)
    requires ConvertsInjectively(es, parseInt)
    ensures ProcessInputOutput(inputs, PyDict(es), parseInt).1 == PyList([PyDict(Converted(es, parseInt))])
  {
    ConvertIntoInjective(es, parseInt, []);
    var c := Converted(es, parseInt);
    assert [] + c == c;
    assert Rehydrate(es, PyDict(es), parseInt) == PyList([PyDict(c)]);
    ConvertIntoIntKeyed(es, parseInt, []);
    ConvertKeysOfIntKeyed(c, parseInt);
    assert Subscript(PyList([PyDict(c)]), 0) == Some(PyDict(c));
  }

  /** The shape normalisation produces: a one-element list holding an int-keyed dict. */
  predicate Wrapped(v: PyValue) {
    v.PyList? && |v.items| == 1 && v.items[0].PyDict? && IntKeyed(v.items[0].entries)
  }

  lemma RehydrateShape(es: seq<Entry>, fallback: PyValue, parseInt: string -> Option<int>)
    ensures Rehydrate(es, fallback, parseInt) == fallback || Wrapped(Rehydrate(es, fallback, parseInt))
  {
    ConvertIntoIntKeyed(es, parseInt, []);
  }

  lemma NormalizeInputsShape(v: PyValue, parseInt: string -> Option<int>)
    ensures NormalizeInputs(v, parseInt) == v || Wrapped(NormalizeInputs(v, parseInt))
  {
    match Subscript(v, 0)
    case Some(PyDict(es)) => RehydrateShape(es, v, parseInt);
    case _ =>
  }

  lemma WrappedFixed(w: PyValue, parseInt: string -> Option<int>)
    requires Wrapped(w)
    ensures NormalizeInputs(w, parseInt) == w && NormalizeOutputs(w, parseInt) == w
  {
    ConvertKeysOfIntKeyed(w.items[0].entries, parseInt);
  }

  /** Normalising an already normalised pair changes nothing. */
  lemma ProcessIdempotent(inputs: PyValue, outputs: PyValue, parseInt: string -> Option<int>)
    ensures var (i1, o1) := ProcessInputOutput(inputs, outputs, parseInt);
            ProcessInputOutput(i1, o1, parseInt) == (i1, o1)
  {
    var i1 := NormalizeInputs(inputs, parseInt);
    NormalizeInputsShape(inputs, parseInt);
    if Wrapped(i1) { WrappedFixed(i1, parseInt); }
    var first := match outputs
      case PyDict(es) => Rehydrate(es, outputs, parseInt)
      case _ => outputs;
    match outputs {
      case PyDict(es) => RehydrateShape(es, outputs, parseInt);
      case _ =>
    }
    var o1 := NormalizeInputs(first, parseInt);
    assert o1 == NormalizeOutputs(outputs, parseInt);
    NormalizeInputsShape(first, parseInt);
    if Wrapped(o1) {
      WrappedFixed(o1, parseInt);
    } else if Wrapped(first) {
      WrappedFixed(first, parseInt);
    } else {
      assert o1 == first && first == outputs;
    }
  }
}
