/**
  Python values as they flow through the test harness: the literals a test specification
  holds, the values a candidate function returns, and the three operations the harness applies
  to them: `==`, subscription `v[i]` / `d[k]`, and iteration (`for x in v`, `f(*v)`, `list(v)`).
  Two kinds of object lie outside the literal kinds, each carrying its identity:
  `PyObject` is an object that keeps the default `==` of `object` (an instance of a class of
  the candidate's own, a `map`, `filter` or generator object), equal only to itself, and
  `PyOpaque` is an object whose `==` raises (as a multi-element numpy array does once its
  truth value is asked for).
 */
module PyValues {
  import opened Wrappers
  import PyText

  datatype FloatValue = Finite(r: real) | Infinity(negative: bool) | NaN

  datatype PyValue =
    | PyNone
    | PyBool(b: bool)
    | PyInt(i: int)
    | PyFloat(f: FloatValue)
    | PyStr(s: string)
    | PyList(items: seq<PyValue>)
    | PyTuple(items: seq<PyValue>)
    | PyDict(entries: seq<Entry>)   // in insertion order
    | PyObject(id: nat)   // compared by identity
    | PyOpaque(tag: nat)  // `tag` is its identity; `==` raises

  datatype Entry = Entry(key: PyValue, value: PyValue)

  /** The outcome of evaluating `a == b`: its truth value, or an exception. */
  datatype Cmp = Equal | Unequal | Raises

  /** Result of looking a key up in a dict. */
  datatype Lookup = Hit(value: PyValue) | Miss | LookupRaised

  /** The numeric value of a `bool`, `int` or `float`; Python compares these three across types. */
  function NumOf(v: PyValue): Option<FloatValue>
  {
    match v
    case PyBool(b) => Some(Finite(if b then 1.0 else 0.0))
    case PyInt(i) => Some(Finite(i as real))
    case PyFloat(f) => Some(f)
    case _ => None
  }

  /** Numeric equality: exact on finite values, by sign on infinities, never for NaN. */
  predicate NumEq(x: FloatValue, y: FloatValue)
  {
    match (x, y)
    case (Finite(r), Finite(q)) => r == q
    case (Infinity(n), Infinity(m)) => n == m
    case _ => false
  }

  function FromBool(b: bool): Cmp {
    if b then Equal else Unequal
  }

  /**
    Python's `a == b`. Lists and tuples compare lengths first and then elements from the left,
    stopping at the first element that is not equal; dicts compare sizes and then look each
    key of `a` up in `b` and compare the values; a list never equals a tuple. An object with
    the default `==` is equal only to itself.
   */
  function PyEq(a: PyValue, b: PyValue): Cmp
    decreases a, 0
  {
    if a.PyOpaque? || b.PyOpaque? then Raises
    else if a.PyObject? || b.PyObject? then FromBool(a == b)
    else if NumOf(a).Some? && NumOf(b).Some? then FromBool(NumEq(NumOf(a).value, NumOf(b).value))
    else
      match (a, b)
      case (PyNone, PyNone) => Equal
      case (PyStr(s), PyStr(t)) => FromBool(s == t)
      case (PyList(xs), PyList(ys)) => if |xs| != |ys| then Unequal else ElemsCmp(xs, ys)
      case (PyTuple(xs), PyTuple(ys)) => if |xs| != |ys| then Unequal else ElemsCmp(xs, ys)
      case (PyDict(es), PyDict(fs)) => if |es| != |fs| then Unequal else EntriesCmp(es, fs)
      case _ => Unequal
  }

  /** The same object on both sides: only objects carry an identity in this model. */
  predicate Identical(a: PyValue, b: PyValue)
  {
    (a.PyObject? || a.PyOpaque?) && a == b
  }

  /**
    The comparison containers apply to their elements, keys and values: the identical object
    is equal without its `==` being called, otherwise `a == b`.
   */
  function ItemEq(a: PyValue, b: PyValue): Cmp
    decreases a, 1
  {
    if Identical(a, b) then Equal else PyEq(a, b)
  }

  /** Element-wise comparison of two equally long sequences, left to right. */
  function ElemsCmp(xs: seq<PyValue>, ys: seq<PyValue>): Cmp
    requires |xs| == |ys|
    decreases xs
  {
    if xs == [] then Equal
    else
      match ItemEq(xs[0], ys[0])
      case Equal => ElemsCmp(xs[1..], ys[1..])
      case c => c
  }

  /** Every entry of `es` has an equal counterpart in the dict `fs`. */
  function EntriesCmp(es: seq<Entry>, fs: seq<Entry>): Cmp
    decreases es
  {
    if es == [] then Equal
    else
      match EntryCmp(es[0], fs)
      case Equal => EntriesCmp(es[1..], fs)
      case c => c
  }

  function EntryCmp(e: Entry, fs: seq<Entry>): Cmp
    decreases e
  {
    match Find(fs, e.key)
    case Hit(v) => ItemEq(e.value, v)
    case Miss => Unequal
    case LookupRaised => Raises
  }

  /** `fs[k]`: the value of the first entry whose key equals `k`. */
  function Find(fs: seq<Entry>, k: PyValue): Lookup
    decreases k, |fs| + 1
  {
    if fs == [] then Miss
    else
      match ItemEq(k, fs[0].key)
      case Equal => Hit(fs[0].value)
      case Unequal => Find(fs[1..], k)
      case Raises => LookupRaised
  }

  /** `v[i]` for a non-negative `int` index; `None` when Python raises. */
  function Subscript(v: PyValue, i: nat): Option<PyValue>
  {
    match v
    case PyList(xs) => if i < |xs| then Some(xs[i]) else None
    case PyTuple(xs) => if i < |xs| then Some(xs[i]) else None
    case PyStr(s) => if i < |s| then Some(PyStr([s[i]])) else None
    case PyDict(es) => (match Find(es, PyInt(i)) case Hit(x) => Some(x) case _ => None)
    case _ => None
  }

  /** `d[s]` for a string key, on a dict value; `None` when Python raises. */
  function GetStr(es: seq<Entry>, s: string): Option<PyValue>
  {
    match Find(es, PyStr(s))
    case Hit(x) => Some(x)
    case _ => None
  }

  /** The one-character strings of `s`, which is what iterating a `str` yields. */
  function Chars(s: string): (r: seq<PyValue>)
    ensures |r| == |s| && forall i :: 0 <= i < |s| ==> r[i] == PyStr([s[i]])
  {
    seq(|s|, i requires 0 <= i < |s| => PyStr([s[i]]))
  }

  function Keys(es: seq<Entry>): (r: seq<PyValue>)
    ensures |r| == |es| && forall i :: 0 <= i < |es| ==> r[i] == es[i].key
  {
    seq(|es|, i requires 0 <= i < |es| => es[i].key)
  }

  /** The elements `for x in v` visits (also the arguments `f(*v)` passes); `None` if `v` is not iterable. */
  function Iterate(v: PyValue): Option<seq<PyValue>>
  {
    match v
    case PyList(xs) => Some(xs)
    case PyTuple(xs) => Some(xs)
    case PyStr(s) => Some(Chars(s))
    case PyDict(es) => Some(Keys(es))
    case _ => None
  }

  /** `list(v)`. */
  function ToList(v: PyValue): Option<PyValue>
  {
    match Iterate(v)
    case Some(xs) => Some(PyList(xs))
    case None => None
  }

  /**
    `str(v)`: strings are themselves, integers and booleans and `None` print as Python prints
    them; the text of floats, containers and other objects is given by `other`.
   */
  function StrOf(v: PyValue, other: PyValue -> string): string
  {
    match v
    case PyStr(s) => s
    case PyInt(i) => PyText.IntToDecimal(i)
    case PyBool(b) => if b then "True" else "False"
    case PyNone => "None"
    case _ => other(v)
  }

  /**
    A value whose `==` never raises and is reflexive: built from the literal kinds and objects
    with the default `==`, without NaN (which is unequal to itself) and without an object whose
    `==` raises, and whose dicts have pairwise unequal keys.
   */
  predicate Plain(v: PyValue)
    decreases v
  {
    match v
    case PyFloat(f) => !f.NaN?
    case PyOpaque(_) => false
    case PyList(xs) => forall i :: 0 <= i < |xs| ==> Plain(xs[i])
    case PyTuple(xs) => forall i :: 0 <= i < |xs| ==> Plain(xs[i])
    case PyDict(es) =>
      (forall i :: 0 <= i < |es| ==> PlainEntry(es[i]))
      && forall i, j :: 0 <= i < |es| && 0 <= j < |es| && i != j ==> ItemEq(es[i].key, es[j].key) == Unequal
    case _ => true
  }

  predicate PlainEntry(e: Entry)
    decreases e
  {
    Plain(e.key) && Plain(e.value)
  }

  /** On plain values `==` never raises. */
  lemma {:induction false} PyEqNoRaise(a: PyValue, b: PyValue)
    requires Plain(a) && Plain(b)
    ensures PyEq(a, b) != Raises
    decreases a, 0
  {
    if NumOf(a).Some? && NumOf(b).Some? {
    } else {
      match (a, b)
      case (PyList(xs), PyList(ys)) => if |xs| == |ys| { ElemsNoRaise(xs, ys); }
      case (PyTuple(xs), PyTuple(ys)) => if |xs| == |ys| { ElemsNoRaise(xs, ys); }
      case (PyDict(es), PyDict(fs)) => if |es| == |fs| { EntriesNoRaise(es, fs); }
      case _ =>
    }
  }

  lemma {:induction false} ElemsNoRaise(xs: seq<PyValue>, ys: seq<PyValue>)
    requires |xs| == |ys|
    requires forall i :: 0 <= i < |xs| ==> Plain(xs[i]) && Plain(ys[i])
    ensures ElemsCmp(xs, ys) != Raises
    decreases xs
  {
    if xs != [] {
      PyEqNoRaise(xs[0], ys[0]);
      ElemsNoRaise(xs[1..], ys[1..]);
    }
  }

  lemma {:induction false} EntriesNoRaise(es: seq<Entry>, fs: seq<Entry>)
    requires forall i :: 0 <= i < |es| ==> PlainEntry(es[i])
    requires forall i :: 0 <= i < |fs| ==> PlainEntry(fs[i])
    ensures EntriesCmp(es, fs) != Raises
    decreases es
  {
    if es != [] {
      EntryNoRaise(es[0], fs);
      EntriesNoRaise(es[1..], fs);
    }
  }

  lemma {:induction false} EntryNoRaise(e: Entry, fs: seq<Entry>)
    requires PlainEntry(e)
    requires forall i :: 0 <= i < |fs| ==> PlainEntry(fs[i])
    ensures EntryCmp(e, fs) != Raises
    decreases e
  {
    FindNoRaise(fs, e.key);
    match Find(fs, e.key)
    case Hit(v) => PyEqNoRaise(e.value, v);
    case Miss =>
    case LookupRaised =>
  }

  /** Looking a plain key up among plain entries never raises, and a hit is one of the values. */
  lemma {:induction false} FindNoRaise(fs: seq<Entry>, k: PyValue)
    requires Plain(k)
    requires forall i :: 0 <= i < |fs| ==> PlainEntry(fs[i])
    ensures Find(fs, k) != LookupRaised
    ensures Find(fs, k).Hit? ==> Plain(Find(fs, k).value)
    decreases k, |fs| + 1
  {
    if fs != [] {
      PyEqNoRaise(k, fs[0].key);
      FindNoRaise(fs[1..], k);
    }
  }

  /** On plain values `==` is reflexive. */
  lemma {:induction false} PyEqReflexive(a: PyValue)
    requires Plain(a)
    ensures PyEq(a, a) == Equal
    decreases a, 2
  {
    if NumOf(a).Some? {
    } else {
      match a
      case PyList(xs) => ElemsReflexive(xs);
      case PyTuple(xs) => ElemsReflexive(xs);
      case PyDict(es) => EntriesReflexive(es, 0);
      case _ =>
    }
  }

  lemma {:induction false} ElemsReflexive(xs: seq<PyValue>)
    requires forall i :: 0 <= i < |xs| ==> Plain(xs[i])
    ensures ElemsCmp(xs, xs) == Equal
    decreases xs
  {
    if xs != [] {
      PyEqReflexive(xs[0]);
      ElemsReflexive(xs[1..]);
    }
  }

  lemma {:induction false} EntryReflexive(e: Entry)
    requires PlainEntry(e)
    ensures ItemEq(e.key, e.key) == Equal && ItemEq(e.value, e.value) == Equal
    decreases e
  {
    PyEqReflexive(e.key);
    PyEqReflexive(e.value);
  }

  /**
    Containers compare their items by identity first: a list or tuple of plain values and of
    objects whose `==` raises equals itself, although each such object compared with itself
    directly raises.
   */
  lemma {:induction false} SameItemsEqual(xs: seq<PyValue>)
    requires forall i :: 0 <= i < |xs| ==> Plain(xs[i]) || xs[i].PyOpaque?
    ensures ElemsCmp(xs, xs) == Equal
    ensures PyEq(PyList(xs), PyList(xs)) == Equal && PyEq(PyTuple(xs), PyTuple(xs)) == Equal
    ensures forall i :: 0 <= i < |xs| && xs[i].PyOpaque? ==> PyEq(xs[i], xs[i]) == Raises
  {
    if xs != [] {
      if !xs[0].PyOpaque? {
        PyEqReflexive(xs[0]);
      }
      SameItemsEqual(xs[1..]);
    }
  }

  /** The entries of a plain dict from index `n` on are each found, with an equal value, in the dict itself. */
  lemma {:induction false} EntriesReflexive(es: seq<Entry>, n: nat)
    requires Plain(PyDict(es))
    requires n <= |es|
    ensures EntriesCmp(es[n..], es) == Equal
    decreases PyDict(es), 1, |es| - n
  {
    if n < |es| {
      FindOwnKey(es, n, 0);
      EntryReflexive(es[n]);
      EntriesReflexive(es, n + 1);
      assert es[n..][1..] == es[n + 1..];
    }
  }

  /** In a plain dict, looking up the key of entry `n` from position `m <= n` finds entry `n`. */
  lemma {:induction false} FindOwnKey(es: seq<Entry>, n: nat, m: nat)
    requires Plain(PyDict(es))
    requires m <= n < |es|
    ensures Find(es[m..], es[n].key) == Hit(es[n].value)
    decreases PyDict(es), 0, n - m
  {
    assert PlainEntry(es[n]);
    assert es[m..][0] == es[m];
    if m == n {
      EntryReflexive(es[n]);
    } else {
      assert ItemEq(es[n].key, es[m].key) == Unequal;
      FindOwnKey(es, n, m + 1);
      assert es[m..][1..] == es[m + 1..];
    }
  }
}
