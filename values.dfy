/** A parsed YAML/JSON document, and the handful of Python operators the
    policy engine and the collectors apply to one. */
module Values {
  import opened Wrappers
  import opened Text

  /** What `yaml.safe_load` / `json.loads` can hand back. A dictionary is an
      association list in insertion order whose keys are strings; a Python
      dict never holds a key twice, so lookups take the first entry. */
  datatype Value =
    | Null
    | Bool(b: bool)
    | Int(i: int)
    | Str(s: string)
    | List(items: seq<Value>)
    | Dict(entries: seq<(string, Value)>)

  /** The exceptions Python raises on the paths modelled here. */
  datatype PyError = KeyError | TypeError | AttributeError | ValueError

  function Sum(ns: seq<nat>): nat {
    if ns == [] then 0 else ns[0] + Sum(ns[1..])
  }

  lemma {:induction false} SumBounds(ns: seq<nat>, k: nat)
    requires k < |ns|
    ensures ns[k] <= Sum(ns)
  {
    if k > 0 {
      SumBounds(ns[1..], k - 1);
    }
  }

  /** Number of nodes, counting a dictionary entry's key as a node: the
      termination measure of every walk over a document. */
  function Size(v: Value): nat {
    match v
    case List(xs) => 1 + Sum(seq(|xs|, i requires 0 <= i < |xs| => Size(xs[i])))
    case Dict(es) => 1 + Sum(seq(|es|, i requires 0 <= i < |es| => 1 + Size(es[i].1)))
    case _ => 1
  }

  lemma ItemSmaller(xs: seq<Value>, k: nat)
    requires k < |xs|
    ensures Size(xs[k]) < Size(List(xs))
  {
    var ns := seq(|xs|, i requires 0 <= i < |xs| => Size(xs[i]));
    SumBounds(ns, k);
  }

  lemma EntrySmaller(es: seq<(string, Value)>, k: nat)
    requires k < |es|
    ensures 1 + Size(es[k].1) < Size(Dict(es))
  {
    var ns := seq(|es|, i requires 0 <= i < |es| => 1 + Size(es[i].1));
    SumBounds(ns, k);
  }

  /** The value stored under `key`, if any. */
  function Lookup(es: seq<(string, Value)>, key: string): Option<Value> {
    if es == [] then None
    else if es[0].0 == key then Some(es[0].1)
    else Lookup(es[1..], key)
  }

  lemma {:induction false} LookupFound(es: seq<(string, Value)>, key: string)
    ensures Lookup(es, key).Some? <==> exists k :: 0 <= k < |es| && es[k].0 == key
    ensures Lookup(es, key).Some? ==> exists k :: 0 <= k < |es| && es[k] == (key, Lookup(es, key).value)
  {
    if es != [] && es[0].0 != key {
      LookupFound(es[1..], key);
      assert forall k :: 1 <= k < |es| ==> es[k] == es[1..][k - 1];
    }
  }

  lemma LookupSmaller(es: seq<(string, Value)>, key: string)
    requires Lookup(es, key).Some?
    ensures Size(Lookup(es, key).value) < Size(Dict(es))
  {
    LookupFound(es, key);
    var k :| 0 <= k < |es| && es[k] == (key, Lookup(es, key).value);
    EntrySmaller(es, k);
  }

  predicate HasKey(es: seq<(string, Value)>, key: string) {
    Lookup(es, key).Some?
  }

  function Keys(es: seq<(string, Value)>): set<string> {
    set k | 0 <= k < |es| :: es[k].0
  }

  /** A key of the entries is one a lookup finds. */
  lemma KeysHaveLookups(es: seq<(string, Value)>, key: string)
    ensures key in Keys(es) <==> HasKey(es, key)
  {
    LookupFound(es, key);
  }

  /** Python's `==` on documents: lists compare item by item, dictionaries
      compare as mappings, whatever order their entries come in, a boolean
      equals the integer 1 or 0 it stands for, and the other values compare
      as they are. */
  predicate PyEq(a: Value, b: Value)
    decreases Size(a)
  {
    match a
    case List(xs) =>
      b.List? && |xs| == |b.items|
      && forall k :: 0 <= k < |xs| ==> (ItemSmaller(xs, k); PyEq(xs[k], b.items[k]))
    case Dict(es) =>
      b.Dict? && Keys(es) == Keys(b.entries)
      && forall key :: key in Keys(es) ==>
           (KeysHaveLookups(es, key); KeysHaveLookups(b.entries, key); LookupSmaller(es, key);
            PyEq(Lookup(es, key).value, Lookup(b.entries, key).value))
    case Bool(x) => a == b || (b.Int? && b.i == BoolAsInt(x))
    case Int(i) => a == b || (b.Bool? && i == BoolAsInt(b.b))
    case _ => a == b
  }

  /** The integer a Python boolean is. */
  function BoolAsInt(x: bool): int {
    if x then 1 else 0
  }

  /** Every document equals itself. */
  lemma {:induction false} PyEqReflexive(a: Value)
    ensures PyEq(a, a)
    decreases Size(a)
  {
    match a
    case List(xs) =>
      forall k | 0 <= k < |xs| ensures PyEq(xs[k], xs[k]) {
        ItemSmaller(xs, k);
        PyEqReflexive(xs[k]);
      }
    case Dict(es) =>
      forall key | key in Keys(es) ensures HasKey(es, key) && PyEq(Lookup(es, key).value, Lookup(es, key).value) {
        KeysHaveLookups(es, key);
        LookupSmaller(es, key);
        PyEqReflexive(Lookup(es, key).value);
      }
    case _ =>
  }

  /** Equality does not depend on the side a value is on. */
  lemma {:induction false} PyEqSymmetric(a: Value, b: Value)
    requires PyEq(a, b)
    ensures PyEq(b, a)
    decreases Size(a)
  {
    match a
    case List(xs) =>
      forall k | 0 <= k < |xs| ensures PyEq(b.items[k], xs[k]) {
        ItemSmaller(xs, k);
        PyEqSymmetric(xs[k], b.items[k]);
      }
    case Dict(es) =>
      var fs := b.entries;
      forall key | key in Keys(fs)
        ensures HasKey(es, key) && HasKey(fs, key) && PyEq(Lookup(fs, key).value, Lookup(es, key).value)
      {
        KeysHaveLookups(es, key);
        KeysHaveLookups(fs, key);
        LookupSmaller(es, key);
        PyEqSymmetric(Lookup(es, key).value, Lookup(fs, key).value);
      }
    case _ =>
  }

  /** Two dictionaries with the same keys, each bound to the same value, are
      equal, whatever the order of their entries. */
  lemma PyEqIgnoresEntryOrder(es: seq<(string, Value)>, fs: seq<(string, Value)>)
    requires Keys(es) == Keys(fs)
    requires forall key :: key in Keys(es) ==> Lookup(es, key) == Lookup(fs, key)
    ensures PyEq(Dict(es), Dict(fs))
  {
    forall key | key in Keys(es)
      ensures HasKey(es, key) && HasKey(fs, key) && PyEq(Lookup(es, key).value, Lookup(fs, key).value)
    {
      KeysHaveLookups(es, key);
      KeysHaveLookups(fs, key);
      PyEqReflexive(Lookup(es, key).value);
    }
  }

  /** `{"a": 1, "b": 2} == {"b": 2, "a": 1}` holds, although the two entry
      lists differ. */
  lemma SwappedEntriesAreEqual()
    ensures Dict([("a", Int(1)), ("b", Int(2))]) != Dict([("b", Int(2)), ("a", Int(1))])
    ensures PyEq(Dict([("a", Int(1)), ("b", Int(2))]), Dict([("b", Int(2)), ("a", Int(1))]))
  {
    var es := [("a", Int(1)), ("b", Int(2))];
    var fs := [("b", Int(2)), ("a", Int(1))];
    assert es[0] != fs[0];
    assert Keys(es) == {"a", "b"} by {
      assert es[0].0 == "a" && es[1].0 == "b";
    }
    assert Keys(fs) == {"a", "b"} by {
      assert fs[0].0 == "b" && fs[1].0 == "a";
    }
    assert Lookup(es, "a") == Some(Int(1)) == Lookup(fs, "a");
    assert Lookup(es, "b") == Some(Int(2)) == Lookup(fs, "b");
    PyEqIgnoresEntryOrder(es, fs);
  }

  /** `True == 1` and `[1] == [True]` hold, `True == 2` does not. */
  lemma BooleansEqualTheirIntegers()
    ensures PyEq(Bool(true), Int(1)) && PyEq(Int(0), Bool(false))
    ensures PyEq(List([Int(1)]), List([Bool(true)]))
    ensures !PyEq(Bool(true), Int(2))
  {
    assert [Int(1)][0] == Int(1);
  }

  /** `item in xs` for a list: some element equals the item. */
  predicate InList(item: Value, xs: seq<Value>) {
    exists k :: 0 <= k < |xs| && PyEq(xs[k], item)
  }

  /** An element of a list is found in it. */
  lemma ElementInList(xs: seq<Value>, k: nat)
    requires k < |xs|
    ensures InList(xs[k], xs)
  {
    PyEqReflexive(xs[k]);
  }

  /** `bool(v)` */
  predicate Truthy(v: Value) {
    match v
    case Null => false
    case Bool(b) => b
    case Int(i) => i != 0
    case Str(s) => s != []
    case List(xs) => xs != []
    case Dict(es) => es != []
  }

  /** Lists and dicts cannot be dictionary keys or set members. */
  predicate Hashable(v: Value) {
    !v.List? && !v.Dict?
  }

  /** `item in container` */
  function Contains(container: Value, item: Value): (r: Result<bool, PyError>)
    ensures container.List? ==> r == Success(InList(item, container.items))
    ensures container.Dict? && item.Str? ==> r == Success(HasKey(container.entries, item.s))
    ensures container.Null? || container.Bool? || container.Int? ==> r == Failure(TypeError)
  {
    match container
    case List(xs) => Success(InList(item, xs))
    case Dict(es) =>
      if !Hashable(item) then Failure(TypeError)
      else Success(item.Str? && HasKey(es, item.s))
    case Str(s) => if item.Str? then Success(IsSubstring(item.s, s)) else Failure(TypeError)
    case _ => Failure(TypeError)
  }

  /** `container[key]` for a string key. */
  function Index(container: Value, key: string): (r: Result<Value, PyError>)
    ensures r.Success? <==> container.Dict? && HasKey(container.entries, key)
    ensures r.Success? ==> Size(r.value) < Size(container)
  {
    match container
    case Dict(es) =>
      if HasKey(es, key) then LookupSmaller(es, key); Success(Lookup(es, key).value) else Failure(KeyError)
    case _ => Failure(TypeError)
  }

  /** `container.get(key, default)`; only dictionaries have `.get`. */
  function Get(container: Value, key: string, default: Value): (r: Result<Value, PyError>)
    ensures r.Success? <==> container.Dict?
  {
    match container
    case Dict(es) => Success(Lookup(es, key).GetOr(default))
    case _ => Failure(AttributeError)
  }

  /** The items a `for` loop visits: a list's elements, a dictionary's keys,
      a string's characters. */
  function Iterate(v: Value): (r: Result<seq<Value>, PyError>)
    ensures r.Success? <==> v.List? || v.Dict? || v.Str?
    ensures r.Success? ==> forall k :: 0 <= k < |r.value| ==> Size(r.value[k]) <= Size(v)
    ensures v.List? ==> r == Success(v.items) && forall k :: 0 <= k < |v.items| ==> Size(v.items[k]) < Size(v)
    ensures v.Dict? ==> |r.value| == |v.entries| && forall k :: 0 <= k < |v.entries| ==> r.value[k] == Str(v.entries[k].0)
    ensures v.Str? ==> |r.value| == |v.s| && forall k :: 0 <= k < |v.s| ==> r.value[k] == Str([v.s[k]])
  {
    match v
    case List(xs) =>
      assert forall k :: 0 <= k < |xs| ==> Size(xs[k]) < Size(v) by {
        forall k | 0 <= k < |xs| ensures Size(xs[k]) < Size(v) { ItemSmaller(xs, k); }
      }
      Success(xs)
    case Dict(es) => Success(seq(|es|, k requires 0 <= k < |es| => Str(es[k].0)))
    case Str(s) => Success(seq(|s|, k requires 0 <= k < |s| => Str([s[k]])))
    case _ => Failure(TypeError)
  }

  /** `len(v)` */
  function Length(v: Value): (r: Result<nat, PyError>)
    ensures r.Success? <==> v.List? || v.Dict? || v.Str?
  {
    match v
    case List(xs) => Success(|xs|)
    case Dict(es) => Success(|es|)
    case Str(s) => Success(|s|)
    case _ => Failure(TypeError)
  }
}
