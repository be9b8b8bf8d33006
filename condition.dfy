/** The condition validator and the condition evaluator. A condition is a
    document node read by shape: a dictionary with an `all` key, else one with
    an `any` key, else a leaf with `fact`, `op` and `value`. */
module Condition {
  import opened Wrappers
  import opened Text
  import opened Values

  // ---------------------------------------------------------------------
  // Error paths
  // ---------------------------------------------------------------------

  datatype Combinator = All | Any

  function FieldName(field: Combinator): string {
    match field
    case All => "all"
    case Any => "any"
  }

  /** One step down a condition tree: the `index`-th child of `field`. */
  datatype Step = Child(field: Combinator, index: nat)

  /** Where an error was found, from the root of the condition. */
  type Path = seq<Step>

  /** The label of one step, such as `.all[0]`. */
  function StepLabel(step: Step): string {
    "." + FieldName(step.field) + "[" + NatToString(step.index) + "]"
  }

  function StepsLabel(path: Path): string {
    if path == [] then [] else StepsLabel(path[..|path| - 1]) + StepLabel(path[|path| - 1])
  }

  /** The label the validator prints in front of an error, such as
      `condition.all[0].any[0]`. */
  function PathLabel(path: Path): (r: string)
    ensures StartsWith(r, "condition")
  {
    "condition" + StepsLabel(path)
  }

  /** Going one step further down a tree extends the label by that step's
      label. */
  lemma PathLabelSnoc(path: Path, step: Step)
    ensures PathLabel(path + [step]) == PathLabel(path) + StepLabel(step)
  {
    var whole := path + [step];
    assert whole[..|whole| - 1] == path;
    assert whole[|whole| - 1] == step;
    ConcatAssociates("condition", StepsLabel(path), StepLabel(step));
  }

  lemma AppendSnoc(a: Path, b: Path)
    requires b != []
    ensures a + b == (a + b[..|b| - 1]) + [b[|b| - 1]]
  {
    assert b == b[..|b| - 1] + [b[|b| - 1]];
  }

  lemma ConcatAssociates(a: string, b: string, c: string)
    ensures (a + b) + c == a + (b + c)
  {
  }

  /** Going further down a tree extends the label: the label of a path
      followed by more steps is the path's label followed by the steps'. */
  lemma {:induction false} PathLabelExtends(path: Path, more: Path)
    ensures PathLabel(path + more) == PathLabel(path) + StepsLabel(more)
  {
    if more == [] {
      assert path + more == path;
    } else {
      var init, last := more[..|more| - 1], more[|more| - 1];
      PathLabelExtends(path, init);
      AppendSnoc(path, more);
      PathLabelSnoc(path + init, last);
      ConcatAssociates(PathLabel(path), StepsLabel(init), StepLabel(last));
    }
  }

  /** An example: the second-level label `condition.all[0].any[0]`. */
  lemma NestedPathLabel()
    ensures PathLabel([Child(All, 0), Child(Any, 0)]) == "condition.all[0].any[0]"
  {
    var path := [Child(All, 0), Child(Any, 0)];
    assert path[..1][..0] == [];
    assert path[..1] == [Child(All, 0)];
    assert NatToString(0) == "0";
    assert StepLabel(Child(All, 0)) == ".all[0]";
    assert StepLabel(Child(Any, 0)) == ".any[0]";
    assert StepsLabel(path[..1]) == ".all[0]";
    assert StepsLabel(path) == ".all[0]" + ".any[0]";
  }

  /** What is wrong at a node. The offending value is kept where the message
      names its type. */
  datatype ErrorKind =
    | NotADict(got: Value)
    | ChildrenNotAList(field: Combinator, got: Value)
    | MissingKey(key: string)
    | UnknownOperator(op: Value)
    | InNeedsList(got: Value)

  datatype ConditionError = ConditionError(path: Path, kind: ErrorKind)

  // ---------------------------------------------------------------------
  // Validation, as a specification
  // ---------------------------------------------------------------------

  const LeafKeys: seq<string> := ["fact", "op", "value"]

  /** The operators the evaluator implements. */
  predicate IsKnownOperator(op: Value) {
    op == Str("eq") || op == Str("in")
  }

  /** The validator's operator test as written: `op not in {"eq", "in"}`
      is a set-membership test, which raises on a list or dict operator. */
  function OpIsUnknownAsWritten(op: Value): (r: Result<bool, PyError>)
    ensures r.Failure? <==> !Hashable(op)
    ensures r.Success? ==> (r.value <==> !IsKnownOperator(op))
  {
    if !Hashable(op) then Failure(TypeError) else Success(!IsKnownOperator(op))
  }

  /** The `in` operator's value check: only a present, non-null, non-list
      value is rejected. */
  predicate InValueRejected(value: Option<Value>) {
    value.Some? && value.value != Null && !value.value.List?
  }

  /** The errors for the first `n` of `fact`, `op`, `value` that are missing. */
  function MissingKeyErrors(es: seq<(string, Value)>, path: Path, n: nat): seq<ConditionError>
    requires n <= |LeafKeys|
  {
    if n == 0 then []
    else
      MissingKeyErrors(es, path, n - 1)
      + (if HasKey(es, LeafKeys[n - 1]) then [] else [ConditionError(path, MissingKey(LeafKeys[n - 1]))])
  }

  function OperatorErrors(es: seq<(string, Value)>, path: Path): seq<ConditionError> {
    var op := Lookup(es, "op");
    (if op.Some? && !IsKnownOperator(op.value) then [ConditionError(path, UnknownOperator(op.value))] else [])
    + (if op == Some(Str("in")) && InValueRejected(Lookup(es, "value"))
       then [ConditionError(path, InNeedsList(Lookup(es, "value").value))] else [])
  }

  function LeafErrors(es: seq<(string, Value)>, path: Path): seq<ConditionError> {
    MissingKeyErrors(es, path, 3) + OperatorErrors(es, path)
  }

  /** Every error in the tree at `node`, in the order the validator finds
      them: a non-dict node gives one error; an `all` (else `any`) field that
      is not a list gives one error and is not descended; otherwise each child
      is validated in turn; a leaf is checked for its keys and operator. */
  function NodeErrors(node: Value, path: Path): seq<ConditionError>
    decreases Size(node), 2, 0
  {
    match node
    case Dict(es) =>
      if HasKey(es, "all") then LookupSmaller(es, "all"); FieldErrors(All, Lookup(es, "all").value, path)
      else if HasKey(es, "any") then LookupSmaller(es, "any"); FieldErrors(Any, Lookup(es, "any").value, path)
      else LeafErrors(es, path)
    case _ => [ConditionError(path, NotADict(node))]
  }

  function FieldErrors(field: Combinator, children: Value, path: Path): seq<ConditionError>
    decreases Size(children), 1, 0
  {
    match children
    case List(xs) => ChildrenErrors(field, xs, |xs|, path)
    case _ => [ConditionError(path, ChildrenNotAList(field, children))]
  }

  /** The errors of the first `n` children, each under its own path. */
  function ChildrenErrors(field: Combinator, xs: seq<Value>, n: nat, path: Path): seq<ConditionError>
    requires n <= |xs|
    decreases Size(List(xs)), 0, n
  {
    if n == 0 then []
    else
      ItemSmaller(xs, n - 1);
      ChildrenErrors(field, xs, n - 1, path) + NodeErrors(xs[n - 1], path + [Child(field, n - 1)])
  }

  // ---------------------------------------------------------------------
  // Validation, as the recursive procedure with a shared error list
  // ---------------------------------------------------------------------

  /** `validate_condition`: the errors of a whole condition, labelled from
      `condition`. */
  method ValidateCondition(condition: Value) returns (errors: seq<ConditionError>)
    ensures errors == NodeErrors(condition, [])
  {
    errors := ValidateNode(condition, [], []);
  }

  /** `_validate_node`: appends the errors of `node` to `errors`. */
  method ValidateNode(node: Value, path: Path, errors: seq<ConditionError>) returns (out: seq<ConditionError>)
    ensures out == errors + NodeErrors(node, path)
    decreases Size(node), 1
  {
    if !node.Dict? {
      return errors + [ConditionError(path, NotADict(node))];
    }
    var es := node.entries;
    if HasKey(es, "all") {
      LookupSmaller(es, "all");
      out := ValidateField(All, Lookup(es, "all").value, path, errors);
    } else if HasKey(es, "any") {
      LookupSmaller(es, "any");
      out := ValidateField(Any, Lookup(es, "any").value, path, errors);
    } else {
      out := errors;
      for k := 0 to 3
        invariant out == errors + MissingKeyErrors(es, path, k)
      {
        if !HasKey(es, LeafKeys[k]) {
          out := out + [ConditionError(path, MissingKey(LeafKeys[k]))];
        }
      }
      var op := Lookup(es, "op");
      if op.Some? && !IsKnownOperator(op.value) {
        out := out + [ConditionError(path, UnknownOperator(op.value))];
      }
      if op.Some? && op.value == Str("in") {
        var value := Lookup(es, "value");
        if InValueRejected(value) {
          out := out + [ConditionError(path, InNeedsList(value.value))];
        }
      }
    }
  }

  method ValidateField(field: Combinator, children: Value, path: Path, errors: seq<ConditionError>)
    returns (out: seq<ConditionError>)
    ensures out == errors + FieldErrors(field, children, path)
    decreases Size(children), 0
  {
    if !children.List? {
      return errors + [ConditionError(path, ChildrenNotAList(field, children))];
    }
    var xs := children.items;
    out := errors;
    for i := 0 to |xs|
      invariant out == errors + ChildrenErrors(field, xs, i, path)
    {
      ItemSmaller(xs, i);
      out := ValidateNode(xs[i], path + [Child(field, i)], out);
    }
  }

  // ---------------------------------------------------------------------
  // Properties of validation
  // ---------------------------------------------------------------------

  lemma MissingKeyErrorsUnfolded(es: seq<(string, Value)>, path: Path)
    ensures MissingKeyErrors(es, path, 3)
            == (if HasKey(es, "fact") then [] else [ConditionError(path, MissingKey("fact"))])
               + (if HasKey(es, "op") then [] else [ConditionError(path, MissingKey("op"))])
               + (if HasKey(es, "value") then [] else [ConditionError(path, MissingKey("value"))])
  {
    assert LeafKeys[0] == "fact" && LeafKeys[1] == "op" && LeafKeys[2] == "value";
    assert MissingKeyErrors(es, path, 1)
           == (if HasKey(es, "fact") then [] else [ConditionError(path, MissingKey("fact"))]);
  }

  /** The lookups in a three-key leaf dictionary. */
  lemma LeafLookups(fact: Value, op: Value, value: Value)
    ensures Lookup([("fact", fact), ("op", op), ("value", value)], "all") == None
    ensures Lookup([("fact", fact), ("op", op), ("value", value)], "any") == None
    ensures Lookup([("fact", fact), ("op", op), ("value", value)], "fact") == Some(fact)
    ensures Lookup([("fact", fact), ("op", op), ("value", value)], "op") == Some(op)
    ensures Lookup([("fact", fact), ("op", op), ("value", value)], "value") == Some(value)
  {
    var es := [("fact", fact), ("op", op), ("value", value)];
    var es1 := [("op", op), ("value", value)];
    var es2 := [("value", value)];
    assert es[1..] == es1 && es1[1..] == es2 && es2[1..] == [];
    assert Lookup(es2, "value") == Some(value);
    assert Lookup(es1, "value") == Some(value);
    assert Lookup(es2, "all") == None && Lookup(es2, "any") == None;
    assert Lookup(es1, "all") == None && Lookup(es1, "any") == None;
  }

  /** A leaf reports each missing key on its own. */
  lemma LeafMissingKeys(es: seq<(string, Value)>, path: Path)
    requires !HasKey(es, "all") && !HasKey(es, "any")
    ensures forall key :: ConditionError(path, MissingKey(key)) in NodeErrors(Dict(es), path)
                          <==> key in LeafKeys && !HasKey(es, key)
  {
    MissingKeyErrorsUnfolded(es, path);
    assert NodeErrors(Dict(es), path) == MissingKeyErrors(es, path, 3) + OperatorErrors(es, path);
  }

  /** A leaf reports an operator other than `eq`/`in` as unknown, and a
      present, non-null, non-list value of an `in` leaf. */
  lemma LeafOperatorChecks(es: seq<(string, Value)>, path: Path)
    requires !HasKey(es, "all") && !HasKey(es, "any")
    ensures forall op :: ConditionError(path, UnknownOperator(op)) in NodeErrors(Dict(es), path)
                         <==> Lookup(es, "op") == Some(op) && !IsKnownOperator(op)
    ensures (exists v :: ConditionError(path, InNeedsList(v)) in NodeErrors(Dict(es), path))
            <==> Lookup(es, "op") == Some(Str("in")) && InValueRejected(Lookup(es, "value"))
    ensures forall e :: e in NodeErrors(Dict(es), path) ==> e.path == path
  {
    MissingKeyErrorsUnfolded(es, path);
    var errs := NodeErrors(Dict(es), path);
    assert errs == MissingKeyErrors(es, path, 3) + OperatorErrors(es, path);
    if Lookup(es, "op") == Some(Str("in")) && InValueRejected(Lookup(es, "value")) {
      assert ConditionError(path, InNeedsList(Lookup(es, "value").value)) in errs;
    }
  }

  /** A non-dict node yields exactly one error, at its own path. */
  lemma NonDictValidation(node: Value, path: Path)
    requires !node.Dict?
    ensures NodeErrors(node, path) == [ConditionError(path, NotADict(node))]
  {
  }

  /** `all` is looked at before `any`: an `all` field that is not a list
      gives exactly one error, whatever else the node holds. */
  lemma NonListChildrenValidation(es: seq<(string, Value)>, path: Path)
    requires HasKey(es, "all") && !Lookup(es, "all").value.List?
    ensures NodeErrors(Dict(es), path) == [ConditionError(path, ChildrenNotAList(All, Lookup(es, "all").value))]
  {
  }

  /** Validation never stops at the first problem: every error of every child
      is reported, under the child's path. */
  lemma {:induction false} ChildErrorsKept(field: Combinator, xs: seq<Value>, n: nat, k: nat, path: Path)
    requires k < n <= |xs|
    ensures forall e :: e in NodeErrors(xs[k], path + [Child(field, k)]) ==> e in ChildrenErrors(field, xs, n, path)
  {
    if k < n - 1 {
      ChildErrorsKept(field, xs, n - 1, k, path);
    }
  }

  lemma {:induction false} ChildrenErrorsEmpty(field: Combinator, xs: seq<Value>, n: nat, path: Path)
    requires n <= |xs|
    ensures ChildrenErrors(field, xs, n, path) == []
            <==> forall k :: 0 <= k < n ==> NodeErrors(xs[k], path + [Child(field, k)]) == []
  {
    if n > 0 {
      ChildrenErrorsEmpty(field, xs, n - 1, path);
      var init := ChildrenErrors(field, xs, n - 1, path);
      var last := NodeErrors(xs[n - 1], path + [Child(field, n - 1)]);
      assert ChildrenErrors(field, xs, n, path) == init + last;
      assert |init + last| == |init| + |last|;
    }
  }

  /** Every error is attributed to the node it was found at or below it. */
  lemma {:induction false} ErrorsBelowPath(node: Value, path: Path)
    ensures forall e :: e in NodeErrors(node, path) ==> path <= e.path
    decreases Size(node), 1, 0
  {
    if node.Dict? {
      var es := node.entries;
      if HasKey(es, "all") {
        var children := Lookup(es, "all").value;
        LookupSmaller(es, "all");
        if children.List? {
          ChildrenBelowPath(All, children.items, |children.items|, path);
        }
      } else if HasKey(es, "any") {
        var children := Lookup(es, "any").value;
        LookupSmaller(es, "any");
        if children.List? {
          ChildrenBelowPath(Any, children.items, |children.items|, path);
        }
      } else {
        LeafOperatorChecks(es, path);
      }
    }
  }

  lemma {:induction false} ChildrenBelowPath(field: Combinator, xs: seq<Value>, n: nat, path: Path)
    requires n <= |xs|
    ensures forall e :: e in ChildrenErrors(field, xs, n, path) ==> path <= e.path
    decreases Size(List(xs)), 0, n
  {
    if n > 0 {
      ChildrenBelowPath(field, xs, n - 1, path);
      ItemSmaller(xs, n - 1);
      ErrorsBelowPath(xs[n - 1], path + [Child(field, n - 1)]);
    }
  }

  // ---------------------------------------------------------------------
  // Evaluation
  // ---------------------------------------------------------------------

  /** `evaluate_condition`, for every document shape: `all` is tested before
      `any`, which is tested before the leaf; each test is Python's `in`, and
      each step that Python would raise on gives the exception. */
  function Evaluate(condition: Value, facts: map<string, Value>): Result<bool, PyError>
    decreases Size(condition), 1, 0
  {
    var hasAll :- Contains(condition, Str("all"));
    if hasAll then
      var children :- Index(condition, "all");
      var items :- Iterate(children);
      EvaluateAll(items, facts, Size(condition))
    else
      var hasAny :- Contains(condition, Str("any"));
      if hasAny then
        var children :- Index(condition, "any");
        var items :- Iterate(children);
        EvaluateAny(items, facts, Size(condition))
      else
        EvaluateLeaf(condition, facts)
  }

  /** `all(...)` over a generator: stops at the first child that is false. */
  function EvaluateAll(items: seq<Value>, facts: map<string, Value>, bound: nat): Result<bool, PyError>
    requires forall k :: 0 <= k < |items| ==> Size(items[k]) < bound
    decreases bound, 0, |items|
  {
    if items == [] then Success(true)
    else
      var first :- Evaluate(items[0], facts);
      if !first then Success(false) else EvaluateAll(items[1..], facts, bound)
  }

  /** `any(...)` over a generator: stops at the first child that is true. */
  function EvaluateAny(items: seq<Value>, facts: map<string, Value>, bound: nat): Result<bool, PyError>
    requires forall k :: 0 <= k < |items| ==> Size(items[k]) < bound
    decreases bound, 0, |items|
  {
    if items == [] then Success(false)
    else
      var first :- Evaluate(items[0], facts);
      if first then Success(true) else EvaluateAny(items[1..], facts, bound)
  }

  /** A leaf: a key absent from the map makes it false; a present key, even
      one bound to null, is compared with `==` or tested with `in`. */
  function EvaluateLeaf(condition: Value, facts: map<string, Value>): Result<bool, PyError> {
    var factKey :- Index(condition, "fact");
    var op :- Index(condition, "op");
    var expected :- Index(condition, "value");
    if !Hashable(factKey) then Failure(TypeError)
    else if !(factKey.Str? && factKey.s in facts) then Success(false)
    else
      var actual := facts[factKey.s];
      if op == Str("eq") then Success(PyEq(actual, expected))
      else if op == Str("in") then Contains(expected, actual)
      else Failure(ValueError)
  }

  // ---------------------------------------------------------------------
  // Properties of evaluation
  // ---------------------------------------------------------------------

  lemma {:induction false} EvaluateAllIsConjunction(items: seq<Value>, facts: map<string, Value>, bound: nat)
    requires forall k :: 0 <= k < |items| ==> Size(items[k]) < bound
    requires forall k :: 0 <= k < |items| ==> Evaluate(items[k], facts).Success?
    ensures EvaluateAll(items, facts, bound)
            == Success(forall k :: 0 <= k < |items| ==> Evaluate(items[k], facts).value)
    decreases |items|
  {
    if items != [] {
      var rest := items[1..];
      assert forall k :: 0 <= k < |rest| ==> rest[k] == items[k + 1];
      EvaluateAllIsConjunction(rest, facts, bound);
      if Evaluate(items[0], facts).value {
        assert (forall k :: 0 <= k < |items| ==> Evaluate(items[k], facts).value)
            == (forall k :: 0 <= k < |rest| ==> Evaluate(rest[k], facts).value);
      }
    }
  }

  lemma {:induction false} EvaluateAnyIsDisjunction(items: seq<Value>, facts: map<string, Value>, bound: nat)
    requires forall k :: 0 <= k < |items| ==> Size(items[k]) < bound
    requires forall k :: 0 <= k < |items| ==> Evaluate(items[k], facts).Success?
    ensures EvaluateAny(items, facts, bound)
            == Success(exists k :: 0 <= k < |items| && Evaluate(items[k], facts).value)
    decreases |items|
  {
    if items != [] {
      EvaluateAnyIsDisjunction(items[1..], facts, bound);
      assert forall k :: 1 <= k < |items| ==> items[1..][k - 1] == items[k];
    }
  }

  /** An `all` node holds iff every child holds; so `all: []` holds. */
  lemma AllIsConjunction(es: seq<(string, Value)>, xs: seq<Value>, facts: map<string, Value>)
    requires Lookup(es, "all") == Some(List(xs))
    requires forall k :: 0 <= k < |xs| ==> Evaluate(xs[k], facts).Success?
    ensures Evaluate(Dict(es), facts) == Success(forall k :: 0 <= k < |xs| ==> Evaluate(xs[k], facts).value)
  {
    assert Iterate(List(xs)) == Success(xs);
    LookupSmaller(es, "all");
    EvaluateAllIsConjunction(xs, facts, Size(Dict(es)));
  }

  /** An `any` node (without `all`) holds iff some child holds; so `any: []`
      does not hold. */
  lemma AnyIsDisjunction(es: seq<(string, Value)>, xs: seq<Value>, facts: map<string, Value>)
    requires !HasKey(es, "all") && Lookup(es, "any") == Some(List(xs))
    requires forall k :: 0 <= k < |xs| ==> Evaluate(xs[k], facts).Success?
    ensures Evaluate(Dict(es), facts) == Success(exists k :: 0 <= k < |xs| && Evaluate(xs[k], facts).value)
  {
    assert Iterate(List(xs)) == Success(xs);
    LookupSmaller(es, "any");
    EvaluateAnyIsDisjunction(xs, facts, Size(Dict(es)));
  }

  /** A leaf with all three keys whose fact is absent from the map is false,
      whatever its operator and value. */
  lemma AbsentFactIsFalse(es: seq<(string, Value)>, facts: map<string, Value>)
    requires !HasKey(es, "all") && !HasKey(es, "any")
    requires HasKey(es, "fact") && HasKey(es, "op") && HasKey(es, "value")
    requires Hashable(Lookup(es, "fact").value)
    requires !(Lookup(es, "fact").value.Str? && Lookup(es, "fact").value.s in facts)
    ensures Evaluate(Dict(es), facts) == Success(false)
  {
  }

  /** A leaf whose fact is present, even bound to null, is compared: `eq` is
      Python's equality, `in` over a list is membership under that equality,
      and `in` over null raises. */
  lemma PresentFactIsCompared(es: seq<(string, Value)>, key: string, facts: map<string, Value>)
    requires !HasKey(es, "all") && !HasKey(es, "any")
    requires Lookup(es, "fact") == Some(Str(key)) && key in facts
    requires HasKey(es, "op") && HasKey(es, "value")
    ensures Lookup(es, "op") == Some(Str("eq"))
            ==> Evaluate(Dict(es), facts) == Success(PyEq(facts[key], Lookup(es, "value").value))
    ensures Lookup(es, "op") == Some(Str("in")) && Lookup(es, "value").value.List?
            ==> Evaluate(Dict(es), facts) == Success(InList(facts[key], Lookup(es, "value").value.items))
    ensures Lookup(es, "op") == Some(Str("in")) && Lookup(es, "value").value == Null
            ==> Evaluate(Dict(es), facts) == Failure(TypeError)
  {
  }

  /** A fact bound to null satisfies `eq null`. */
  lemma PresentNullEqualsNull()
    ensures Evaluate(Dict([("fact", Str("x")), ("op", Str("eq")), ("value", Null)]), map["x" := Null])
            == Success(true)
  {
    var es := [("fact", Str("x")), ("op", Str("eq")), ("value", Null)];
    LeafLookups(Str("x"), Str("eq"), Null);
    PresentFactIsCompared(es, "x", map["x" := Null]);
  }

  /** A fact bound to a dictionary satisfies `eq` against the same dictionary
      written with its keys in another order. */
  lemma EqIgnoresKeyOrder()
    ensures Evaluate(Dict([("fact", Str("x")), ("op", Str("eq")), ("value", Dict([("b", Int(2)), ("a", Int(1))]))]),
                     map["x" := Dict([("a", Int(1)), ("b", Int(2))])])
            == Success(true)
  {
    var expected := Dict([("b", Int(2)), ("a", Int(1))]);
    var es := [("fact", Str("x")), ("op", Str("eq")), ("value", expected)];
    LeafLookups(Str("x"), Str("eq"), expected);
    PresentFactIsCompared(es, "x", map["x" := Dict([("a", Int(1)), ("b", Int(2))])]);
    SwappedEntriesAreEqual();
  }

  /** On a tree the validator accepts, the evaluator never reaches the
      unknown-operator raise. */
  lemma {:induction false} ValidatedHasKnownOperators(node: Value, path: Path, facts: map<string, Value>)
    requires NodeErrors(node, path) == []
    ensures Evaluate(node, facts) != Failure(ValueError)
    decreases Size(node), 1, 0
  {
    var es := node.entries;
    if HasKey(es, "all") || HasKey(es, "any") {
      var field := if HasKey(es, "all") then All else Any;
      var xs := Lookup(es, FieldName(field)).value.items;
      LookupSmaller(es, FieldName(field));
      assert Iterate(List(xs)) == Success(xs);
      ChildrenErrorsEmpty(field, xs, |xs|, path);
      forall k | 0 <= k < |xs|
        ensures Evaluate(xs[k], facts) != Failure(ValueError)
      {
        ItemSmaller(xs, k);
        ValidatedHasKnownOperators(xs[k], path + [Child(field, k)], facts);
      }
      if field == All {
        AllNoValueError(xs, facts, Size(node));
      } else {
        AnyNoValueError(xs, facts, Size(node));
      }
    } else {
      MissingKeyErrorsUnfolded(es, path);
      assert HasKey(es, "fact") && HasKey(es, "op") && HasKey(es, "value");
      assert IsKnownOperator(Lookup(es, "op").value);
    }
  }

  lemma {:induction false} AllNoValueError(items: seq<Value>, facts: map<string, Value>, bound: nat)
    requires forall k :: 0 <= k < |items| ==> Size(items[k]) < bound
    requires forall k :: 0 <= k < |items| ==> Evaluate(items[k], facts) != Failure(ValueError)
    ensures EvaluateAll(items, facts, bound) != Failure(ValueError)
    decreases |items|
  {
    if items != [] {
      assert forall k :: 1 <= k < |items| ==> items[1..][k - 1] == items[k];
      AllNoValueError(items[1..], facts, bound);
    }
  }

  lemma {:induction false} AnyNoValueError(items: seq<Value>, facts: map<string, Value>, bound: nat)
    requires forall k :: 0 <= k < |items| ==> Size(items[k]) < bound
    requires forall k :: 0 <= k < |items| ==> Evaluate(items[k], facts) != Failure(ValueError)
    ensures EvaluateAny(items, facts, bound) != Failure(ValueError)
    decreases |items|
  {
    if items != [] {
      assert forall k :: 1 <= k < |items| ==> items[1..][k - 1] == items[k];
      AnyNoValueError(items[1..], facts, bound);
    }
  }

  /** The validator lets an `in` leaf with an explicit null value through, and
      evaluating it against a present fact raises. */
  lemma NullInPassesValidation()
    ensures NodeErrors(Dict([("fact", Str("x")), ("op", Str("in")), ("value", Null)]), []) == []
    ensures Evaluate(Dict([("fact", Str("x")), ("op", Str("in")), ("value", Null)]), map["x" := Int(1)])
            == Failure(TypeError)
  {
    var es := [("fact", Str("x")), ("op", Str("in")), ("value", Null)];
    LeafLookups(Str("x"), Str("in"), Null);
    MissingKeyErrorsUnfolded(es, []);
  }

  /** The validator as written raises on a list operator where an unknown
      operator error is evidently meant; the model reports the error. */
  lemma ListOperatorCrashesValidator()
    ensures OpIsUnknownAsWritten(List([Str("eq")])) == Failure(TypeError)
    ensures NodeErrors(Dict([("fact", Str("x")), ("op", List([Str("eq")])), ("value", Int(1))]), [])
            == [ConditionError([], UnknownOperator(List([Str("eq")])))]
  {
    var es := [("fact", Str("x")), ("op", List([Str("eq")])), ("value", Int(1))];
    LeafLookups(Str("x"), List([Str("eq")]), Int(1));
    MissingKeyErrorsUnfolded(es, []);
  }

  // ---------------------------------------------------------------------
  // The typed condition tree and its meaning
  // ---------------------------------------------------------------------

  datatype Op = Eq | In

  /** A condition as the policy author means it. */
  datatype Cond =
    | AllOf(children: seq<Cond>)
    | AnyOf(children: seq<Cond>)
    | Leaf(fact: string, op: Op, value: Value)

  /** Every `in` leaf carries a list. */
  predicate WellFormed(c: Cond) {
    match c
    case AllOf(cs) => forall k :: 0 <= k < |cs| ==> WellFormed(cs[k])
    case AnyOf(cs) => forall k :: 0 <= k < |cs| ==> WellFormed(cs[k])
    case Leaf(_, op, value) => op == In ==> value.List?
  }

  /** The reference meaning: `all` is conjunction, `any` disjunction, a leaf
      needs its fact present and then compares it. */
  predicate Holds(c: Cond, facts: map<string, Value>) {
    match c
    case AllOf(cs) => forall k :: 0 <= k < |cs| ==> Holds(cs[k], facts)
    case AnyOf(cs) => exists k :: 0 <= k < |cs| && Holds(cs[k], facts)
    case Leaf(fact, Eq, value) => fact in facts && PyEq(facts[fact], value)
    case Leaf(fact, In, value) => fact in facts && value.List? && InList(facts[fact], value.items)
  }

  function OpName(op: Op): string {
    match op
    case Eq => "eq"
    case In => "in"
  }

  /** The policy-document form of a typed condition. */
  function ToValue(c: Cond): Value {
    match c
    case AllOf(cs) => Dict([("all", List(seq(|cs|, k requires 0 <= k < |cs| => ToValue(cs[k]))))])
    case AnyOf(cs) => Dict([("any", List(seq(|cs|, k requires 0 <= k < |cs| => ToValue(cs[k]))))])
    case Leaf(fact, op, value) => Dict([("fact", Str(fact)), ("op", Str(OpName(op))), ("value", value)])
  }

  /** Every well-formed condition passes validation. */
  lemma {:induction false} WellFormedIsValid(c: Cond, path: Path)
    requires WellFormed(c)
    ensures NodeErrors(ToValue(c), path) == []
  {
    match c
    case AllOf(cs) =>
      var xs := seq(|cs|, k requires 0 <= k < |cs| => ToValue(cs[k]));
      assert Lookup([("all", List(xs))], "all") == Some(List(xs));
      forall k | 0 <= k < |xs| ensures NodeErrors(xs[k], path + [Child(All, k)]) == [] {
        WellFormedIsValid(cs[k], path + [Child(All, k)]);
      }
      ChildrenErrorsEmpty(All, xs, |xs|, path);
    case AnyOf(cs) =>
      var xs := seq(|cs|, k requires 0 <= k < |cs| => ToValue(cs[k]));
      assert Lookup([("any", List(xs))], "all") == None;
      assert Lookup([("any", List(xs))], "any") == Some(List(xs));
      forall k | 0 <= k < |xs| ensures NodeErrors(xs[k], path + [Child(Any, k)]) == [] {
        WellFormedIsValid(cs[k], path + [Child(Any, k)]);
      }
      ChildrenErrorsEmpty(Any, xs, |xs|, path);
    case Leaf(fact, op, value) =>
      var es := [("fact", Str(fact)), ("op", Str(OpName(op))), ("value", value)];
      LeafLookups(Str(fact), Str(OpName(op)), value);
      MissingKeyErrorsUnfolded(es, path);
  }

  /** On a well-formed condition the evaluator never raises and computes the
      reference meaning. */
  lemma {:induction false} EvaluateMeansHolds(c: Cond, facts: map<string, Value>)
    requires WellFormed(c)
    ensures Evaluate(ToValue(c), facts) == Success(Holds(c, facts))
  {
    match c
    case AllOf(cs) =>
      var xs := seq(|cs|, k requires 0 <= k < |cs| => ToValue(cs[k]));
      var es := [("all", List(xs))];
      assert Lookup(es, "all") == Some(List(xs));
      forall k | 0 <= k < |xs| ensures Evaluate(xs[k], facts) == Success(Holds(cs[k], facts)) {
        EvaluateMeansHolds(cs[k], facts);
      }
      AllIsConjunction(es, xs, facts);
    case AnyOf(cs) =>
      var xs := seq(|cs|, k requires 0 <= k < |cs| => ToValue(cs[k]));
      var es := [("any", List(xs))];
      assert Lookup(es, "all") == None;
      assert Lookup(es, "any") == Some(List(xs));
      forall k | 0 <= k < |xs| ensures Evaluate(xs[k], facts) == Success(Holds(cs[k], facts)) {
        EvaluateMeansHolds(cs[k], facts);
      }
      AnyIsDisjunction(es, xs, facts);
    case Leaf(fact, op, value) =>
      var es := [("fact", Str(fact)), ("op", Str(OpName(op))), ("value", value)];
      LeafLookups(Str(fact), Str(OpName(op)), value);
      if fact in facts {
        PresentFactIsCompared(es, fact, facts);
      } else {
        AbsentFactIsFalse(es, facts);
      }
  }

  /** The fact keys a typed condition refers to. */
  function FactsOf(c: Cond): set<string> {
    match c
    case AllOf(cs) => set k, f | 0 <= k < |cs| && f in FactsOf(cs[k]) :: f
    case AnyOf(cs) => set k, f | 0 <= k < |cs| && f in FactsOf(cs[k]) :: f
    case Leaf(fact, _, _) => {fact}
  }

  /** The meaning of a condition depends only on the facts it refers to. */
  lemma {:induction false} HoldsDependsOnlyOnItsFacts(c: Cond, m1: map<string, Value>, m2: map<string, Value>)
    requires forall f :: f in FactsOf(c) ==> (f in m1 <==> f in m2) && (f in m1 ==> m1[f] == m2[f])
    ensures Holds(c, m1) == Holds(c, m2)
  {
    match c
    case AllOf(cs) =>
      forall k | 0 <= k < |cs| ensures Holds(cs[k], m1) == Holds(cs[k], m2) {
        HoldsDependsOnlyOnItsFacts(cs[k], m1, m2);
      }
    case AnyOf(cs) =>
      forall k | 0 <= k < |cs| ensures Holds(cs[k], m1) == Holds(cs[k], m2) {
        HoldsDependsOnlyOnItsFacts(cs[k], m1, m2);
      }
    case Leaf(_, _, _) =>
  }
}
