/** The policy engine: loading and validating a rule set, correlating facts
    from several collectors, and turning fired rules into findings. */
module Engine {
  import opened Wrappers
  import opened Text
  import opened Values
  import opened Models
  import opened Condition

  // ---------------------------------------------------------------------
  // Rule validation
  // ---------------------------------------------------------------------

  const RequiredRuleKeys: set<string> := {"id", "title", "severity", "confidence", "condition"}

  /** A rule-level load error. The rule's `id` is kept where the message
      shows it (`None` prints as `?`). */
  datatype RuleError =
    | RuleNotADict(index: nat, got: Value)
    | MissingRuleKeys(index: nat, id: Option<Value>, missing: set<string>)
    | BadCondition(index: nat, id: Option<Value>, error: ConditionError)

  datatype LoadError =
    | NotAMapping(got: Value)
    | RulesNotAList(got: Value)
    | ValidationFailed(errors: seq<RuleError>)

  function MissingRuleKeysOf(es: seq<(string, Value)>): set<string> {
    set k | k in RequiredRuleKeys && !HasKey(es, k)
  }

  /** The condition errors of rule `index`, each tagged with the rule. */
  function Tagged(index: nat, id: Option<Value>, errs: seq<ConditionError>): (r: seq<RuleError>)
    ensures |r| == |errs|
    ensures forall k :: 0 <= k < |errs| ==> r[k] == BadCondition(index, id, errs[k])
  {
    if errs == [] then []
    else Tagged(index, id, errs[..|errs| - 1]) + [BadCondition(index, id, errs[|errs| - 1])]
  }

  /** The missing-keys error of a dictionary rule, if it lacks any. */
  function MissingKeysErrors(index: nat, es: seq<(string, Value)>): seq<RuleError> {
    var missing := MissingRuleKeysOf(es);
    if missing != {} then [MissingRuleKeys(index, Lookup(es, "id"), missing)] else []
  }

  /** The errors of a dictionary rule's condition, when it has one. */
  function ConditionErrorsOf(index: nat, es: seq<(string, Value)>): seq<RuleError> {
    if HasKey(es, "condition") then Tagged(index, Lookup(es, "id"), NodeErrors(Lookup(es, "condition").value, []))
    else []
  }

  /** The errors of one rule: a non-dict rule gives one error and nothing
      else; otherwise a missing-keys error and then the errors of its
      condition. */
  function RuleErrors(index: nat, rule: Value): seq<RuleError> {
    match rule
    case Dict(es) => MissingKeysErrors(index, es) + ConditionErrorsOf(index, es)
    case _ => [RuleNotADict(index, rule)]
  }

  /** The concatenation of a list of lists. */
  function Flatten<E>(xss: seq<seq<E>>): seq<E> {
    if xss == [] then [] else Flatten(xss[..|xss| - 1]) + xss[|xss| - 1]
  }

  lemma {:induction false} FlattenEmpty<E>(xss: seq<seq<E>>)
    ensures Flatten(xss) == [] <==> forall i :: 0 <= i < |xss| ==> xss[i] == []
  {
    if xss != [] {
      var init := xss[..|xss| - 1];
      FlattenEmpty(init);
      assert |Flatten(xss)| == |Flatten(init)| + |xss[|xss| - 1]|;
      assert forall i :: 0 <= i < |init| ==> init[i] == xss[i];
    }
  }

  /** The errors of each rule, by position. */
  function PerRuleErrors(rules: seq<Value>): (r: seq<seq<RuleError>>)
    ensures |r| == |rules|
    ensures forall i :: 0 <= i < |rules| ==> r[i] == RuleErrors(i, rules[i])
  {
    seq(|rules|, i requires 0 <= i < |rules| => RuleErrors(i, rules[i]))
  }

  /** The errors of a rule set, in rule order. */
  function RulesErrors(rules: seq<Value>): seq<RuleError> {
    Flatten(PerRuleErrors(rules))
  }

  /** A rule that loads: a dictionary with the five required keys and a
      condition that validates. */
  predicate RuleIsValid(rule: Value) {
    rule.Dict? && MissingRuleKeysOf(rule.entries) == {} && HasKey(rule.entries, "condition")
    && NodeErrors(Lookup(rule.entries, "condition").value, []) == []
  }

  /** `_validate_rules`: one pass over the rules, collecting every error. */
  method ValidateRules(rules: seq<Value>) returns (errors: seq<RuleError>)
    ensures errors == RulesErrors(rules)
  {
    ghost var perRule := PerRuleErrors(rules);
    errors := [];
    for i := 0 to |rules|
      invariant errors == Flatten(perRule[..i])
    {
      assert perRule[..i + 1][..i] == perRule[..i];
      errors := CheckRule(i, rules[i], errors);
    }
    assert perRule[..|rules|] == perRule;
  }

  /** The body of the validation loop for rule `index`: appends its errors. */
  method CheckRule(index: nat, rule: Value, errors: seq<RuleError>) returns (out: seq<RuleError>)
    ensures out == errors + RuleErrors(index, rule)
  {
    if !rule.Dict? {
      return errors + [RuleNotADict(index, rule)];
    }
    var es := rule.entries;
    var id := Lookup(es, "id");
    var missing := MissingRuleKeysOf(es);
    out := errors;
    if missing != {} {
      out := out + [MissingRuleKeys(index, id, missing)];
    }
    assert out == errors + MissingKeysErrors(index, es);
    if HasKey(es, "condition") {
      out := AppendConditionErrors(index, id, Lookup(es, "condition").value, out);
    }
  }

  /** Validates a rule's condition and appends its errors, tagged with the
      rule. */
  method AppendConditionErrors(index: nat, id: Option<Value>, condition: Value, errors: seq<RuleError>)
    returns (out: seq<RuleError>)
    ensures out == errors + Tagged(index, id, NodeErrors(condition, []))
  {
    var condErrors := ValidateCondition(condition);
    out := errors;
    for k := 0 to |condErrors|
      invariant out == errors + Tagged(index, id, condErrors[..k])
    {
      assert condErrors[..k + 1][..k] == condErrors[..k];
      out := out + [BadCondition(index, id, condErrors[k])];
    }
    assert condErrors[..|condErrors|] == condErrors;
  }

  /** A rule has no error iff it is valid. */
  lemma RuleErrorsEmptyIff(i: nat, rule: Value)
    ensures RuleErrors(i, rule) == [] <==> RuleIsValid(rule)
  {
    if rule.Dict? {
      var es := rule.entries;
      if MissingRuleKeysOf(es) == {} {
        assert ("condition" in MissingRuleKeysOf(es)) == ("condition" in RequiredRuleKeys && !HasKey(es, "condition"));
        var errs := NodeErrors(Lookup(es, "condition").value, []);
        assert |Tagged(i, Lookup(es, "id"), errs)| == |errs|;
      }
    }
  }

  /** The rule set has no error iff every rule is valid. */
  lemma NoErrorsIffAllValid(rules: seq<Value>)
    ensures RulesErrors(rules) == [] <==> forall i :: 0 <= i < |rules| ==> RuleIsValid(rules[i])
  {
    FlattenEmpty(PerRuleErrors(rules));
    forall i | 0 <= i < |rules| ensures RuleErrors(i, rules[i]) == [] <==> RuleIsValid(rules[i]) {
      RuleErrorsEmptyIff(i, rules[i]);
    }
  }

  /** A non-dict rule gives exactly one error and is not looked into. */
  lemma NonDictRule(rules: seq<Value>, i: nat)
    requires i < |rules| && !rules[i].Dict?
    ensures RuleErrors(i, rules[i]) == [RuleNotADict(i, rules[i])]
  {
  }

  /** A rule missing required keys reports them all in one error, and the
      errors of its condition follow, each carrying the rule's index and id. */
  lemma RuleErrorsReported(i: nat, es: seq<(string, Value)>)
    ensures MissingRuleKeysOf(es) != {} ==> RuleErrors(i, Dict(es))[0] == MissingRuleKeys(i, Lookup(es, "id"), MissingRuleKeysOf(es))
    ensures forall k :: k in MissingRuleKeysOf(es) <==> k in RequiredRuleKeys && !HasKey(es, k)
    ensures HasKey(es, "condition") ==>
              forall e :: e in NodeErrors(Lookup(es, "condition").value, [])
                          ==> BadCondition(i, Lookup(es, "id"), e) in RuleErrors(i, Dict(es))
  {
    if HasKey(es, "condition") {
      var errs := NodeErrors(Lookup(es, "condition").value, []);
      var tagged := Tagged(i, Lookup(es, "id"), errs);
      forall e | e in errs ensures BadCondition(i, Lookup(es, "id"), e) in RuleErrors(i, Dict(es)) {
        var k :| 0 <= k < |errs| && errs[k] == e;
        assert tagged[k] == BadCondition(i, Lookup(es, "id"), e);
        assert tagged[k] in RuleErrors(i, Dict(es));
      }
    }
  }

  // ---------------------------------------------------------------------
  // Loading
  // ---------------------------------------------------------------------

  /** The `rules` entry of a policy document, an empty list when absent. */
  function RulesEntry(es: seq<(string, Value)>): Value {
    Lookup(es, "rules").GetOr(List([]))
  }

  /** `PolicyEngine.__init__` after the YAML read: the document must be a
      mapping and its `rules` a list of rules that all validate. */
  function Load(doc: Value): Result<seq<Value>, LoadError> {
    match doc
    case Dict(es) =>
      var rules := RulesEntry(es);
      if !rules.List? then Failure(RulesNotAList(rules))
      else
        var errors := RulesErrors(rules.items);
        if errors != [] then Failure(ValidationFailed(errors)) else Success(rules.items)
    case _ => Failure(NotAMapping(doc))
  }

  /** Loading is all or nothing: it succeeds iff the document is a mapping
      whose rules form a list of valid rules, and then keeps them all, in
      order. */
  lemma LoadAllOrNothing(doc: Value)
    ensures Load(doc).Success? <==>
              doc.Dict? && RulesEntry(doc.entries).List?
              && forall i :: 0 <= i < |RulesEntry(doc.entries).items| ==> RuleIsValid(RulesEntry(doc.entries).items[i])
    ensures Load(doc).Success? ==> Load(doc).value == RulesEntry(doc.entries).items
  {
    if doc.Dict? && RulesEntry(doc.entries).List? {
      var rules := RulesEntry(doc.entries).items;
      NoErrorsIffAllValid(rules);
    }
  }

  /** Each way loading fails: not a mapping, `rules` not a list, or the
      list of every rule error when there is at least one. A document
      without `rules` loads as the empty policy. */
  lemma LoadFailures(doc: Value)
    ensures !doc.Dict? ==> Load(doc) == Failure(NotAMapping(doc))
    ensures doc.Dict? && !HasKey(doc.entries, "rules") ==> Load(doc) == Success([])
    ensures doc.Dict? && HasKey(doc.entries, "rules") && !Lookup(doc.entries, "rules").value.List?
            ==> Load(doc) == Failure(RulesNotAList(Lookup(doc.entries, "rules").value))
    ensures Load(doc).Failure? && Load(doc).error.ValidationFailed?
            ==> Load(doc).error.errors == RulesErrors(RulesEntry(doc.entries).items)
                && Load(doc).error.errors != []
  {
  }

  // ---------------------------------------------------------------------
  // Referenced fact keys
  // ---------------------------------------------------------------------

  /** `_extract_fact_keys`: the `fact` values below a condition, walking
      `all`, else `any`, else a leaf that has a `fact`. */
  function FactKeys(condition: Value): Result<set<Value>, PyError>
    decreases Size(condition), 1, 0
  {
    var hasAll :- Contains(condition, Str("all"));
    if hasAll then
      var children :- Index(condition, "all");
      var items :- Iterate(children);
      UnionFactKeys(items, Size(condition))
    else
      var hasAny :- Contains(condition, Str("any"));
      if hasAny then
        var children :- Index(condition, "any");
        var items :- Iterate(children);
        UnionFactKeys(items, Size(condition))
      else
        var hasFact :- Contains(condition, Str("fact"));
        if !hasFact then Success({})
        else
          var fact :- Index(condition, "fact");
          if Hashable(fact) then Success({fact}) else Failure(TypeError)
  }

  function UnionFactKeys(items: seq<Value>, bound: nat): Result<set<Value>, PyError>
    requires forall k :: 0 <= k < |items| ==> Size(items[k]) < bound
    decreases bound, 0, |items|
  {
    if items == [] then Success({})
    else
      var first :- FactKeys(items[0]);
      var rest :- UnionFactKeys(items[1..], bound);
      Success(first + rest)
  }

  /** The union walk succeeds iff every child's walk does, and then holds
      exactly the keys of the children. */
  lemma {:induction false} UnionMembers(items: seq<Value>, bound: nat)
    requires forall k :: 0 <= k < |items| ==> Size(items[k]) < bound
    ensures UnionFactKeys(items, bound).Success? <==> forall k :: 0 <= k < |items| ==> FactKeys(items[k]).Success?
    ensures UnionFactKeys(items, bound).Success? ==>
              forall v :: v in UnionFactKeys(items, bound).value
                          <==> exists k :: 0 <= k < |items| && FactKeys(items[k]).Success? && v in FactKeys(items[k]).value
    decreases |items|
  {
    if items != [] {
      var rest := items[1..];
      UnionMembers(rest, bound);
      assert forall k :: 0 <= k < |rest| ==> rest[k] == items[k + 1];
      if UnionFactKeys(items, bound).Success? {
        var u := UnionFactKeys(items, bound).value;
        forall v ensures v in u <==> exists k :: 0 <= k < |items| && FactKeys(items[k]).Success? && v in FactKeys(items[k]).value {
          if v in u && v !in FactKeys(items[0]).value {
            var k :| 0 <= k < |rest| && FactKeys(rest[k]).Success? && v in FactKeys(rest[k]).value;
            assert FactKeys(items[k + 1]).Success? && v in FactKeys(items[k + 1]).value;
          }
          if exists k :: 0 <= k < |items| && FactKeys(items[k]).Success? && v in FactKeys(items[k]).value {
            var k :| 0 <= k < |items| && FactKeys(items[k]).Success? && v in FactKeys(items[k]).value;
            if k > 0 {
              assert FactKeys(rest[k - 1]).Success? && v in FactKeys(rest[k - 1]).value;
            }
          }
        }
      }
    }
  }

  lemma ChildSmaller(name: string, xs: seq<Value>, k: nat)
    requires k < |xs|
    ensures Size(xs[k]) < Size(Dict([(name, List(xs))]))
  {
    ItemSmaller(xs, k);
    EntrySmaller([(name, List(xs))], 0);
  }

  /** An `all` node: the walk unions its children's keys. */
  lemma FactKeysOfAllNode(xs: seq<Value>, bound: nat)
    requires bound == Size(Dict([("all", List(xs))]))
    requires forall k :: 0 <= k < |xs| ==> Size(xs[k]) < bound
    ensures FactKeys(Dict([("all", List(xs))])) == UnionFactKeys(xs, bound)
  {
    var es := [("all", List(xs))];
    assert Lookup(es, "all") == Some(List(xs));
    LookupSmaller(es, "all");
    assert Iterate(List(xs)) == Success(xs);
  }

  /** An `any` node: the walk unions its children's keys. */
  lemma FactKeysOfAnyNode(xs: seq<Value>, bound: nat)
    requires bound == Size(Dict([("any", List(xs))]))
    requires forall k :: 0 <= k < |xs| ==> Size(xs[k]) < bound
    ensures FactKeys(Dict([("any", List(xs))])) == UnionFactKeys(xs, bound)
  {
    var es := [("any", List(xs))];
    assert Lookup(es, "all") == None;
    assert Lookup(es, "any") == Some(List(xs));
    LookupSmaller(es, "any");
    assert Iterate(List(xs)) == Success(xs);
  }

  /** The children of a combinator, walked one by one, give exactly the
      facts of the combinator. */
  lemma {:induction false} ChildrenFactKeys(c: Cond, cs: seq<Cond>, xs: seq<Value>, bound: nat)
    requires c == AllOf(cs) || c == AnyOf(cs)
    requires |xs| == |cs| && forall k :: 0 <= k < |cs| ==> xs[k] == ToValue(cs[k])
    requires forall k :: 0 <= k < |xs| ==> Size(xs[k]) < bound
    requires forall k :: 0 <= k < |cs| ==>
               FactKeys(xs[k]).Success? && forall v :: v in FactKeys(xs[k]).value <==> v.Str? && v.s in FactsOf(cs[k])
    ensures UnionFactKeys(xs, bound).Success?
    ensures forall v :: v in UnionFactKeys(xs, bound).value <==> v.Str? && v.s in FactsOf(c)
  {
    UnionMembers(xs, bound);
    var u := UnionFactKeys(xs, bound).value;
    forall v ensures v in u <==> v.Str? && v.s in FactsOf(c) {
      if v in u {
        var k :| 0 <= k < |xs| && FactKeys(xs[k]).Success? && v in FactKeys(xs[k]).value;
        assert v.Str? && v.s in FactsOf(cs[k]);
      }
      if v.Str? && v.s in FactsOf(c) {
        var k :| 0 <= k < |cs| && v.s in FactsOf(cs[k]);
        assert v in FactKeys(xs[k]).value;
      }
    }
  }

  /** On a well-formed condition the walk finds exactly the facts its
      leaves name. */
  lemma {:induction false} FactKeysOfWellFormed(c: Cond)
    requires WellFormed(c)
    ensures FactKeys(ToValue(c)).Success?
    ensures forall v :: v in FactKeys(ToValue(c)).value <==> v.Str? && v.s in FactsOf(c)
  {
    match c
    case AllOf(cs) =>
      var xs := seq(|cs|, k requires 0 <= k < |cs| => ToValue(cs[k]));
      assert ToValue(c) == Dict([("all", List(xs))]);
      forall k | 0 <= k < |xs| ensures Size(xs[k]) < Size(ToValue(c)) {
        ChildSmaller("all", xs, k);
      }
      FactKeysOfAllNode(xs, Size(ToValue(c)));
      forall k | 0 <= k < |cs|
        ensures FactKeys(xs[k]).Success? && forall v :: v in FactKeys(xs[k]).value <==> v.Str? && v.s in FactsOf(cs[k])
      {
        FactKeysOfWellFormed(cs[k]);
      }
      ChildrenFactKeys(c, cs, xs, Size(ToValue(c)));
    case AnyOf(cs) =>
      var xs := seq(|cs|, k requires 0 <= k < |cs| => ToValue(cs[k]));
      assert ToValue(c) == Dict([("any", List(xs))]);
      forall k | 0 <= k < |xs| ensures Size(xs[k]) < Size(ToValue(c)) {
        ChildSmaller("any", xs, k);
      }
      FactKeysOfAnyNode(xs, Size(ToValue(c)));
      forall k | 0 <= k < |cs|
        ensures FactKeys(xs[k]).Success? && forall v :: v in FactKeys(xs[k]).value <==> v.Str? && v.s in FactsOf(cs[k])
      {
        FactKeysOfWellFormed(cs[k]);
      }
      ChildrenFactKeys(c, cs, xs, Size(ToValue(c)));
    case Leaf(fact, op, value) =>
      LeafLookups(Str(fact), Str(OpName(op)), value);
  }

  // ---------------------------------------------------------------------
  // Evidence
  // ---------------------------------------------------------------------

  /** `[f for f in facts if f.key in fact_keys]` */
  function Evidence(facts: seq<Fact>, keys: set<Value>): seq<Fact> {
    if facts == [] then []
    else
      Evidence(facts[..|facts| - 1], keys)
      + (if Str(facts[|facts| - 1].key) in keys then [facts[|facts| - 1]] else [])
  }

  /** Evidence keeps every matching fact as often as it occurs, drops every
      other fact, and preserves the input order. */
  lemma {:induction false} EvidenceIsFilter(facts: seq<Fact>, keys: set<Value>)
    ensures forall f :: multiset(Evidence(facts, keys))[f]
                        == if Str(f.key) in keys then multiset(facts)[f] else 0
  {
    if facts != [] {
      var init := facts[..|facts| - 1];
      var last := facts[|facts| - 1];
      EvidenceIsFilter(init, keys);
      assert facts == init + [last];
      assert multiset(facts) == multiset(init) + multiset{last};
    }
  }

  lemma {:induction false} EvidenceOfConcat(a: seq<Fact>, b: seq<Fact>, keys: set<Value>)
    ensures Evidence(a + b, keys) == Evidence(a, keys) + Evidence(b, keys)
    decreases |b|
  {
    if b != [] {
      var b' := b[..|b| - 1];
      EvidenceOfConcat(a, b', keys);
      assert (a + b)[..|a + b| - 1] == a + b';
      assert (a + b)[|a + b| - 1] == b[|b| - 1];
    } else {
      assert a + b == a;
    }
  }

  // ---------------------------------------------------------------------
  // Fact correlation
  // ---------------------------------------------------------------------

  /** The correlated map: each key bound to the value of its last record. */
  function LastValues(facts: seq<Fact>): map<string, Value> {
    if facts == [] then map[]
    else LastValues(facts[..|facts| - 1])[facts[|facts| - 1].key := facts[|facts| - 1].value]
  }

  /** The sources of the records with `key`, in observation order. */
  function SourcesOf(facts: seq<Fact>, key: string): seq<string> {
    if facts == [] then []
    else
      SourcesOf(facts[..|facts| - 1], key)
      + (if facts[|facts| - 1].key == key then [facts[|facts| - 1].source] else [])
  }

  /** The distinct keys, in order of first occurrence. */
  function FirstSeenKeys(facts: seq<Fact>): seq<string> {
    if facts == [] then []
    else
      var keys := FirstSeenKeys(facts[..|facts| - 1]);
      if facts[|facts| - 1].key in keys then keys else keys + [facts[|facts| - 1].key]
  }

  /** A key collected more than once, with all its sources. */
  datatype Collision = Collision(key: string, sources: seq<string>)

  /** The collisions among `keys`, in the order of `keys`. */
  function CollisionsAmong(keys: seq<string>, facts: seq<Fact>): seq<Collision> {
    if keys == [] then []
    else
      CollisionsAmong(keys[..|keys| - 1], facts)
      + (var k := keys[|keys| - 1]; if |SourcesOf(facts, k)| > 1 then [Collision(k, SourcesOf(facts, k))] else [])
  }

  function Collisions(facts: seq<Fact>): seq<Collision> {
    CollisionsAmong(FirstSeenKeys(facts), facts)
  }

  lemma {:induction false} FirstSeenKeysAreTheKeys(facts: seq<Fact>)
    ensures forall k :: k in FirstSeenKeys(facts) <==> exists i :: 0 <= i < |facts| && facts[i].key == k
    ensures forall i, j :: 0 <= i < j < |FirstSeenKeys(facts)| ==> FirstSeenKeys(facts)[i] != FirstSeenKeys(facts)[j]
  {
    if facts != [] {
      var init := facts[..|facts| - 1];
      FirstSeenKeysAreTheKeys(init);
      assert forall i :: 0 <= i < |init| ==> init[i] == facts[i];
    }
  }

  lemma {:induction false} KeyPresentIffSourced(facts: seq<Fact>, key: string)
    ensures key in LastValues(facts) <==> SourcesOf(facts, key) != []
    ensures |SourcesOf(facts, key)| <= |facts|
  {
    if facts != [] {
      KeyPresentIffSourced(facts[..|facts| - 1], key);
    }
  }

  /** Last write wins: a key is in the correlated map iff some record has it,
      and then it is bound to the value of the last such record. */
  lemma {:induction false} LastWriteWins(facts: seq<Fact>, key: string)
    ensures key in LastValues(facts) <==> exists i :: 0 <= i < |facts| && facts[i].key == key
    ensures key in LastValues(facts) ==>
              exists i :: 0 <= i < |facts| && facts[i].key == key && facts[i].value == LastValues(facts)[key]
                          && forall j :: i < j < |facts| ==> facts[j].key != key
  {
    if facts != [] {
      var init := facts[..|facts| - 1];
      var last := facts[|facts| - 1];
      LastWriteWins(init, key);
      assert forall i :: 0 <= i < |init| ==> init[i] == facts[i];
      if last.key != key && key in LastValues(facts) {
        var i :| 0 <= i < |init| && init[i].key == key && init[i].value == LastValues(init)[key]
                 && forall j :: i < j < |init| ==> init[j].key != key;
        assert facts[i].key == key && facts[i].value == LastValues(facts)[key];
      }
      if last.key == key {
        assert facts[|facts| - 1].key == key;
      }
    }
  }

  lemma {:induction false} CollisionsAmongSpec(keys: seq<string>, facts: seq<Fact>)
    ensures forall c :: c in CollisionsAmong(keys, facts)
                        ==> c.key in keys && c.sources == SourcesOf(facts, c.key) && |c.sources| > 1
    ensures forall k :: k in keys && |SourcesOf(facts, k)| > 1
                        ==> Collision(k, SourcesOf(facts, k)) in CollisionsAmong(keys, facts)
    ensures |CollisionsAmong(keys, facts)| <= |keys|
  {
    if keys != [] {
      CollisionsAmongSpec(keys[..|keys| - 1], facts);
      assert keys == keys[..|keys| - 1] + [keys[|keys| - 1]];
    }
  }

  /** One warning per key collected more than once, and none for the others;
      each carries all the key's sources in observation order. */
  lemma CollisionsExact(facts: seq<Fact>)
    ensures forall c :: c in Collisions(facts) ==> c.sources == SourcesOf(facts, c.key) && |c.sources| > 1
    ensures forall k :: (exists c :: c in Collisions(facts) && c.key == k) <==> |SourcesOf(facts, k)| > 1
  {
    var keys := FirstSeenKeys(facts);
    CollisionsAmongSpec(keys, facts);
    FirstSeenKeysAreTheKeys(facts);
    forall k | |SourcesOf(facts, k)| > 1 ensures Collision(k, SourcesOf(facts, k)) in Collisions(facts) {
      KeyPresentIffSourced(facts, k);
      LastWriteWins(facts, k);
    }
  }

  /** The position of the first record with `key`, or `|facts|`. */
  function FirstIndex(facts: seq<Fact>, key: string): (r: nat)
    ensures r <= |facts|
    ensures r < |facts| ==> facts[r].key == key
  {
    if facts == [] then 0 else if facts[0].key == key then 0 else 1 + FirstIndex(facts[1..], key)
  }

  /** No record before that position has the key. */
  lemma {:induction false} FirstIndexIsFirst(facts: seq<Fact>, key: string)
    ensures forall j :: 0 <= j < FirstIndex(facts, key) ==> facts[j].key != key
  {
    if facts != [] && facts[0].key != key {
      FirstIndexIsFirst(facts[1..], key);
      assert forall j :: 1 <= j < |facts| ==> facts[j] == facts[1..][j - 1];
    }
  }

  /** One more record does not move the first occurrence of a key already
      seen. */
  lemma FirstIndexSnoc(init: seq<Fact>, f: Fact, key: string)
    requires FirstIndex(init, key) < |init|
    ensures FirstIndex(init + [f], key) == FirstIndex(init, key)
  {
    var facts := init + [f];
    FirstIndexIsFirst(init, key);
    FirstIndexIsFirst(facts, key);
    assert forall j :: 0 <= j < |init| ==> facts[j] == init[j];
  }

  /** A record whose key was never seen is its key's first occurrence. */
  lemma FirstIndexOfNewKey(init: seq<Fact>, f: Fact)
    requires forall i :: 0 <= i < |init| ==> init[i].key != f.key
    ensures FirstIndex(init + [f], f.key) == |init|
  {
    var facts := init + [f];
    FirstIndexIsFirst(facts, f.key);
    assert forall j :: 0 <= j < |init| ==> facts[j] == init[j];
    assert facts[|init|] == f;
  }

  /** Keys in increasing order of first occurrence. */
  predicate InFirstSeenOrder(keys: seq<string>, facts: seq<Fact>) {
    forall i, j :: 0 <= i < j < |keys| ==> FirstIndex(facts, keys[i]) < FirstIndex(facts, keys[j])
  }

  lemma InFirstSeenOrderSnoc(keys: seq<string>, k: string, facts: seq<Fact>)
    requires InFirstSeenOrder(keys, facts)
    requires forall i :: 0 <= i < |keys| ==> FirstIndex(facts, keys[i]) < FirstIndex(facts, k)
    ensures InFirstSeenOrder(keys + [k], facts)
  {
    var ks := keys + [k];
    assert forall i :: 0 <= i < |keys| ==> ks[i] == keys[i];
  }

  /** The distinct keys come in the order of their first records. */
  lemma {:induction false} FirstSeenKeysOrdered(facts: seq<Fact>)
    ensures forall k :: k in FirstSeenKeys(facts) ==> FirstIndex(facts, k) < |facts|
    ensures InFirstSeenOrder(FirstSeenKeys(facts), facts)
  {
    if facts != [] {
      var init := facts[..|facts| - 1];
      var last := facts[|facts| - 1];
      assert init + [last] == facts;
      FirstSeenKeysOrdered(init);
      var keys := FirstSeenKeys(init);
      forall k | k in keys
        ensures FirstIndex(facts, k) == FirstIndex(init, k)
      {
        FirstIndexSnoc(init, last, k);
      }
      assert InFirstSeenOrder(keys, facts) by {
        assert forall i :: 0 <= i < |keys| ==> keys[i] in keys;
      }
      if last.key !in keys {
        FirstSeenKeysAreTheKeys(init);
        FirstIndexOfNewKey(init, last);
        assert forall i :: 0 <= i < |keys| ==> keys[i] in keys;
        InFirstSeenOrderSnoc(keys, last.key, facts);
      }
    }
  }

  /** Collisions keep the order of the keys they are drawn from: whatever
      ranks `keys` in increasing order ranks the collisions so too. */
  lemma {:induction false} CollisionsAmongOrdered(keys: seq<string>, facts: seq<Fact>, rank: string -> int)
    requires forall i, j :: 0 <= i < j < |keys| ==> rank(keys[i]) < rank(keys[j])
    ensures forall a, b :: 0 <= a < b < |CollisionsAmong(keys, facts)|
              ==> rank(CollisionsAmong(keys, facts)[a].key) < rank(CollisionsAmong(keys, facts)[b].key)
  {
    if keys != [] {
      var init := keys[..|keys| - 1];
      var last := keys[|keys| - 1];
      assert forall i :: 0 <= i < |init| ==> init[i] == keys[i];
      CollisionsAmongOrdered(init, facts, rank);
      CollisionsAmongSpec(init, facts);
      var before := CollisionsAmong(init, facts);
      forall a | 0 <= a < |before|
        ensures rank(before[a].key) < rank(last)
      {
        assert before[a] in before;
      }
    }
  }

  /** The warnings come in the order in which their keys were first
      collected. */
  lemma WarningsInFirstSeenOrder(facts: seq<Fact>)
    ensures forall a, b :: 0 <= a < b < |Collisions(facts)|
              ==> FirstIndex(facts, Collisions(facts)[a].key) < FirstIndex(facts, Collisions(facts)[b].key)
  {
    FirstSeenKeysOrdered(facts);
    assert InFirstSeenOrder(FirstSeenKeys(facts), facts);
    var rank := k => FirstIndex(facts, k);
    CollisionsAmongOrdered(FirstSeenKeys(facts), facts, rank);
  }

  /** The collision warning text: the quoted key, the record count and the
      sources, comma-separated. */
  function CollisionMessage(c: Collision): string {
    "fact " + Quoted(c.key) + " collected " + Times(|c.sources|) + " (sources: " + Join(c.sources, ", ")
    + "), using last value"
  }

  function Quoted(key: string): string { "'" + key + "'" }

  function Times(n: nat): string { NatToString(n) + " times" }

  /** The warning names the key. */
  lemma CollisionMessageNamesKey(c: Collision)
    ensures IsSubstring(Quoted(c.key), CollisionMessage(c))
  {
    var rest := " collected " + Times(|c.sources|) + " (sources: " + Join(c.sources, ", ") + "), using last value";
    assert CollisionMessage(c) == "fact " + Quoted(c.key) + rest;
    SubstringOfConcat("fact ", Quoted(c.key), rest);
  }

  /** The warning gives the number of records, in decimal digits. */
  lemma CollisionMessageCounts(c: Collision)
    ensures exists digits :: digits != [] && DigitsValue(digits) == |c.sources|
                             && (forall i :: 0 <= i < |digits| ==> '0' <= digits[i] <= '9')
                             && IsSubstring(" collected " + digits + " times", CollisionMessage(c))
  {
    var digits := NatToString(|c.sources|);
    var before := "fact " + Quoted(c.key);
    var after := " (sources: " + Join(c.sources, ", ") + "), using last value";
    assert CollisionMessage(c) == before + (" collected " + digits + " times") + after;
    SubstringOfConcat(before, " collected " + digits + " times", after);
  }

  /** The warning names every source. */
  lemma CollisionMessageNamesSources(c: Collision, k: nat)
    requires k < |c.sources|
    ensures IsSubstring(c.sources[k], CollisionMessage(c))
  {
    var before := "fact " + Quoted(c.key) + " collected " + Times(|c.sources|) + " (sources: ";
    var joined := Join(c.sources, ", ");
    assert CollisionMessage(c) == before + joined + "), using last value";
    SubstringOfConcat(before, joined, "), using last value");
    JoinContainsParts(c.sources, ", ", k);
    SubstringTransitive(c.sources[k], joined, CollisionMessage(c));
  }

  /** `_build_fact_map`: one pass over the records, tracking the last value
      and the sources of every key, then the keys with several sources. */
  method BuildFactMap(facts: seq<Fact>) returns (factMap: map<string, Value>, collisions: seq<Collision>)
    ensures factMap == LastValues(facts)
    ensures collisions == Collisions(facts)
  {
    var sources, order;
    factMap, sources, order := ScanFacts(facts);
    collisions := SelectCollisions(order, sources, facts);
  }

  /** The loop of `_build_fact_map`: the last value of every key, the sources
      of every key, and the keys in the order they were first seen. */
  method ScanFacts(facts: seq<Fact>)
    returns (factMap: map<string, Value>, sources: map<string, seq<string>>, order: seq<string>)
    ensures factMap == LastValues(facts)
    ensures order == FirstSeenKeys(facts)
    ensures forall k :: k in sources <==> k in order
    ensures forall k :: k in sources ==> sources[k] == SourcesOf(facts, k)
  {
    factMap := map[];
    sources := map[];
    order := [];
    for i := 0 to |facts|
      invariant factMap == LastValues(facts[..i])
      invariant order == FirstSeenKeys(facts[..i])
      invariant forall k :: k in sources <==> k in order
      invariant forall k :: k in sources ==> sources[k] == SourcesOf(facts[..i], k)
    {
      var f := facts[i];
      assert facts[..i + 1][..i] == facts[..i];
      FirstSeenKeysAreTheKeys(facts[..i]);
      if f.key !in sources {
        KeyPresentIffSourced(facts[..i], f.key);
        LastWriteWins(facts[..i], f.key);
        order := order + [f.key];
        sources := sources[f.key := []];
      }
      sources := sources[f.key := sources[f.key] + [f.source]];
      factMap := factMap[f.key := f.value];
    }
    assert facts[..|facts|] == facts;
  }

  /** `{k: v for k, v in sources.items() if len(v) > 1}`, in the order the
      keys were first seen. */
  method SelectCollisions(order: seq<string>, sources: map<string, seq<string>>, facts: seq<Fact>)
    returns (collisions: seq<Collision>)
    requires forall k :: k in order ==> k in sources && sources[k] == SourcesOf(facts, k)
    ensures collisions == CollisionsAmong(order, facts)
  {
    collisions := [];
    for j := 0 to |order|
      invariant collisions == CollisionsAmong(order[..j], facts)
    {
      assert order[..j + 1][..j] == order[..j];
      if |sources[order[j]]| > 1 {
        collisions := collisions + [Collision(order[j], sources[order[j]])];
      }
    }
    assert order[..|order|] == order;
  }

  // ---------------------------------------------------------------------
  // Findings
  // ---------------------------------------------------------------------

  /** `[a["id"] for a in actions.get("recommended", [])]` */
  function ActionIds(items: seq<Value>): (r: Result<seq<Value>, PyError>)
    ensures r.Success? <==> forall k :: 0 <= k < |items| ==> Index(items[k], "id").Success?
    ensures r.Success? ==> |r.value| == |items|
                           && forall k :: 0 <= k < |items| ==> Index(items[k], "id") == Success(r.value[k])
    ensures r.Failure? ==> exists j :: 0 <= j < |items| && Index(items[j], "id") == Failure(r.error)
                                       && forall k :: 0 <= k < j ==> Index(items[k], "id").Success?
  {
    if items == [] then Success([])
    else
      var front := items[..|items| - 1];
      assert forall k :: 0 <= k < |front| ==> front[k] == items[k];
      var init :- ActionIds(front);
      var last :- Index(items[|items| - 1], "id");
      Success(init + [last])
  }

  /** Of two malformed actions, the first one's exception is raised: a list
      refuses a string index before the empty dictionary misses its key. */
  lemma ActionIdsRaiseForTheFirstAction()
    ensures ActionIds([List([]), Dict([])]) == Failure(TypeError)
  {
    var items := [List([]), Dict([])];
    assert items[..1] == [List([])];
    assert [List([])][..0] == [];
  }

  /** The finding of a rule whose condition held, built from its actions and
      fields, or the exception Python would raise on the way. */
  function FiredFinding(rule: Value, evidence: seq<Fact>): Result<Finding, PyError> {
    var actions :- Get(rule, "actions", Dict([]));
    var recommended :- Get(actions, "recommended", List([]));
    var recommendedItems :- Iterate(recommended);
    var recommendedIds :- ActionIds(recommendedItems);
    var autofix :- Get(actions, "autofix", List([]));
    var autofixCount :- Length(autofix);
    var ruleId :- Index(rule, "id");
    var title :- Index(rule, "title");
    var severity :- Index(rule, "severity");
    var confidence :- Index(rule, "confidence");
    Success(Finding(ruleId, title, severity, confidence, evidence, recommendedIds, autofixCount > 0))
  }

  /** What one rule contributes: nothing when its condition is false, a
      finding when it is true, or the exception Python would raise. */
  function RuleOutcome(rule: Value, factMap: map<string, Value>, facts: seq<Fact>): Result<Option<Finding>, PyError> {
    var condition :- Index(rule, "condition");
    var keys :- FactKeys(condition);
    var fired :- Evaluate(condition, factMap);
    if !fired then Success(None)
    else
      var finding :- FiredFinding(rule, Evidence(facts, keys));
      Success(Some(finding))
  }

  type Outcome = Result<Option<Finding>, PyError>

  /** The findings of a run of rule outcomes, in order, or the first
      exception. */
  function Collect(outcomes: seq<Outcome>): Result<seq<Finding>, PyError> {
    if outcomes == [] then Success([])
    else
      var init :- Collect(outcomes[..|outcomes| - 1]);
      var last :- outcomes[|outcomes| - 1];
      Success(init + if last.Some? then [last.value] else [])
  }

  /** The outcome of every rule, in document order. */
  function Outcomes(rules: seq<Value>, factMap: map<string, Value>, facts: seq<Fact>): (r: seq<Outcome>)
    ensures |r| == |rules|
  {
    if rules == [] then []
    else Outcomes(rules[..|rules| - 1], factMap, facts) + [RuleOutcome(rules[|rules| - 1], factMap, facts)]
  }

  lemma {:induction false} OutcomesAt(rules: seq<Value>, factMap: map<string, Value>, facts: seq<Fact>, i: nat)
    requires i < |rules|
    ensures Outcomes(rules, factMap, facts)[i] == RuleOutcome(rules[i], factMap, facts)
  {
    if i < |rules| - 1 {
      OutcomesAt(rules[..|rules| - 1], factMap, facts, i);
    }
  }

  datatype EvalResult = EvalResult(findings: seq<Finding>, warnings: seq<string>)

  function CollisionMessages(cs: seq<Collision>): (r: seq<string>)
    ensures |r| == |cs|
    ensures forall k :: 0 <= k < |cs| ==> r[k] == CollisionMessage(cs[k])
  {
    seq(|cs|, k requires 0 <= k < |cs| => CollisionMessage(cs[k]))
  }

  /** `PolicyEngine.evaluate`, as a function of the rules and the records. */
  function EvaluateRules(rules: seq<Value>, facts: seq<Fact>): Result<EvalResult, PyError> {
    var findings :- Collect(Outcomes(rules, LastValues(facts), facts));
    Success(EvalResult(findings, CollisionMessages(Collisions(facts))))
  }

  /** The positions of the outcomes that are findings, in increasing order. */
  function FiredIndices(outcomes: seq<Outcome>): seq<nat> {
    if outcomes == [] then []
    else
      FiredIndices(outcomes[..|outcomes| - 1])
      + (var last := outcomes[|outcomes| - 1]; if last.Success? && last.value.Some? then [|outcomes| - 1] else [])
  }

  /** Findings follow rule order: when collecting succeeds, every outcome
      succeeded, the j-th finding is that of the j-th rule that fired, and
      a rule contributes a finding iff it fired. */
  lemma {:induction false} CollectFollowsOutcomes(outcomes: seq<Outcome>)
    requires Collect(outcomes).Success?
    ensures forall i :: 0 <= i < |outcomes| ==> outcomes[i].Success?
    ensures var fs := Collect(outcomes).value;
            var idx := FiredIndices(outcomes);
            |fs| == |idx|
            && (forall j :: 0 <= j < |idx| ==> idx[j] < |outcomes| && outcomes[idx[j]] == Success(Some(fs[j])))
            && (forall j, j' :: 0 <= j < j' < |idx| ==> idx[j] < idx[j'])
            && (forall i :: 0 <= i < |outcomes| && outcomes[i].value.Some? ==> i in idx)
  {
    if outcomes != [] {
      var init := outcomes[..|outcomes| - 1];
      CollectFollowsOutcomes(init);
      assert forall i :: 0 <= i < |init| ==> init[i] == outcomes[i];
    }
  }

  /** When collecting fails, it fails with the error of the first outcome
      that is an error. */
  lemma {:induction false} CollectRaisesFirstError(outcomes: seq<Outcome>)
    ensures Collect(outcomes).Failure? <==> exists i :: 0 <= i < |outcomes| && outcomes[i].Failure?
    ensures Collect(outcomes).Failure? ==>
              exists i :: 0 <= i < |outcomes| && outcomes[i] == Failure(Collect(outcomes).error)
                          && forall j :: 0 <= j < i ==> outcomes[j].Success?
  {
    if outcomes != [] {
      var init := outcomes[..|outcomes| - 1];
      CollectRaisesFirstError(init);
      assert forall i :: 0 <= i < |init| ==> init[i] == outcomes[i];
      if Collect(init).Failure? {
        var i :| 0 <= i < |init| && init[i] == Failure(Collect(init).error)
                 && forall j :: 0 <= j < i ==> init[j].Success?;
        assert outcomes[i] == Failure(Collect(outcomes).error);
      } else if outcomes[|outcomes| - 1].Failure? {
        var i := |outcomes| - 1;
        assert outcomes[i] == Failure(Collect(outcomes).error);
      }
    }
  }

  lemma CollectSnoc(xs: seq<Outcome>, o: Outcome)
    ensures Collect(xs).Success? && o == Success(None) ==> Collect(xs + [o]) == Collect(xs)
    ensures Collect(xs).Success? && o.Success? && o.value.Some? ==>
              Collect(xs + [o]) == Success(Collect(xs).value + [o.value.value])
    ensures Collect(xs).Success? && o.Failure? ==> Collect(xs + [o]) == Failure(o.error)
  {
    assert (xs + [o])[..|xs|] == xs;
    assert Collect(xs).Success? ==> Collect(xs).value + [] == Collect(xs).value;
  }

  /** Once a prefix of the outcomes raises, so does the whole run, with the
      same error. */
  lemma {:induction false} FailurePersists(outcomes: seq<Outcome>, n: nat)
    requires n <= |outcomes|
    requires Collect(outcomes[..n]).Failure?
    ensures Collect(outcomes) == Collect(outcomes[..n])
    decreases |outcomes| - n
  {
    if n < |outcomes| {
      assert outcomes[..n + 1][..n] == outcomes[..n];
      FailurePersists(outcomes, n + 1);
    } else {
      assert outcomes[..n] == outcomes;
    }
  }

  /** A rule that evaluates contributes a finding iff its condition holds,
      with the evidence of the keys its condition refers to. */
  lemma RuleFiresIffConditionHolds(rule: Value, factMap: map<string, Value>, facts: seq<Fact>)
    requires RuleOutcome(rule, factMap, facts).Success?
    ensures var condition := Index(rule, "condition").value;
            (RuleOutcome(rule, factMap, facts).value.Some? <==> Evaluate(condition, factMap) == Success(true))
            && (RuleOutcome(rule, factMap, facts).value.Some? ==>
                  FiredFinding(rule, Evidence(facts, FactKeys(condition).value))
                  == Success(RuleOutcome(rule, factMap, facts).value.value))
  {
  }

  /** A fired rule's finding carries the rule's own fields and the evidence
      it was given. */
  lemma FindingFields(rule: Value, evidence: seq<Fact>)
    requires FiredFinding(rule, evidence).Success?
    ensures var f := FiredFinding(rule, evidence).value;
            Index(rule, "id") == Success(f.ruleId) && Index(rule, "title") == Success(f.title)
            && Index(rule, "severity") == Success(f.severity) && Index(rule, "confidence") == Success(f.confidence)
            && f.evidence == evidence
  {
  }

  /** Without an `actions` entry a fired rule recommends nothing and offers
      no autofix. */
  lemma ActionsDefaultToEmpty(rule: Value, evidence: seq<Fact>)
    requires rule.Dict? && !HasKey(rule.entries, "actions")
    requires FiredFinding(rule, evidence).Success?
    ensures FiredFinding(rule, evidence).value.recommendedActions == []
    ensures !FiredFinding(rule, evidence).value.autofixAvailable
  {
    assert Get(rule, "actions", Dict([])) == Success(Dict([]));
    assert Iterate(List([])) == Success([]);
  }

  /** With `actions.recommended` a list, or absent and so `[]`, the
      recommended actions are the `id`s of its items in order; the autofix
      flag says `actions.autofix` is non-empty. */
  lemma ActionsFromRule(rule: Value, actions: seq<(string, Value)>, recommended: seq<Value>, evidence: seq<Fact>)
    requires rule.Dict? && Lookup(rule.entries, "actions") == Some(Dict(actions))
    requires Lookup(actions, "recommended").GetOr(List([])) == List(recommended)
    requires FiredFinding(rule, evidence).Success?
    ensures var f := FiredFinding(rule, evidence).value;
            |f.recommendedActions| == |recommended|
            && (forall k :: 0 <= k < |recommended| ==> Index(recommended[k], "id") == Success(f.recommendedActions[k]))
            && (f.autofixAvailable <==> Length(Lookup(actions, "autofix").GetOr(List([]))) != Success(0))
  {
    assert Iterate(List(recommended)) == Success(recommended);
  }

  /** Collecting fact keys raises only on a malformed tree, never the
      unknown-operator `ValueError`. */
  lemma {:induction false} FactKeysNeverRaiseValueError(condition: Value)
    ensures FactKeys(condition) != Failure(ValueError)
    decreases Size(condition), 1, 0
  {
    var hasAll := Contains(condition, Str("all"));
    var hasAny := Contains(condition, Str("any"));
    if hasAll.Success? && hasAll.value {
      var children := Index(condition, "all");
      if children.Success? && Iterate(children.value).Success? {
        UnionNeverRaisesValueError(Iterate(children.value).value, Size(condition));
      }
    } else if hasAll.Success? && hasAny.Success? && hasAny.value {
      var children := Index(condition, "any");
      if children.Success? && Iterate(children.value).Success? {
        UnionNeverRaisesValueError(Iterate(children.value).value, Size(condition));
      }
    }
  }

  lemma {:induction false} UnionNeverRaisesValueError(items: seq<Value>, bound: nat)
    requires forall k :: 0 <= k < |items| ==> Size(items[k]) < bound
    ensures UnionFactKeys(items, bound) != Failure(ValueError)
    decreases bound, 0, |items|
  {
    if items != [] {
      FactKeysNeverRaiseValueError(items[0]);
      UnionNeverRaisesValueError(items[1..], bound);
    }
  }

  /** Building a finding raises only on a missing or ill-typed field or
      action, never `ValueError`. */
  lemma FiredFindingNeverRaisesValueError(rule: Value, evidence: seq<Fact>)
    ensures FiredFinding(rule, evidence) != Failure(ValueError)
  {
  }

  /** A rule the validator accepts never raises the unknown-operator
      `ValueError`, whatever the facts. */
  lemma ValidRuleNeverRaisesValueError(rule: Value, factMap: map<string, Value>, facts: seq<Fact>)
    requires RuleIsValid(rule)
    ensures RuleOutcome(rule, factMap, facts) != Failure(ValueError)
  {
    var condition := Lookup(rule.entries, "condition").value;
    assert Index(rule, "condition") == Success(condition);
    FactKeysNeverRaiseValueError(condition);
    ValidatedHasKnownOperators(condition, [], factMap);
    if FactKeys(condition).Success? {
      FiredFindingNeverRaisesValueError(rule, Evidence(facts, FactKeys(condition).value));
    }
  }

  /** Evaluating rules that all pass validation never raises the
      unknown-operator `ValueError`. */
  lemma ValidRulesNeverRaiseValueError(rules: seq<Value>, facts: seq<Fact>)
    requires forall i :: 0 <= i < |rules| ==> RuleIsValid(rules[i])
    ensures EvaluateRules(rules, facts) != Failure(ValueError)
  {
    var factMap := LastValues(facts);
    var outcomes := Outcomes(rules, factMap, facts);
    CollectRaisesFirstError(outcomes);
    if Collect(outcomes).Failure? {
      var i :| 0 <= i < |outcomes| && outcomes[i] == Failure(Collect(outcomes).error);
      OutcomesAt(rules, factMap, facts, i);
      ValidRuleNeverRaisesValueError(rules[i], factMap, facts);
    }
  }

  // ---------------------------------------------------------------------
  // The engine
  // ---------------------------------------------------------------------

  /** A loaded policy: its rules are fixed when it is built. */
  class PolicyEngine {
    const rules: seq<Value>

    ghost predicate Valid() {
      forall i :: 0 <= i < |rules| ==> RuleIsValid(rules[i])
    }

    constructor (rules: seq<Value>)
      requires forall i :: 0 <= i < |rules| ==> RuleIsValid(rules[i])
      ensures this.rules == rules && Valid()
    {
      this.rules := rules;
    }

    /** `evaluate`: correlate, warn about collisions, then walk the rules in
        document order collecting findings. */
    method Evaluate(facts: seq<Fact>) returns (r: Result<EvalResult, PyError>)
      requires Valid()
      ensures r == EvaluateRules(rules, facts)
      ensures r != Failure(ValueError)
    {
      ValidRulesNeverRaiseValueError(rules, facts);
      var factMap, collisions := BuildFactMap(facts);
      var warnings := CollisionWarnings(collisions);
      var findings := CollectFindings(rules, factMap, facts);
      if findings.Failure? {
        return Failure(findings.error);
      }
      r := Success(EvalResult(findings.value, warnings));
    }
  }

  /** The rule loop of `evaluate`: each rule in document order, stopping at
      the first exception. */
  method CollectFindings(rules: seq<Value>, factMap: map<string, Value>, facts: seq<Fact>)
    returns (r: Result<seq<Finding>, PyError>)
    ensures r == Collect(Outcomes(rules, factMap, facts))
  {
    ghost var outcomes := Outcomes(rules, factMap, facts);
    var findings: seq<Finding> := [];
    for i := 0 to |rules|
      invariant Collect(outcomes[..i]) == Success(findings)
    {
      var outcome := EvaluateRule(rules, i, factMap, facts);
      assert outcomes[..i + 1] == outcomes[..i] + [outcome];
      CollectSnoc(outcomes[..i], outcome);
      if outcome.Failure? {
        FailurePersists(outcomes, i + 1);
        return Failure(outcome.error);
      }
      if outcome.value.Some? {
        findings := findings + [outcome.value.value];
      }
    }
    assert outcomes[..|rules|] == outcomes;
    r := Success(findings);
  }

  /** The body of the rule loop for rule `i`. */
  method EvaluateRule(rules: seq<Value>, i: nat, factMap: map<string, Value>, facts: seq<Fact>) returns (o: Outcome)
    requires i < |rules|
    ensures o == Outcomes(rules, factMap, facts)[i]
  {
    OutcomesAt(rules, factMap, facts, i);
    o := RuleOutcome(rules[i], factMap, facts);
  }

  /** One warning per collision, in order. */
  method CollisionWarnings(collisions: seq<Collision>) returns (warnings: seq<string>)
    ensures warnings == CollisionMessages(collisions)
  {
    warnings := [];
    for k := 0 to |collisions|
      invariant warnings == CollisionMessages(collisions[..k])
    {
      warnings := warnings + [CollisionMessage(collisions[k])];
    }
    assert collisions[..|collisions|] == collisions;
  }

  /** Building an engine: fails as a whole, or holds exactly the document's
      rules. */
  method Open(doc: Value) returns (r: Result<PolicyEngine, LoadError>)
    ensures r.Failure? ==> Load(doc) == Failure(r.error)
    ensures r.Success? ==> Load(doc) == Success(r.value.rules) && fresh(r.value)
  {
    if !doc.Dict? {
      return Failure(NotAMapping(doc));
    }
    var rules := RulesEntry(doc.entries);
    if !rules.List? {
      return Failure(RulesNotAList(rules));
    }
    var errors := ValidateRules(rules.items);
    if errors != [] {
      return Failure(ValidationFailed(errors));
    }
    NoErrorsIffAllValid(rules.items);
    var engine := new PolicyEngine(rules.items);
    r := Success(engine);
  }

  /** Evaluation leaves the engine as it was: two calls on the same records
      give the same findings and warnings. */
  method EvaluateTwice(engine: PolicyEngine, facts: seq<Fact>) returns (first: Result<EvalResult, PyError>, second: Result<EvalResult, PyError>)
    requires engine.Valid()
    ensures first == second
  {
    first := engine.Evaluate(facts);
    second := engine.Evaluate(facts);
  }
}
