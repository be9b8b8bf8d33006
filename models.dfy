/** The two records the core exchanges with its collectors and renderers. */
module Models {
  import opened Values

  /** One attributable observation. */
  datatype Fact = Fact(key: string, value: Value, source: string)

  /** The record of a fired rule. The rule's fields are copied as the policy
      document gives them, so they are document values rather than strings. */
  datatype Finding = Finding(
    ruleId: Value,
    title: Value,
    severity: Value,
    confidence: Value,
    evidence: seq<Fact>,
    recommendedActions: seq<Value>,
    autofixAvailable: bool)

  /** The facts under `key`, in order. */
  function WithKey(facts: seq<Fact>, key: string): (r: seq<Fact>)
    ensures |r| <= |facts|
    ensures forall k :: 0 <= k < |r| ==> r[k].key == key && r[k] in facts
  {
    if facts == [] then []
    else
      var last := facts[|facts| - 1];
      WithKey(facts[..|facts| - 1], key) + (if last.key == key then [last] else [])
  }

  /** Filtering by key distributes over concatenation. */
  lemma {:induction false} WithKeyConcat(a: seq<Fact>, b: seq<Fact>, key: string)
    ensures WithKey(a + b, key) == WithKey(a, key) + WithKey(b, key)
  {
    if b != [] {
      var init := b[..|b| - 1];
      assert (a + b)[..|a + b| - 1] == a + init;
      WithKeyConcat(a, init, key);
    } else {
      assert a + b == a;
    }
  }

  /** The two halves of a concatenation, and a prefix of the second. */
  lemma AppendParts(a: seq<Fact>, b: seq<Fact>, k: nat)
    requires k <= |b|
    ensures (a + b)[..|a|] == a && (a + b)[|a|..|a| + k] == b[..k]
    ensures b != [] ==> (a + b)[|a + b| - 1] == b[|b| - 1]
  {
    assert (a + b)[|a|..] == b;
  }
}
