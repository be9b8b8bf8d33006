# clawshield policy gate, modelled in Dafny

clawshield collects facts about an AI-agent runtime and evaluates a YAML
policy against them. Facts are flat `key = value` records, each with the
source it came from. Four collectors produce them:

- the Docker inspector;
- the OpenClaw configuration reader;
- the light secrets scanner;
- the file-permission scanner.

A policy is a list of rules. Each rule holds an `all`/`any` condition tree
over `eq`/`in` leaves. The policy engine validates the rules when it loads
them. Later it evaluates them: it builds a fact map in which the last
value wins, warns about keys collected more than once, and emits a finding
for every rule whose condition holds. A finding carries that rule's
evidence and recommended actions.

The project models:

- the condition validator and evaluator;
- the engine: rule validation, loading, the fact map, collisions, evidence
  and findings;
- the `Fact` and `Finding` records;
- the four collectors.

Parsed YAML and JSON documents are modelled as a generic `Value`:
`None`, `bool`, `int`, `str`, list, or a dict kept as an ordered list of
entries with string keys. Python's operators on such values each give a
`Result` that carries the exception: `x[k]`, `x.get(k, d)`, `in`, `len`
and iteration.

Each collector's file-system and subprocess calls become parameters:

- a listing and an inspection result, for Docker;
- two oracles `isFile` and `read`, for the secrets scanner;
- a probe `posix`/`isFile`/`stat`, for the permission scanner;
- the loaded documents, for the configuration reader.

Loops in the source are methods with loop invariants. Each is proved equal
to a specification function, and the promised properties are lemmas about
those functions.

Files:

- `wrappers.dfy`: `Option`, `Result` and `Sequence` (stop at the first
  failure).
- `text.dfy`: Python string operations on ASCII. These are `strip`,
  `lower`, `startswith`, `in`, `split`, `join`, `lstrip`, the
  `splitlines` break characters and `str(int)`.
- `values.dfy`: the document model and Python's operators on it.
- `models.dfy`: `Fact`, `Finding`, and filtering facts by key.
- `paths.dfy`: `Path.parent`, `/` and the set of directories of a list of
  paths.
- `condition.dfy`, `engine.dfy`, `docker.dfy`, `config.dfy`,
  `secrets.dfy`, `permissions.dfy`: one module per source file.

## Model

| member | source | states |
|---|---|---|
| Wrappers.SequenceSuccess | clawshield/scanners/docker.py:52-66 | Running a list of fallible steps succeeds iff every step does, and then yields each step's value in order. |
| Wrappers.SequenceFirstFailure | clawshield/scanners/docker.py:52-66 | A failed run raises the error of the first failing step, and every step before it succeeded. |
| Wrappers.SequencePersists | clawshield/scanners/docker.py:52-66 | Once a prefix has raised, later steps do not change the outcome. |
| Wrappers.SequenceSnoc | clawshield/scanners/docker.py:52-66 | One more step appends its value, or raises its error. |
| Text.Strip | clawshield/scanners/openclaw/config.py:45 | `str.strip`: the result is empty iff the text is all whitespace. Otherwise it is the slice between the leading and the trailing whitespace, and it neither starts nor ends with whitespace. |
| Text.StripOfTrimmed | clawshield/scanners/openclaw/config.py:45 | Text with no whitespace at either edge is its own `strip()`. |
| Text.Lower | clawshield/scanners/openclaw/secrets.py:89 | `str.lower` keeps the length and lowers each character. |
| Text.LowerIdempotent | clawshield/scanners/openclaw/secrets.py:26 | Lowering twice is lowering once. |
| Text.IsSubstringIff | clawshield/scanners/openclaw/secrets.py:93 | The recursive `p in s` test holds iff `p` occurs at some position of `s`. |
| Text.LowerKeepsSubstring | clawshield/scanners/openclaw/secrets.py:89-93 | Lowering both sides keeps a substring a substring. |
| Text.SplitJoin | clawshield/scanners/openclaw/config.py:64 | Splitting a join gives the parts back when no part holds the separator. |
| Text.JoinSplit | clawshield/scanners/docker.py:93-94 | Joining the pieces of a split with the same separator gives the text back. |
| Text.JoinContainsParts | clawshield/scanners/docker.py:93 | Every joined part occurs in the joined text. |
| Text.Split | clawshield/scanners/docker.py:62 | `str.split` for one character: at least one piece, no piece holds the separator, and the first piece is the text before the first separator. |
| Text.LStripChar | clawshield/scanners/docker.py:55 | `lstrip("/")`: the result is a suffix, every dropped character is `/`, and the result does not start with `/`. |
| Text.Lines | clawshield/scanners/openclaw/secrets.py:76 | `splitlines`: at least one piece, no piece holds a line break, and the first piece is the text before the first break. |
| Text.LinesOfNewlineText | clawshield/scanners/openclaw/secrets.py:76 | On text whose only breaks are `\n`, the lines are exactly the pieces of `split("\n")`, and joining them with `\n` gives the text back. |
| Text.NatToString | clawshield/scanners/docker.py:95 | `str(n)` is a non-empty string of decimal digits that denotes `n`, with no leading zero unless `n` is 0. |
| Values.Contains | clawshield/core/condition.py:73 | `actual in expected`: membership under Python's `==` on a list, key membership on a dict, and `TypeError` on `None`, a bool or an int. |
| Values.PyEqReflexive | clawshield/core/condition.py:71 | Python's `==` on documents holds between a value and itself. |
| Values.PyEqSymmetric | clawshield/core/condition.py:71 | Python's `==` on documents does not depend on the order of its operands. |
| Values.PyEqIgnoresEntryOrder | clawshield/core/condition.py:71 | Two dicts with the same keys bound to the same values are equal, whatever the order of their entries. |
| Values.SwappedEntriesAreEqual | clawshield/core/condition.py:71 | An example: `{a: 1, b: 2} == {b: 2, a: 1}` although the two entry lists differ. |
| Values.BooleansEqualTheirIntegers | clawshield/core/condition.py:71 | An example: `True == 1`, `0 == False` and `[1] == [True]` hold, and `True == 2` does not. |
| Values.ElementInList | clawshield/core/condition.py:73 | Every element of a list is `in` it. |
| Values.Index | clawshield/core/condition.py:61-63 | `d[k]` succeeds iff `d` is a dict holding `k` (otherwise `KeyError`/`TypeError`), and the value is smaller than the dict. |
| Values.Get | clawshield/scanners/docker.py:58-59 | `x.get(k, d)` succeeds exactly on dicts; anything else raises `AttributeError`. |
| Values.Iterate | clawshield/core/condition.py:57-59 | Iteration succeeds exactly on lists, dicts and strings. It yields a list's elements (each strictly smaller than the list), a dict's keys in entry order, and a string's one-character strings, none larger than the container. |
| Values.Length | clawshield/core/engine.py:64 | `len` succeeds exactly on lists, dicts and strings. |
| Values.LookupFound | clawshield/core/condition.py:24 | A key is found iff some entry has it, and the value found is that of such an entry. |
| Models.WithKey | tests/test_secrets_scanner.py:111 | The facts under one key: each has that key and comes from the input, and there are no more of them than facts. |
| Models.WithKeyConcat | tests/test_permissions_scanner.py:160 | Filtering by key distributes over concatenation. |
| Condition.PathLabel | clawshield/core/condition.py:15 | Every error label starts with `condition`. |
| Condition.PathLabelSnoc | clawshield/core/condition.py:30 | The label of a child's path is the parent's label followed by `.all[i]` or `.any[i]`. |
| Condition.PathLabelExtends | clawshield/core/condition.py:30 | The label of a path followed by more steps is the path's label followed by one `.all[i]`/`.any[i]` per step. |
| Condition.NestedPathLabel | clawshield/core/condition.py:30 | An example: a second-level error is labelled `condition.all[0].any[0]`. |
| Condition.ValidateCondition | clawshield/core/condition.py:12-16 | `validate_condition` returns exactly the errors of the specification `NodeErrors` at the root path (with the corrected operator test of Findings). |
| Condition.ValidateNode | clawshield/core/condition.py:19-48 | Validating a node appends exactly that node's errors to those found so far (with the corrected operator test of Findings). |
| Condition.ValidateField | clawshield/core/condition.py:24-37 | Validating an `all`/`any` field appends a "not a list" error, or the errors of every child under its indexed path. |
| Condition.NonDictValidation | clawshield/core/condition.py:20-22 | A node that is not a dict gives exactly one "expected dict" error, and its subtree is not examined. |
| Condition.NonListChildrenValidation | clawshield/core/condition.py:24-28 | An `all` that is not a list gives exactly one "expected list" error. |
| Condition.LeafMissingKeys | clawshield/core/condition.py:40-42 | A leaf reports a missing-key error for exactly the keys among `fact`, `op`, `value` that it lacks. |
| Condition.MissingKeyErrorsUnfolded | clawshield/core/condition.py:40-42 | The missing-key errors come in the order `fact`, `op`, `value`. |
| Condition.LeafOperatorChecks | clawshield/core/condition.py:43-48 | A leaf reports an unknown operator iff its `op` is present and is neither `eq` nor `in`. It reports "`in` needs a list" iff `op` is `in` and `value` is present, not null and not a list. All its errors carry its own path. |
| Condition.LeafLookups | clawshield/core/condition.py:40-45 | A leaf written as `{fact, op, value}` is a leaf: it has no `all` or `any` key, and each of its keys finds its own value. |
| Condition.OpIsUnknownAsWritten | clawshield/core/condition.py:43 | The operator test as written raises `TypeError` iff `op` is unhashable. Otherwise it holds iff `op` is not `eq`/`in`. |
| Condition.ListOperatorCrashesValidator | clawshield/core/condition.py:43 | A list-valued `op` makes the written test raise, while the corrected validator reports it as an unknown operator. |
| Condition.ChildErrorsKept | clawshield/core/condition.py:29-30 | Every error of the k-th child appears among the node's errors. |
| Condition.ChildrenErrorsEmpty | clawshield/core/condition.py:29-37 | A list of children is error-free iff every child is. |
| Condition.ErrorsBelowPath | clawshield/core/condition.py:19-48 | Every error found under a node carries a path that extends the node's path. |
| Condition.ChildrenBelowPath | clawshield/core/condition.py:29-37 | Every error found among the children extends the parent's path. |
| Condition.EvaluateAllIsConjunction | clawshield/core/condition.py:57 | `all(...)` over children that evaluate without raising is their conjunction. |
| Condition.EvaluateAnyIsDisjunction | clawshield/core/condition.py:59 | `any(...)` over children that evaluate without raising is their disjunction. |
| Condition.AllIsConjunction | clawshield/core/condition.py:56-57 | An `all` node holds iff every child holds; `all: []` holds. |
| Condition.AnyIsDisjunction | clawshield/core/condition.py:58-59 | An `any` node without `all` holds iff some child holds; `any: []` does not hold. |
| Condition.AbsentFactIsFalse | clawshield/core/condition.py:64-68 | A leaf whose fact is missing from the map is false, whatever its operator. |
| Condition.PresentFactIsCompared | clawshield/core/condition.py:70-73 | A present fact is compared: `eq` is Python's `==`, so dict key order does not matter and `True` equals `1`; `in` a list is membership under `==`; `in` a null value raises `TypeError`. |
| Condition.EqIgnoresKeyOrder | clawshield/core/condition.py:70-71 | An example: a fact bound to `{a: 1, b: 2}` satisfies `eq {b: 2, a: 1}`. |
| Condition.PresentNullEqualsNull | clawshield/core/condition.py:67 | A fact that is present with value `None` is compared rather than treated as missing. |
| Condition.ValidatedHasKnownOperators | clawshield/core/condition.py:43-75 | A condition that validates never reaches the "Unknown operator" `ValueError`. |
| Condition.AllNoValueError | clawshield/core/condition.py:57 | `all` over children that do not raise `ValueError` does not raise it either. |
| Condition.AnyNoValueError | clawshield/core/condition.py:59 | `any` over children that do not raise `ValueError` does not raise it either. |
| Condition.NullInPassesValidation | clawshield/core/condition.py:45-73 | `in` with an explicit null value passes validation and then raises `TypeError` at evaluation. |
| Condition.WellFormedIsValid | clawshield/core/condition.py:19-48 | Every typed, well-formed condition tree validates without errors. |
| Condition.EvaluateMeansHolds | clawshield/core/condition.py:51-75 | On a well-formed tree the evaluator computes the reference semantics `Holds`. |
| Condition.HoldsDependsOnlyOnItsFacts | clawshield/core/condition.py:51-75 | Two fact maps that agree on the facts a condition names give it the same truth value. |
| Engine.Tagged | clawshield/core/engine.py:120-121 | Each condition error of a rule is reported once, tagged with the rule's index and id, in order. |
| Engine.FlattenEmpty | clawshield/core/engine.py:108-122 | The joined error list is empty iff every rule's list is. |
| Engine.ValidateRules | clawshield/core/engine.py:108-122 | `_validate_rules` collects exactly the specified errors of every rule, in rule order (with the corrected operator test of Findings). |
| Engine.CheckRule | clawshield/core/engine.py:112-121 | One rule appends its "expected dict" error, or its missing-keys error followed by its condition's errors. |
| Engine.AppendConditionErrors | clawshield/core/engine.py:118-121 | The condition's errors are appended, each tagged with the rule. |
| Engine.RuleErrorsEmptyIff | clawshield/core/engine.py:112-121 | A rule has no errors iff it is a dict with the five required keys whose condition validates. |
| Engine.NoErrorsIffAllValid | clawshield/core/engine.py:108-122 | Validation finds nothing iff every rule is valid. |
| Engine.NonDictRule | clawshield/core/engine.py:112-114 | A rule that is not a dict gives exactly one error, and nothing else about it is checked. |
| Engine.RuleErrorsReported | clawshield/core/engine.py:115-121 | The missing-keys error comes first and names exactly the required keys that are absent. Every condition error is reported under the rule. |
| Engine.LoadAllOrNothing | clawshield/core/engine.py:32-44 | Loading succeeds iff the document is a mapping whose `rules` (default `[]`) is a list of valid rules, and it then keeps them all, in order (with the corrected operator test of Findings). |
| Engine.LoadFailures | clawshield/core/engine.py:32-42 | A document that is not a mapping fails. A mapping without `rules` loads no rules. A `rules` that is not a list fails. A validation failure carries every error found, and there is at least one. (with the corrected operator test of Findings). |
| Engine.UnionMembers | clawshield/core/engine.py:97-102 | The union over children succeeds iff every child's walk does, and holds exactly the keys some child names. |
| Engine.FactKeysOfAllNode | clawshield/core/engine.py:97-99 | The keys of an `all` node are the union of its children's keys. |
| Engine.FactKeysOfAnyNode | clawshield/core/engine.py:100-102 | The keys of an `any` node are the union of its children's keys. |
| Engine.ChildrenFactKeys | clawshield/core/engine.py:97-102 | For a typed tree, the children's union is exactly the facts the node names. |
| Engine.FactKeysOfWellFormed | clawshield/core/engine.py:94-105 | On a well-formed tree `_extract_fact_keys` succeeds and yields exactly the facts the condition refers to. |
| Engine.EvidenceIsFilter | clawshield/core/engine.py:65 | Evidence keeps every fact whose key the condition names, as often as it occurs, and drops all others. |
| Engine.EvidenceOfConcat | clawshield/core/engine.py:65 | Evidence preserves order: it distributes over concatenation. |
| Engine.FirstSeenKeysAreTheKeys | clawshield/core/engine.py:86-88 | The keys in first-seen order are exactly the collected keys, without repeats. |
| Engine.KeyPresentIffSourced | clawshield/core/engine.py:87-89 | A key is in the fact map iff some source reported it. |
| Engine.LastWriteWins | clawshield/core/engine.py:87-89 | A key is in the map iff some fact has it, and its value is that of the last such fact. |
| Engine.CollisionsAmongSpec | clawshield/core/engine.py:90 | A collision is reported exactly for the keys with more than one source, with all their sources. |
| Engine.CollisionsExact | clawshield/core/engine.py:90 | A key collides iff it was collected more than once, and the collision lists its sources in order. |
| Engine.FirstSeenKeysOrdered | clawshield/core/engine.py:86-88 | The distinct keys of `sources` come in the order of each key's first record. |
| Engine.CollisionsAmongOrdered | clawshield/core/engine.py:90 | The comprehension keeps the order of the keys it filters. |
| Engine.WarningsInFirstSeenOrder | clawshield/core/engine.py:49-54 | The collision warnings come in the order in which their keys were first collected. |
| Engine.BuildFactMap | clawshield/core/engine.py:80-91 | `_build_fact_map` returns the last-value map and exactly the specified collisions. |
| Engine.ScanFacts | clawshield/core/engine.py:83-87 | The loop leaves the last value of every key, exactly the keys seen in first-seen order, and for each key all its sources in observation order. |
| Engine.SelectCollisions | clawshield/core/engine.py:88 | Keeping the keys with more than one source gives exactly the specified collisions, in first-seen order. |
| Engine.CollisionMessageNamesKey | clawshield/core/engine.py:51-54 | The warning names the key, quoted. |
| Engine.CollisionMessageCounts | clawshield/core/engine.py:52 | The warning says `collected n times`, with `n` written in decimal digits that denote the number of records of the key. |
| Engine.CollisionMessageNamesSources | clawshield/core/engine.py:53 | The warning names every source. |
| Engine.CollisionWarnings | clawshield/core/engine.py:49-54 | The warning loop produces exactly those messages. |
| Engine.ActionIds | clawshield/core/engine.py:63 | Reading the action ids succeeds iff every action has an `id`, and then gives them in order. Otherwise it raises the error of the first action without one. |
| Engine.ActionIdsRaiseForTheFirstAction | clawshield/core/engine.py:63 | An example: of `[[], {}]` the list is read first, so `TypeError` is raised rather than `KeyError`. |
| Engine.Outcomes | clawshield/core/engine.py:58-75 | One outcome per rule. |
| Engine.OutcomesAt | clawshield/core/engine.py:58-75 | The i-th outcome is that of the i-th rule. |
| Engine.CollectFollowsOutcomes | clawshield/core/engine.py:56-77 | When evaluation succeeds, findings come in rule order, one for each rule that fired and none for the others. |
| Engine.CollectRaisesFirstError | clawshield/core/engine.py:58-75 | Evaluation raises iff some rule raises, and then it raises the first rule's error. |
| Engine.CollectSnoc | clawshield/core/engine.py:67-75 | A rule that does not fire adds nothing; one that fires appends its finding; one that raises makes the whole call raise. |
| Engine.FailurePersists | clawshield/core/engine.py:58-75 | Once a rule has raised, later rules do not change the outcome. |
| Engine.RuleFiresIffConditionHolds | clawshield/core/engine.py:59-75 | A rule gives a finding iff its condition evaluates to true. The finding is built from the evidence for the condition's fact keys. |
| Engine.FindingFields | clawshield/core/engine.py:67-75 | A finding copies the rule's id, title, severity and confidence, and carries the evidence. |
| Engine.ActionsDefaultToEmpty | clawshield/core/engine.py:62-64 | A rule without `actions` recommends nothing and has no autofix. |
| Engine.ActionsFromRule | clawshield/core/engine.py:62-64 | The recommended action ids are those of the rule's `recommended` list, in order, and none when `actions` has no `recommended`. Autofix is available iff `autofix` has a non-zero length. |
| Engine.PolicyEngine.constructor | clawshield/core/engine.py:44 | The engine keeps the validated rules. |
| Engine.FactKeysNeverRaiseValueError | clawshield/core/engine.py:94-105 | Collecting fact keys never raises `ValueError`. |
| Engine.UnionNeverRaisesValueError | clawshield/core/engine.py:97-102 | Collecting the keys of a list of children never raises `ValueError`. |
| Engine.ValidRuleNeverRaisesValueError | clawshield/core/engine.py:59-75 | A rule that passes validation never raises the "Unknown operator" `ValueError`. |
| Engine.ValidRulesNeverRaiseValueError | clawshield/core/engine.py:46-77 | Evaluating rules that all pass validation never raises that `ValueError`. |
| Engine.PolicyEngine.Evaluate | clawshield/core/engine.py:46-77 | On an engine built from validated rules, `evaluate` gives exactly the specified findings and warnings, or the first error raised, and that error is never `ValueError`. |
| Engine.CollectFindings | clawshield/core/engine.py:56-75 | The rule loop computes the specified collection of outcomes. |
| Engine.EvaluateRule | clawshield/core/engine.py:59-75 | One pass of the rule loop gives that rule's outcome. |
| Engine.Open | clawshield/core/engine.py:28-44 | The constructor fails with the loader's error, or builds an engine holding exactly the loaded rules (with the corrected operator test of Findings). |
| Engine.EvaluateTwice | clawshield/core/engine.py:46-77 | An example: evaluating the same facts twice gives the same result, as evaluation changes nothing. |
| Docker.SlicePrefix | clawshield/scanners/docker.py:54 | `cid[:12]` succeeds on strings and lists and takes at most 12 characters. |
| Docker.DisplayName | clawshield/scanners/docker.py:53-55 | A container that is not a dict raises `AttributeError`. A name never starts with `/`. |
| Docker.DisplayNameFallback | clawshield/scanners/docker.py:53-55 | A container is named by its `Name` without leading slashes. Failing that, by the first 12 characters of its `Id`. Failing both, `unknown`. |
| Docker.UidZero | clawshield/scanners/docker.py:62 | The first `:`-piece of a user is `0` iff the user is `0` or starts with `0:`. |
| Docker.UserIsRoot | clawshield/scanners/docker.py:62 | The root test succeeds iff the user is empty-ish or a string. It then says root iff the user is empty, `root`, or has uid 0. |
| Docker.ContainerView | clawshield/scanners/docker.py:52-66 | Reading a container succeeds iff its name, `Config` and `HostConfig` can be read and its user can be tested, and then gives the name, root and privileged flags. |
| Docker.ViewsPrefix | clawshield/scanners/docker.py:52 | Viewing a prefix and then one more container gives one more view. |
| Docker.NamesWhere | clawshield/scanners/docker.py:62-66 | The names of the containers that satisfy a test: one per such container, and empty iff none does. |
| Docker.Names | clawshield/scanners/docker.py:56 | Every container's name, in order. |
| Docker.ParseInspectOutput | clawshield/scanners/docker.py:38-84 | `parse_inspect_output` computes exactly the specified facts, or the first error raised. |
| Docker.Scan | clawshield/scanners/docker.py:18-35 | A failed listing warns and yields no facts. No running containers yield nothing. A failed inspection warns. Otherwise the facts are those of the inspected containers. |
| Docker.InspectedViews | clawshield/scanners/docker.py:52-66 | When parsing succeeds, every container's name, root and privileged flags are read as specified. |
| Docker.InspectFactsShape | clawshield/scanners/docker.py:45-84 | No containers give no facts. Otherwise there are exactly two facts, first `docker.user`, then `docker.privileged`. |
| Docker.InspectFactsFailure | clawshield/scanners/docker.py:52-66 | Parsing raises iff some container cannot be read, and then it raises the first such container's error. |
| Docker.UserFactIsWorstCase | clawshield/scanners/docker.py:62-75 | `docker.user` is `root` iff some container runs as root, and `non-root` otherwise. |
| Docker.PrivilegedFactIsWorstCase | clawshield/scanners/docker.py:65-82 | `docker.privileged` is true iff some container is privileged. |
| Docker.RecordNames | clawshield/scanners/docker.py:62-66 | The names of the offending containers are empty iff no container offends. |
| Docker.NamesWhereRecords | clawshield/scanners/docker.py:62-66 | The names collected in the loop are the names of the offending containers. |
| Docker.NamesRecords | clawshield/scanners/docker.py:56 | The names collected in the loop are all the containers' names. |
| Docker.UserSourceNamesOffenders | clawshield/scanners/docker.py:74 | The user fact's source names the root containers, or all containers when none runs as root. |
| Docker.PrivilegedSourceNamesOffenders | clawshield/scanners/docker.py:81 | The privileged fact's source names the privileged containers, or all containers when none is privileged. |
| Docker.CapNamesWithinLimit | clawshield/scanners/docker.py:92-93 | With at most five names, the capped list splits back into the names. |
| Docker.CapNamesOverLimit | clawshield/scanners/docker.py:87-95 | With more than five names, exactly the first five are shown, followed by ` (+n more)`, where `n` is written in decimal digits that denote the number of names left out. |
| Docker.CapNamesShowsFirstFive | clawshield/scanners/docker.py:87-95 | Each of the first five names occurs in the capped list. |
| OpenClawConfig.NormalizeBindAddress | clawshield/scanners/openclaw/config.py:43-45 | A string is stripped; any other value gives its `str()` text with no edge whitespace. |
| OpenClawConfig.NormalizeBindAddressOfScalar | clawshield/scanners/openclaw/config.py:43-45 | An int becomes its decimal text (`8080` gives `"8080"`), a bool `True`/`False`, and null `None`. |
| OpenClawConfig.NormalizeBool | clawshield/scanners/openclaw/config.py:48-58 | The result is a bool or the value itself. A bool, and every value that is not a string (an int, a list, a dict, `None`), passes unchanged. |
| OpenClawConfig.NormalizeBoolOfString | clawshield/scanners/openclaw/config.py:52-58 | A string becomes `True` iff it strips and lowers to `true`/`1`/`yes`, and `False` iff it strips and lowers to `false`/`0`/`no`. Any other string passes through. |
| OpenClawConfig.WordsDisjoint | clawshield/scanners/openclaw/config.py:54-57 | No spelling is both true and false. |
| OpenClawConfig.NormalizeBoolIdempotent | clawshield/scanners/openclaw/config.py:48-58 | Normalising twice is normalising once. |
| OpenClawConfig.NormalizeBoolIgnoresCase | clawshield/scanners/openclaw/config.py:53 | Recognised spellings do not depend on letter case. |
| OpenClawConfig.StripLowerCommute | clawshield/scanners/openclaw/config.py:53 | Stripping and lowering commute. |
| OpenClawConfig.DeepGet | clawshield/scanners/openclaw/config.py:61-70 | `_deep_get` walks the dotted path exactly as the specification `Resolve` does. |
| OpenClawConfig.BindAddressSplits | clawshield/scanners/openclaw/config.py:24 | `server.bind_address` splits into `server`, `bind_address`. |
| OpenClawConfig.AuthEnabledSplits | clawshield/scanners/openclaw/config.py:32 | `auth.enabled` splits into `auth`, `enabled`. |
| OpenClawConfig.ResolveConcat | clawshield/scanners/openclaw/config.py:64-69 | Walking `p + q` is walking `p` and then `q` from there, unless `p` already gave nothing. |
| OpenClawConfig.ResolveFound | clawshield/scanners/openclaw/config.py:64-69 | A path leads somewhere iff its first key is in a dict with a non-null value from which the rest leads somewhere. |
| OpenClawConfig.ResolveNonDict | clawshield/scanners/openclaw/config.py:65-66 | Walking into anything but a dict gives nothing. |
| OpenClawConfig.FalseSettingIsKept | clawshield/scanners/openclaw/config.py:68 | An explicit `false` setting is found, not mistaken for a missing one. |
| OpenClawConfig.ReadBindAddress | clawshield/scanners/openclaw/config.py:24-30 | The bind-address step adds the normalised fact iff the setting is there. |
| OpenClawConfig.ReadAuthEnabled | clawshield/scanners/openclaw/config.py:32-38 | The authentication step adds the normalised fact iff the setting is there. |
| OpenClawConfig.ScanFile | clawshield/scanners/openclaw/config.py:19-38 | One file gives exactly its specified facts. |
| OpenClawConfig.Scan | clawshield/scanners/openclaw/config.py:16-40 | `scan` gives the facts of every file, file by file in order. |
| OpenClawConfig.FileFactsShape | clawshield/scanners/openclaw/config.py:20-38 | A file contributes the bind-address fact iff that setting resolves, then the authentication fact iff that one does, with normalised values, all attributed to the file. An empty document counts as `{}`. |
| OpenClawConfig.ConfigFactsSources | clawshield/scanners/openclaw/config.py:16-40 | No files give no facts, and every fact is attributed to one of the files. |
| Paths.ParentOfChild | clawshield/scanners/openclaw/secrets.py:39-44 | A file placed in a directory has that directory as its parent. |
| Paths.DirsCount | clawshield/scanners/openclaw/secrets.py:37-43 | A path adds a directory to the checked set exactly when its own is new. |
| Secrets.KnownNamesAreCapitalised | clawshield/scanners/openclaw/secrets.py:14-23 | Every known name starts with a capital letter. |
| Secrets.AssignsAny | clawshield/scanners/openclaw/secrets.py:80-82 | The inner loop answers true iff the line starts with some `NAME=`. |
| Secrets.CheckLine | clawshield/scanners/openclaw/secrets.py:77-82 | A line counts iff, once stripped, it is not blank, is not a comment, and assigns a known name. |
| Secrets.ScanLines | clawshield/scanners/openclaw/secrets.py:76-83 | The line loop answers true iff some line counts. |
| Secrets.ScanEnvForKeys | clawshield/scanners/openclaw/secrets.py:69-83 | `_scan_env_for_keys` is true iff the file can be read and one of its lines assigns a known name. |
| Secrets.GuardIsRedundant | clawshield/scanners/openclaw/secrets.py:78-81 | A line that assigns a capitalised name is neither blank nor a comment, so the guard changes nothing. |
| Secrets.LineDeclaresKeyIff | clawshield/scanners/openclaw/secrets.py:76-83 | A stripped line counts iff it assigns a known name: the blank and comment guards change nothing. |
| Secrets.EnvMatchIsCaseSensitive | clawshield/scanners/openclaw/secrets.py:81 | A line starting with a lowercase ASCII letter never matches a capitalised name. |
| Secrets.ConfigMatchIgnoresCase | clawshield/scanners/openclaw/secrets.py:89-93 | The configuration test gives the same answer on the lowered text. |
| Secrets.ConfigMentionFound | clawshield/scanners/openclaw/secrets.py:86-93 | A configuration text that contains a known name is reported. |
| Secrets.ScanPath | clawshield/scanners/openclaw/secrets.py:39-64 | One pass gives the `.env` facts when the directory is new, then the configuration fact. |
| Secrets.Scan | clawshield/scanners/openclaw/secrets.py:34-66 | `scan` gives exactly the specified facts, visiting each directory's `.env` once. |
| Secrets.MissingEnvHoldsNoKey | clawshield/scanners/openclaw/secrets.py:45-57 | A missing `.env` gives `env_file_present = False` and `api_key_in_env_file = False`. |
| Secrets.UnreadableHoldsNoKey | clawshield/scanners/openclaw/secrets.py:71-91 | A file that cannot be read holds no key. |
| Secrets.ConfigFacts | clawshield/scanners/openclaw/secrets.py:60-64 | One configuration fact per path. |
| Secrets.OneConfigFactPerPath | clawshield/scanners/openclaw/secrets.py:38-64 | The `secrets.api_key_in_config` facts are exactly one per path, in path order. |
| Secrets.PathEnvFactCount | clawshield/scanners/openclaw/secrets.py:42-57 | A path adds one of each `.env` fact iff its directory is new. |
| Secrets.EnvFactsOncePerDirectory | clawshield/scanners/openclaw/secrets.py:37-57 | Each `.env` fact occurs once per distinct directory. |
| Secrets.SourcesArePrefixed | clawshield/scanners/openclaw/secrets.py:47-64 | Every source starts with `secrets_lite:`. |
| Secrets.PathFactsShape | clawshield/scanners/openclaw/secrets.py:42-64 | One path's facts end with its configuration fact, after the two `.env` facts when its directory is new. |
| Secrets.ConfigFactClosesPath | clawshield/scanners/openclaw/secrets.py:38-64 | A further path keeps the earlier facts and appends its directory's `.env` facts, when the directory is new, before its configuration fact. |
| Permissions.OtherTriad | clawshield/scanners/openclaw/permissions.py:77-86 | World-readable iff the last octal digit of the mode is at least 4. World-writable iff that digit is 2, 3, 6 or 7. |
| Permissions.OnlyOtherTriadMatters | clawshield/scanners/openclaw/permissions.py:77-86 | The file type and the owner and group bits do not affect either test. |
| Permissions.TypicalModes | clawshield/scanners/openclaw/permissions.py:77-86 | 0o644 is readable and not writable. 0o600 is neither. 0o666 is both. 0o602 is writable only. |
| Permissions.ScanPath | clawshield/scanners/openclaw/permissions.py:26-62 | One pass gives the configuration fact, then the `.env` facts when the directory is new. |
| Permissions.Scan | clawshield/scanners/openclaw/permissions.py:21-64 | `scan` gives exactly the specified facts, visiting each directory's `.env` once. |
| Permissions.ScanNext | clawshield/scanners/openclaw/permissions.py:26-38 | One loop pass keeps `checked_dirs` equal to the directories seen so far and appends the path's own facts. |
| Permissions.AbsentEnvIsNotExposed | clawshield/scanners/openclaw/permissions.py:52-62 | A `.env` that is not a regular file is reported neither readable nor writable. |
| Permissions.ConfigPermFacts | clawshield/scanners/openclaw/permissions.py:29-34 | One configuration fact per path. |
| Permissions.OneConfigFactPerPath | clawshield/scanners/openclaw/permissions.py:25-34 | The `files.config_world_writable` facts are exactly one per path, in path order. |
| Permissions.EnvPairKeys | clawshield/scanners/openclaw/permissions.py:42-62 | A directory's `.env` facts hold each `.env` key once and no other key. |
| Permissions.EnvPermKeys | clawshield/scanners/openclaw/permissions.py:39-62 | Whether the `.env` is present or not, each `.env` key comes once. |
| Permissions.PathEnvFactCount | clawshield/scanners/openclaw/permissions.py:37-62 | A path adds one of each `.env` fact iff its directory is new. |
| Permissions.EnvFactsOncePerDirectory | clawshield/scanners/openclaw/permissions.py:24-62 | Each `.env` fact occurs once per distinct directory. |
| Permissions.NonPosixReportsNothing | clawshield/scanners/openclaw/permissions.py:67-74 | Off POSIX every permission fact is false. |
| Permissions.SourcesArePrefixed | clawshield/scanners/openclaw/permissions.py:29-62 | Every source starts with `file_permissions:`. |
| Permissions.ConfigFactOpensPath | clawshield/scanners/openclaw/permissions.py:25-62 | A further path keeps the earlier facts and appends its configuration fact, followed by its directory's `.env` facts when the directory is new. |

## Left out

- YAML and JSON parsing (`yaml.safe_load`, `json.loads`) and opening files: the model starts from the parsed document. Floats, dates and non-string dict keys are not part of `Value`.
- `_get_running_container_ids` and `_inspect_containers` run `docker` as a subprocess. Their outcomes are parameters of `Docker.Scan`: a failure reason or the ids, and the inspected list or nothing. The parsing of `docker ps` output and the wording of its error texts are not modelled.
- The file system is given as oracles: `is_file`, `read_text` (with `OSError` as `None`) and `stat().st_mode`. Paths are strings as `str(Path(...))` prints them: no `.` segments, no leading `./`, no repeated or trailing `/`. A `..` segment is kept, as `pathlib` keeps it.
- Text is ASCII only. `strip`, `isspace` and `lower` follow the ASCII rules, and there is no decoding with `errors="replace"`.
- Documents are taken to have unique dict keys, as parsed YAML and JSON mappings do. `Value` does not enforce this: on a dict with a repeated key, `Length`, `Iterate` and `PyEq` count or compare an entry a Python dict cannot hold, and `Lookup` finds the first entry where the parser would keep the last.
- Text.Lines: `splitlines` is modelled as splitting at each break character. A `\r\n` therefore gives one extra empty line, and a final break gives one extra empty piece. Blank lines never match, so the answer is the same.
- OpenClawConfig.Repr: `str()` of lists and dicts uses single quotes around every string and does not escape quotes or backslashes inside them, unlike Python's `repr`.
- Docker.SlicePrefix: slicing a dict raises `TypeError` in the model. Python 3.12 raises `KeyError`. Either way the scan raises.
- Python sets and tuples are not part of `Value`. `in` over a `!!set` or a tuple, which the validator and the evaluator both accept, is not modelled.
- Condition.ValidateCondition, Condition.ValidateNode, Engine.ValidateRules, Engine.LoadAllOrNothing, Engine.LoadFailures and Engine.Open model the corrected operator test of Findings. For an `op` that is a list or a dict, the source's test raises `TypeError` while the engine loads the policy. The model reports an unknown operator instead.
- The text of the validation error messages (their `type(x).__name__` and the printed set of valid operators), and the joined message of `PolicyLoadError`. Errors are kept as structured values with their paths.
- `__main__.py` (command line, rendering, exit codes) and the OpenClaw runtime adapter are not part of this model.
- Concurrency, timeouts and `subprocess` time limits.

## Findings

| source | as written | input that shows it | evidently intended | confidence | as-written member | corrected member |
|---|---|---|---|---|---|---|
| clawshield/core/condition.py:43 | `node["op"] not in _VALID_OPS` tests membership of `op` in a set, which raises `TypeError` when `op` is a list or a dict | the leaf `{fact: x, op: [eq], value: 1}` | the validator reports an unknown operator instead of crashing while it loads the policy | not executed | Condition.OpIsUnknownAsWritten | Condition.LeafOperatorChecks |
