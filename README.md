# Rule store of the speech rule engine, in Dafny

This project models the base rule store of the speech rule engine
(`src/rule_engine/base_rule_store.js`). The store holds the speech rules that
turn nodes of a math tree into spoken text. It covers:

- the rule list, kept newest first: adding, deleting, finding, filtering,
  replacing and deduplicating rules;
- precondition equality (`compareStaticConstraints_`, `comparePreconditions_`),
  which decides what counts as a duplicate;
- rule selection: the guard of `lookupRule` and the choice of the most
  constrained candidate in `pickMostConstraint_`;
- rule definition (`defineRule`, `parseCstr`), which recovers from a
  `RuleError` and from nothing else;
- the way `applySelector`, `applyQuery` and `applyConstraint` combine custom
  queries with XPath evaluation.

Modules, one per concern of the source file:

- `SpeechRules` (`speech_rule.dfy`) holds the entities. A speech rule is a
  class with constant fields. The source compares rules by reference (`indexOf`,
  `!=`), so `==` on rules in the model is object identity, and `defineRule`
  allocates a fresh rule.
- `RuleLists` (`rule_lists.dfy`) holds the array operations the store uses:
  `indexOf`, removal of one element, `filter`.
- `Preconditions` (`preconditions.dfy`) holds precondition equality.
- `Selection` (`selection.dfy`) holds the sort comparator and the choice of the
  most constrained rule.
- `BaseRuleStore` (`base_rule_store.dfy`) holds the `RuleStore` class.

The `RuleStore` class has four fields:

- `speechRules`: the rule list.
- `trie`: the rules inserted into the trie, in insertion order. It is an
  abstract stand-in for the trie.
- `customQueries`: the custom query registry.
- `locale`: the store's locale.

Only `AddRule` (and `DefineRule` through it) touches `trie`. `DeleteRule`,
`RemoveDuplicates` and `SetSpeechRules` change the list alone. So a rule taken
out of the list can still be a lookup candidate, and the model makes no claim
that the list and the trie agree. The client method `DeletedRuleStaysInTrie`
shows this case.

Some collaborators are defined outside `base_rule_store.js`, so they are
parameters:

- the trie's candidate lookup;
- the engine's comparator on dynamic constraints;
- `DynamicCstr.equal`;
- the constraint parser;
- the action parser;
- the XPath evaluator and its boolean form.

Two more client methods are constructed scenarios. `RedefinedRuleReplacesOlder`
defines a `row` rule twice under the same dynamic constraint and precondition,
with made-up actions, and shows that deduplication keeps only the newer one.
`MoreStaticConstraintsWin` takes the two `radicand` rules of
`src/speech_rules/prefix_spanish.js` (lines 140-147, with their texts) and shows
which one a level comparator would pick. That choice is hypothetical: the rules
require `name(../..)="sqrt"` and `name(../..)="root"`, so no node makes both
candidates.

In four places the code does less than one might expect from the store's
interface, and the model follows the code:

- The list and the trie are not kept in step (see above).
- Preconditions are not compared as sets of constraints. The code checks two things: the lists have equal length, and each constraint
  of the first list occurs in the second. The scan stops at the first empty
  string. So the check is not symmetric when a list repeats a constraint
  (`NotSymmetricWithRepeats`), and it depends on where an empty constraint
  stands (`EmptyConstraintEndsScan`).
- `lookupRule` does not itself filter the candidates by their static
  constraints. That happens inside the trie lookup, which is not part of this
  model, so the candidates are taken as given.
- `applySelector` falls back to XPath only when there is no custom query of
  that name. A registered custom query decides alone even when it selects
  nothing (`CustomQueryShadowsXPath`).

## Model

| member | source | states |
|---|---|---|
| `BaseRuleStore.RuleStore.constructor` | src/rule_engine/base_rule_store.js:46-101 | a new store has an empty rule list and an empty trie, and the given locale and custom queries |
| `BaseRuleStore.RuleStore.LookupRule` | src/rule_engine/base_rule_store.js:107-116 | returns none exactly when the node is missing, is neither an element nor a text node, or the trie yields no candidate; otherwise returns a trie candidate that no candidate sorts before, and every earlier candidate sorts strictly after it (under a consistent comparator) |
| `Selection.PickMostConstraint` | src/rule_engine/base_rule_store.js:306-323 | returns a candidate; under a consistent comparator, no candidate has a better dynamic-constraint match, no candidate that ties on it has more static constraints, and every earlier candidate sorts strictly after it (the head of a stable sort) |
| `Selection.BeforeIsStrictWeakOrder` | src/rule_engine/base_rule_store.js:308-315 | with a consistent comparator, the sort comparator (dynamic constraint, then static constraint count descending) is a strict weak order |
| `Selection.MostConstrainedTie` | src/rule_engine/base_rule_store.js:306-323 | any two most constrained candidates tie on the comparator and on the number of static constraints, so only candidate order separates them |
| `BaseRuleStore.RuleStore.ParseCstr` | src/rule_engine/base_rule_store.js:391-393 | the constraint parser is applied to the store's locale, a dot and the rule's constraint string |
| `BaseRuleStore.RuleStore.DefineRule` | src/rule_engine/base_rule_store.js:122-142 | on a failed parse the list and the trie are unchanged and the outcome is `Skipped` for a `RuleError` and `Thrown(e)` otherwise; on success it returns a fresh rule with the given name, action, query, constraints in order and the locale-qualified dynamic constraint, now at the head of the list and in the trie |
| `BaseRuleStore.DefinitionFailure` | src/rule_engine/base_rule_store.js:125-130 | an error occurs exactly when one of the two parses fails, and the action's error takes precedence over the constraint's |
| `BaseRuleStore.CatchRuleError` | src/rule_engine/base_rule_store.js:131-139 | an error named `RuleError` is swallowed (`null` result) and every other error is rethrown unchanged |
| `BaseRuleStore.QualifiedCstr` | src/rule_engine/base_rule_store.js:391-393 | the parsed string is the locale, then a dot, then the rule's constraint |
| `BaseRuleStore.QualifiedCstrInjective` | src/rule_engine/base_rule_store.js:391-393 | for one locale, distinct constraint strings reach the parser as distinct strings |
| `BaseRuleStore.RuleStore.AddRule` | src/rule_engine/base_rule_store.js:148-151 | the list becomes `[rule] + old list` and the rule is appended to the trie |
| `BaseRuleStore.RuleStore.DeleteRule` | src/rule_engine/base_rule_store.js:157-162 | the list loses the first occurrence of the rule object, or stays the same when the rule is absent; the trie is untouched |
| `RuleLists.RemoveFirst` | src/rule_engine/base_rule_store.js:157-162 | if the element is absent nothing changes; otherwise the length drops by one and the multiset loses exactly one copy of the element |
| `RuleLists.RemoveFirstShifts` | src/rule_engine/base_rule_store.js:157-162 | elements before the first occurrence stay in place and later ones shift down by one |
| `RuleLists.IndexOf` | src/rule_engine/base_rule_store.js:158 | returns -1 exactly when the element is absent, and otherwise the position of its first occurrence |
| `BaseRuleStore.RuleStore.FindRule` | src/rule_engine/base_rule_store.js:168-175 | returns none exactly when no rule satisfies the predicate; otherwise the first satisfying rule in list order, which is the head of `FindAllRules` |
| `BaseRuleStore.RuleStore.FindAllRules` | src/rule_engine/base_rule_store.js:181-183 | the result is a subsequence of the list, holds only satisfying rules, and holds each satisfying rule as often as the list does |
| `RuleLists.Filter` | src/rule_engine/base_rule_store.js:182 | every element kept is from the input and satisfies the predicate; the result is empty exactly when no element satisfies it |
| `RuleLists.FilterIsSubsequence` | src/rule_engine/base_rule_store.js:182 | the filter keeps the relative order of the elements it keeps |
| `RuleLists.FilterKeepsCount` | src/rule_engine/base_rule_store.js:182 | every satisfying element is kept as often as it occurs in the input |
| `RuleLists.FilterHead` | src/rule_engine/base_rule_store.js:168-183 | the first element satisfying the predicate is the first element of the filter |
| `RuleLists.FilterIdempotent` | src/rule_engine/base_rule_store.js:182 | filtering twice with the same predicate is filtering once |
| `BaseRuleStore.RuleStore.GetSpeechRules` | src/rule_engine/base_rule_store.js:371-373 | returns the store's current rule list, newest first (as a value) |
| `BaseRuleStore.RuleStore.SetSpeechRules` | src/rule_engine/base_rule_store.js:371-382 | after setting, getting the rule list returns exactly the given list; the trie is untouched |
| `BaseRuleStore.RuleStore.RemoveDuplicates` | src/rule_engine/base_rule_store.js:227-236 | the backward walk with splicing leaves exactly `WithoutDuplicates` of the old list; the trie is untouched |
| `BaseRuleStore.WithoutDuplicates` | src/rule_engine/base_rule_store.js:227-236 | every rule left is from the list and is not a duplicate: no other rule with an equal dynamic constraint and an equal precondition remains |
| `BaseRuleStore.WithoutDuplicatesKeepsOthers` | src/rule_engine/base_rule_store.js:227-236 | the given rule itself and every non-duplicate remain, as often as before and in their relative order |
| `BaseRuleStore.WithoutDuplicatesStep` | src/rule_engine/base_rule_store.js:228-235 | one iteration of the backward walk: splicing out index `i` exactly when that rule is a duplicate preserves the loop's meaning |
| `BaseRuleStore.WithoutDuplicatesIdempotent` | src/rule_engine/base_rule_store.js:227-236 | removing the duplicates of the same rule twice is removing them once |
| `Preconditions.FirstEmpty` | src/rule_engine/base_rule_store.js:341 | the scan stops at the first empty constraint, or at the end of the list |
| `Preconditions.CompareStaticConstraints` | src/rule_engine/base_rule_store.js:336-347 | false for lists of different length; equal to `StaticConstraintsEqual`; without empty strings, true iff the lengths agree and every constraint of the first list occurs in the second |
| `Preconditions.ComparePreconditions` | src/rule_engine/base_rule_store.js:357-365 | false when the queries differ or the constraint lists differ in length; otherwise the static constraint comparison |
| `Preconditions.PreconditionsEqualReflexive` | src/rule_engine/base_rule_store.js:357-365 | every precondition equals itself |
| `Preconditions.SecondListOrderIrrelevant` | src/rule_engine/base_rule_store.js:336-347 | permuting the second list never changes the verdict |
| `Preconditions.FirstListOrderIrrelevant` | src/rule_engine/base_rule_store.js:336-347 | permuting the first list does not change the verdict when it holds no empty constraint |
| `Preconditions.EmptyConstraintEndsScan` | src/rule_engine/base_rule_store.js:341 | `["", "a"]` matches `["b", "c"]` but `["a", ""]` does not: constraints after an empty one are never checked |
| `Preconditions.NotSymmetricWithRepeats` | src/rule_engine/base_rule_store.js:338-346 | `["a", "a"]` matches `["a", "b"]` but not the other way round |
| `Preconditions.SymmetricWithoutRepeats` | src/rule_engine/base_rule_store.js:336-347 | when neither list repeats a constraint or holds an empty one, the comparison is symmetric |
| `BaseRuleStore.RuleStore.ApplyCustomQuery` | src/rule_engine/base_rule_store.js:245-249 | gives a result exactly when a custom query of that name is registered, namely that query applied to the node |
| `BaseRuleStore.RuleStore.ApplySelector` | src/rule_engine/base_rule_store.js:260-263 | a registered custom query's result, or the XPath result when none is registered |
| `BaseRuleStore.RuleStore.ApplyQuery` | src/rule_engine/base_rule_store.js:274-280 | none exactly when the selector yields nothing, otherwise its first node |
| `BaseRuleStore.RuleStore.ApplyConstraint` | src/rule_engine/base_rule_store.js:291-294 | true iff the selector yields a node or the expression evaluates to true as a boolean |
| `BaseRuleStore.RuleStore.CustomQueryShadowsXPath` | src/rule_engine/base_rule_store.js:260-294 | a custom query that selects nothing hides the XPath result, so the constraint rests on the boolean evaluation alone |

## Left out

- The trie (`sre.Trie`) is not part of this model. Its contents are the sequence of rules inserted, and its lookup is a function parameter applied to that sequence, the node and the constraint's axis values. `trie.addRule` only appends to that sequence.
- `pickMostConstraint_` sorts the candidate array in place. The model only computes the head of that sort, by one scan; the reordered array is a temporary that nothing else reads. The head is the one a stable sort yields. An engine whose sort is not stable may choose another candidate among exact ties.
- Selection.PickMostConstraint: the ordering promises are stated only for a consistent comparator, because a sort with an inconsistent comparator (or one that returns NaN) has no defined result. Only "the result is a candidate" holds unconditionally.
- `pickMostConstraint_` ignores its `dynamic` argument and reads the comparator from the engine singleton. The model passes the comparator in and omits the unused argument.
- `DynamicCstr` parsing, `DynamicCstr.equal`, `allProperties`, the action parser `SpeechRule.Action.fromString` and the XPath functions are not part of this model. They are function parameters. The `SpeechRule` and `Precondition` constructors are taken not to throw.
- `getSpeechRules` returns the live array, so a caller can change the store through it. The model returns the list as a value and does not capture that aliasing.
- `setSpeechRules` makes the caller's array the store's live list, so later `unshift` and `splice` calls by the store also change the caller's array. The model copies the list in as a value and does not capture that aliasing.
- The source constructor takes no arguments: it starts with an empty custom query registry and the default locale, and a locale's subclass (for Spanish, `src/speech_rules/prefix_spanish.js:37`) sets `locale` afterwards. `RuleStore.constructor` takes the locale and the registry as arguments, merging those steps.
- Custom query functions are taken to return a node list, never `null`.
- `findRule` and `removeDuplicates` stop at a falsy list entry (their loop conditions assign the entry and test it); rules are objects, so the model has no such entry.
- `debugSpeechRule`, the `Debugger` output and the `console.error` logging in `defineRule` are diagnostics and output.
- `evaluateDefault` only wraps the DOM's `textContent`.
- The abstract `initialize`, the custom string and context function registries, `parseOrder` and the `initialized` flag are not used by the modelled operations.
- `src/speech_rules/prefix_spanish.js` is locale rule data. Its `row` and `radicand` rules appear only as client scenarios. `ordinalPosition` depends on the DOM and on `MathspeakUtil`, which are not part of this model.
- `src/l10n/messages.js` and `src/mathmaps/en/units/weight.js` are data tables with no logic.
- `tests/abstract_rule_test.js` is test harness code.
