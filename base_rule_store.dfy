/**
 * The rule store: the rule list (newest first), the rules handed to the trie,
 * the custom query registry and the store's locale, with the operations that
 * define, add, delete, find, deduplicate and look up rules.
 */
module BaseRuleStore {
  import opened SpeechRules
  import opened RuleLists
  import opened Preconditions
  import opened Selection

  /** A node rules can apply to: present, and an element or a text node. */
  predicate Speakable(node: Option<Node>)
  {
    node.Some? && (node.value.nodeType == ElementNode || node.value.nodeType == TextNode)
  }

  /**
   * `candidate` duplicates `rule`: it is another rule object, `rule`'s dynamic
   * constraint is `equal` to its own, and its precondition is equal to
   * `rule`'s (compared in that order, `candidate` first).
   */
  predicate IsDuplicate(equal: (DynamicCstr, DynamicCstr) -> bool, rule: SpeechRule, candidate: SpeechRule)
  {
    && candidate != rule
    && equal(rule.dynamicCstr, candidate.dynamicCstr)
    && PreconditionsEqual(candidate.precondition, rule.precondition)
  }

  /** The test that keeps a rule in the list when duplicates of `rule` are removed. */
  function NotDuplicateOf(equal: (DynamicCstr, DynamicCstr) -> bool, rule: SpeechRule): (keep: SpeechRule -> bool)
    ensures keep(rule)
  {
    (x: SpeechRule) => !IsDuplicate(equal, rule, x)
  }

  /**
   * The rule list once the duplicates of `rule` are gone: no duplicate of
   * `rule` is left, and nothing else comes in.
   */
  function WithoutDuplicates(rules: seq<SpeechRule>, equal: (DynamicCstr, DynamicCstr) -> bool, rule: SpeechRule)
    : (r: seq<SpeechRule>)
    ensures forall x :: x in r ==> x in rules && !IsDuplicate(equal, rule, x)
  {
    Filter<SpeechRule>(rules, NotDuplicateOf(equal, rule))
  }

  /**
   * Every rule that does not duplicate `rule`, `rule` itself included, stays
   * as often as before and in the same relative order.
   */
  lemma {:induction false} WithoutDuplicatesKeepsOthers(rules: seq<SpeechRule>, equal: (DynamicCstr, DynamicCstr) -> bool, rule: SpeechRule)
    ensures forall x :: x in rules && !IsDuplicate(equal, rule, x) ==>
      multiset(WithoutDuplicates(rules, equal, rule))[x] == multiset(rules)[x]
    ensures rule in rules ==> rule in WithoutDuplicates(rules, equal, rule)
    ensures IsSubsequence(WithoutDuplicates(rules, equal, rule), rules)
  {
    var r: seq<SpeechRule> := WithoutDuplicates(rules, equal, rule);
    FilterKeepsCount(rules, NotDuplicateOf(equal, rule));
    assert rule in rules ==> multiset(r)[rule] == multiset(rules)[rule];
    FilterIsSubsequence(rules, NotDuplicateOf(equal, rule));
  }

  lemma {:induction false} WithoutDuplicatesCons(x: SpeechRule, rules: seq<SpeechRule>, equal: (DynamicCstr, DynamicCstr) -> bool, rule: SpeechRule)
    ensures WithoutDuplicates([x] + rules, equal, rule)
         == (if IsDuplicate(equal, rule, x) then [] else [x]) + WithoutDuplicates(rules, equal, rule)
  {
    FilterCons(x, rules, NotDuplicateOf(equal, rule));
  }

  /** One step of the backward walk: deciding the rule at `i` and keeping or dropping it. */
  lemma {:induction false} WithoutDuplicatesStep(rules: seq<SpeechRule>, i: nat, equal: (DynamicCstr, DynamicCstr) -> bool, rule: SpeechRule)
    requires i < |rules|
    ensures rules[..i] + WithoutDuplicates(rules[i..], equal, rule)
         == if IsDuplicate(equal, rule, rules[i])
            then rules[..i] + WithoutDuplicates(rules[i + 1..], equal, rule)
            else rules[..i + 1] + WithoutDuplicates(rules[i + 1..], equal, rule)
  {
    FilterStep(rules, i, NotDuplicateOf(equal, rule));
  }

  /** Removing the duplicates of `rule` a second time removes nothing. */
  lemma {:induction false} WithoutDuplicatesIdempotent(rules: seq<SpeechRule>, equal: (DynamicCstr, DynamicCstr) -> bool, rule: SpeechRule)
    ensures WithoutDuplicates(WithoutDuplicates(rules, equal, rule), equal, rule) == WithoutDuplicates(rules, equal, rule)
  {
    FilterIdempotent(rules, NotDuplicateOf(equal, rule));
  }

  /**
   * The string handed to the constraint parser: the locale, a dot, then the
   * rule's own constraint (generally domain.style).
   */
  function QualifiedCstr(locale: string, cstr: string): (s: string)
    ensures |s| == |locale| + 1 + |cstr|
    ensures s[..|locale|] == locale && s[|locale|] == '.' && s[|locale| + 1..] == cstr
  {
    locale + "." + cstr
  }

  /** For a fixed locale, different constraint strings are qualified differently. */
  lemma {:induction false} QualifiedCstrInjective(locale: string, cstr1: string, cstr2: string)
    requires QualifiedCstr(locale, cstr1) == QualifiedCstr(locale, cstr2)
    ensures cstr1 == cstr2
  {
  }

  /**
   * The error `defineRule` runs into, if any: the action is parsed first, the
   * locale-qualified dynamic constraint second.
   */
  function DefinitionFailure(action: Result<seq<ActionDirective>>, dynamic: Result<DynamicCstr>): (e: Option<Error>)
    ensures e.None? <==> action.Ok? && dynamic.Ok?
    ensures action.Err? ==> e == Some(action.error)
    ensures action.Ok? && dynamic.Err? ==> e == Some(dynamic.error)
  {
    if action.Err? then Some(action.error)
    else if dynamic.Err? then Some(dynamic.error)
    else None
  }

  /** How `defineRule` ends: the new rule, `null` after a rule error, or another error thrown on. */
  datatype Definition = Defined(rule: SpeechRule) | Skipped | Thrown(error: Error)

  /** The catch clause of `defineRule`: an error named `RuleError` is swallowed, any other is thrown on. */
  function CatchRuleError(e: Error): (d: Definition)
    ensures d.Skipped? <==> e.name == RuleErrorName
    ensures d.Thrown? <==> e.name != RuleErrorName
    ensures d.Thrown? ==> d.error == e
  {
    if e.name == RuleErrorName then Skipped else Thrown(e)
  }

  class RuleStore {
    /** The rule list, newest first. */
    var speechRules: seq<SpeechRule>
    /** The rules inserted into the trie, in insertion order; only insertion changes it. */
    var trie: seq<SpeechRule>
    /** The custom queries, by name. */
    var customQueries: map<string, Node -> seq<Node>>
    /** The locale put in front of every rule's dynamic constraint. */
    var locale: string

    constructor (locale: string, customQueries: map<string, Node -> seq<Node>>)
      ensures speechRules == [] && trie == []
      ensures this.locale == locale && this.customQueries == customQueries
    {
      speechRules := [];
      trie := [];
      this.customQueries := customQueries;
      this.locale := locale;
    }

    /**
     * The rule for `node` under `dynamic`: none for a missing node or one that
     * is neither an element nor a text node, none when the trie yields no
     * candidate, and otherwise the most constrained candidate.
     */
    method LookupRule(node: Option<Node>, dynamic: DynamicCstr,
                      lookupRules: (seq<SpeechRule>, Node, seq<string>) -> seq<SpeechRule>,
                      cmp: (DynamicCstr, DynamicCstr) -> int)
      returns (r: Option<SpeechRule>)
      ensures r.None? <==> !Speakable(node) || lookupRules(trie, node.value, dynamic.properties) == []
      ensures r.Some? ==> Speakable(node) && r.value in lookupRules(trie, node.value, dynamic.properties)
      ensures r.Some? && ConsistentComparator(cmp) ==>
        IsMostConstrained(cmp, lookupRules(trie, node.value, dynamic.properties), r.value)
      ensures r.Some? && ConsistentComparator(cmp) ==>
        var candidates := lookupRules(trie, node.value, dynamic.properties);
        exists k :: 0 <= k < |candidates| && candidates[k] == r.value &&
          forall j :: 0 <= j < k ==> Before(cmp, r.value, candidates[j])
    {
      if !Speakable(node) {
        return None;
      }
      var matchingRules := lookupRules(trie, node.value, dynamic.properties);
      if |matchingRules| > 0 {
        var best := PickMostConstraint(cmp, matchingRules);
        r := Some(best);
      } else {
        r := None;
      }
    }

    /**
     * Parses `cstr`, qualified by the store's locale, with the store's
     * constraint parser `parse`.
     */
    function ParseCstr(cstr: string, parse: string -> Result<DynamicCstr>): (parsed: Result<DynamicCstr>)
      reads this
      ensures parsed == parse(locale + "." + cstr)
    {
      parse(QualifiedCstr(locale, cstr))
    }

    /**
     * Builds a rule from its parts and adds it. A failure named `RuleError`
     * while parsing the action or the dynamic constraint yields `Skipped` and
     * leaves the store as it was; any other failure is thrown on, also leaving
     * the store as it was.
     */
    method DefineRule(name: string, dynamic: string, action: string, prec: string, cstrs: seq<string>,
                      parseAction: string -> Result<seq<ActionDirective>>,
                      parse: string -> Result<DynamicCstr>)
      returns (outcome: Definition)
      modifies this`speechRules, this`trie
      ensures var failure := DefinitionFailure(parseAction(action), ParseCstr(dynamic, parse));
        failure.Some? ==>
          outcome == CatchRuleError(failure.value) && speechRules == old(speechRules) && trie == old(trie)
      ensures var failure := DefinitionFailure(parseAction(action), ParseCstr(dynamic, parse));
        failure.None? ==>
          && outcome.Defined? && fresh(outcome.rule)
          && outcome.rule.name == name
          && outcome.rule.action == parseAction(action).value
          && outcome.rule.precondition == Precondition(prec, cstrs)
          && outcome.rule.dynamicCstr == ParseCstr(dynamic, parse).value
          && speechRules == [outcome.rule] + old(speechRules)
          && trie == old(trie) + [outcome.rule]
    {
      var postc := parseAction(action);
      if postc.Err? {
        return CatchRuleError(postc.error);
      }
      var fullPrec := Precondition(prec, cstrs);
      var dynamicCstr := ParseCstr(dynamic, parse);
      if dynamicCstr.Err? {
        return CatchRuleError(dynamicCstr.error);
      }
      var rule := new SpeechRule(name, dynamicCstr.value, fullPrec, postc.value);
      AddRule(rule);
      return Defined(rule);
    }

    /** Inserts `rule` into the trie and puts it at the front of the rule list. */
    method AddRule(rule: SpeechRule)
      modifies this`speechRules, this`trie
      ensures speechRules == [rule] + old(speechRules)
      ensures trie == old(trie) + [rule]
    {
      trie := trie + [rule];
      speechRules := [rule] + speechRules;
    }

    /**
     * Takes the first occurrence of `rule` (that very object) out of the rule
     * list; the trie keeps it.
     */
    method DeleteRule(rule: SpeechRule)
      modifies this`speechRules
      ensures speechRules == RemoveFirst(old(speechRules), rule)
    {
      var index := IndexOf(speechRules, rule);
      if index != -1 {
        speechRules := speechRules[..index] + speechRules[index + 1..];
      }
    }

    /** The first rule of the list that satisfies `pred`, if any. */
    method FindRule(pred: SpeechRule -> bool) returns (r: Option<SpeechRule>)
      ensures r.None? <==> forall x :: x in speechRules ==> !pred(x)
      ensures r.Some? ==>
        exists i :: 0 <= i < |speechRules| && speechRules[i] == r.value && pred(r.value) &&
          forall j :: 0 <= j < i ==> !pred(speechRules[j])
      ensures r == if FindAllRules(pred) == [] then None else Some(FindAllRules(pred)[0])
    {
      var i := 0;
      while i < |speechRules|
        invariant 0 <= i <= |speechRules|
        invariant forall j :: 0 <= j < i ==> !pred(speechRules[j])
      {
        if pred(speechRules[i]) {
          FilterHead(speechRules, pred, i);
          return Some(speechRules[i]);
        }
        i := i + 1;
      }
      return None;
    }

    /** All rules of the list that satisfy `pred`, in list order. */
    function FindAllRules(pred: SpeechRule -> bool): (r: seq<SpeechRule>)
      reads this
      ensures forall x :: x in r ==> x in speechRules && pred(x)
      ensures forall x :: x in speechRules && pred(x) ==> multiset(r)[x] == multiset(speechRules)[x]
      ensures IsSubsequence(r, speechRules)
    {
      FilterIsSubsequence(speechRules, pred);
      FilterKeepsCount(speechRules, pred);
      Filter(speechRules, pred)
    }

    /** The rule list. */
    function GetSpeechRules(): (rules: seq<SpeechRule>)
      reads this
      ensures rules == speechRules
    {
      speechRules
    }

    /** Replaces the rule list; the trie is left as it is. */
    method SetSpeechRules(rules: seq<SpeechRule>)
      modifies this`speechRules
      ensures GetSpeechRules() == rules
    {
      speechRules := rules;
    }

    /**
     * Removes every duplicate of `rule` from the rule list, walking it from
     * the back; the trie is left as it is.
     */
    method RemoveDuplicates(rule: SpeechRule, equal: (DynamicCstr, DynamicCstr) -> bool)
      modifies this`speechRules
      ensures speechRules == WithoutDuplicates(old(speechRules), equal, rule)
    {
      ghost var rules := speechRules;
      var i := |speechRules| - 1;
      while i >= 0
        invariant -1 <= i < |rules|
        invariant speechRules == rules[..i + 1] + WithoutDuplicates(rules[i + 1..], equal, rule)
      {
        var oldRule := speechRules[i];
        assert oldRule == rules[i];
        var duplicate := false;
        if oldRule != rule && equal(rule.dynamicCstr, oldRule.dynamicCstr) {
          duplicate := ComparePreconditions(oldRule, rule);
        }
        WithoutDuplicatesStep(rules, i, equal, rule);
        if duplicate {
          assert speechRules[..i] == rules[..i];
          assert speechRules[i + 1..] == WithoutDuplicates(rules[i + 1..], equal, rule);
          speechRules := speechRules[..i] + speechRules[i + 1..];
        }
        i := i - 1;
      }
      assert rules[0..] == rules;
    }

    /** The custom query registered as `funcName`, applied to `node`, if there is one. */
    function ApplyCustomQuery(node: Node, funcName: string): (r: Option<seq<Node>>)
      reads this
      ensures r.Some? <==> funcName in customQueries
      ensures r.Some? ==> r.value == customQueries[funcName](node)
    {
      if funcName in customQueries then Some(customQueries[funcName](node)) else None
    }

    /**
     * The nodes `expr` selects from `node`: a registered custom query of that
     * name decides alone, even when it selects nothing; otherwise the XPath
     * evaluator does.
     */
    function ApplySelector(node: Node, expr: string, evalXPath: (string, Node) -> seq<Node>): (r: seq<Node>)
      reads this
      ensures expr in customQueries ==> r == customQueries[expr](node)
      ensures expr !in customQueries ==> r == evalXPath(expr, node)
    {
      match ApplyCustomQuery(node, expr)
      case Some(result) => result
      case None => evalXPath(expr, node)
    }

    /** The first node `expr` selects from `node`, if any. */
    function ApplyQuery(node: Node, expr: string, evalXPath: (string, Node) -> seq<Node>): (r: Option<Node>)
      reads this
      ensures r.None? <==> ApplySelector(node, expr, evalXPath) == []
      ensures r.Some? ==> r.value == ApplySelector(node, expr, evalXPath)[0]
    {
      var results := ApplySelector(node, expr, evalXPath);
      if |results| > 0 then Some(results[0]) else None
    }

    /** `expr` holds at `node`: it selects some node, or it evaluates to true as an XPath boolean. */
    function ApplyConstraint(node: Node, expr: string, evalXPath: (string, Node) -> seq<Node>,
                             evaluateBoolean: (string, Node) -> bool): (r: bool)
      reads this
      ensures r <==> ApplySelector(node, expr, evalXPath) != [] || evaluateBoolean(expr, node)
    {
      ApplyQuery(node, expr, evalXPath).Some? || evaluateBoolean(expr, node)
    }

    /**
     * A custom query that selects nothing hides the XPath reading of its name:
     * the constraint then rests on the boolean evaluation alone.
     */
    lemma CustomQueryShadowsXPath(node: Node, expr: string, evalXPath: (string, Node) -> seq<Node>,
                                  evaluateBoolean: (string, Node) -> bool)
      requires expr in customQueries && customQueries[expr](node) == []
      ensures ApplySelector(node, expr, evalXPath) == []
      ensures ApplyConstraint(node, expr, evalXPath, evaluateBoolean) == evaluateBoolean(expr, node)
    {
    }
  }

  /** A rule deleted from the list is still in the trie, where lookups draw their candidates. */
  method DeletedRuleStaysInTrie()
  {
    var store := new RuleStore("es", map[]);
    var rule := new SpeechRule("row", DynamicCstr(["es", "prefix", "default"]),
                               Precondition("self::row", []), [Text("fila")]);
    store.AddRule(rule);
    store.DeleteRule(rule);
    assert rule !in store.speechRules;
    assert rule in store.trie;
  }

  /**
   * A constructed scenario: a rule defined a second time under the same
   * dynamic constraint and precondition, then deduplicated against the newer
   * definition, leaves only the newer rule.
   */
  method RedefinedRuleReplacesOlder()
  {
    var store := new RuleStore("es", map[]);
    var older := new SpeechRule("row", DynamicCstr(["es", "prefix", "default"]),
                                Precondition("self::row", []), [Text("fila")]);
    var newer := new SpeechRule("row", DynamicCstr(["es", "prefix", "default"]),
                                Precondition("self::row", []), [Text("fila"), Pause("200")]);
    store.AddRule(older);
    store.AddRule(newer);
    store.RemoveDuplicates(newer, (a, b) => a == b);
    assert IsDuplicate((a, b) => a == b, newer, older);
    WithoutDuplicatesCons(newer, [older], (a, b) => a == b, newer);
    WithoutDuplicatesCons(older, [], (a, b) => a == b, newer);
    assert store.speechRules == [newer];
  }

  /**
   * A constructed scenario with the two Spanish `radicand` rules: if both were
   * candidates and the comparator put them level, the one with more static
   * constraints would be picked. Their preconditions exclude each other, so
   * no real lookup offers both.
   */
  method MoreStaticConstraintsWin()
  {
    var sqrt := new SpeechRule("radicand", DynamicCstr(["es", "prefix", "default"]),
                               Precondition("self::*", ["name(../..)=\"sqrt\""]), [Text("radicand"), Pause("200")]);
    var root := new SpeechRule("radicand", DynamicCstr(["es", "prefix", "default"]),
                               Precondition("self::*", ["name(../..)=\"root\"", "count(preceding-sibling::*)=1"]),
                               [Text("radicand"), Pause("200")]);
    var level := (a: DynamicCstr, b: DynamicCstr) => 0;
    assert ConsistentComparator(level);
    var best := PickMostConstraint(level, [sqrt, root]);
    assert best == root by {
      assert !Before(level, root, best);
    }
  }
}
