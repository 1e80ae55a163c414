/**
 * Choosing among the candidate rules for a node (`pickMostConstraint_`):
 * prefer the best match on the dynamic constraint, then the rule with more
 * static constraints.
 */
module Selection {
  import opened SpeechRules

  /**
   * The engine's comparator on dynamic constraints orders consistently: the
   * sign of `cmp(a, b)` is the opposite of that of `cmp(b, a)`, and "not after"
   * is transitive. This is what a sort comparator has to satisfy for the head
   * of the sorted array to be well defined.
   */
  ghost predicate ConsistentComparator(cmp: (DynamicCstr, DynamicCstr) -> int)
  {
    && (forall a, b :: cmp(a, b) < 0 <==> cmp(b, a) > 0)
    && (forall a, b, c :: cmp(a, b) <= 0 && cmp(b, c) <= 0 ==> cmp(a, c) <= 0)
  }

  /**
   * The comparator the candidates are sorted with: the engine's comparison of
   * the dynamic constraints, and when that is 0, the number of static
   * constraints, more constraints first.
   */
  function Order(cmp: (DynamicCstr, DynamicCstr) -> int, r1: SpeechRule, r2: SpeechRule): (c: int)
    ensures cmp(r1.dynamicCstr, r2.dynamicCstr) != 0 ==> c == cmp(r1.dynamicCstr, r2.dynamicCstr)
    ensures cmp(r1.dynamicCstr, r2.dynamicCstr) == 0 ==>
      (c < 0 <==> |r1.precondition.constraints| > |r2.precondition.constraints|)
  {
    var c := cmp(r1.dynamicCstr, r2.dynamicCstr);
    if c != 0 then c
    else |r2.precondition.constraints| - |r1.precondition.constraints|
  }

  /** `r1` sorts strictly before `r2`. */
  predicate Before(cmp: (DynamicCstr, DynamicCstr) -> int, r1: SpeechRule, r2: SpeechRule)
  {
    Order(cmp, r1, r2) < 0
  }

  /**
   * With a consistent comparator, "sorts strictly before" is a strict weak
   * order: irreflexive, asymmetric, transitive, and whatever sorts between two
   * rules is on one side of each.
   */
  lemma BeforeIsStrictWeakOrder(cmp: (DynamicCstr, DynamicCstr) -> int, a: SpeechRule, b: SpeechRule, c: SpeechRule)
    requires ConsistentComparator(cmp)
    ensures !Before(cmp, a, a)
    ensures Before(cmp, a, b) ==> !Before(cmp, b, a)
    ensures Before(cmp, a, b) ==> Before(cmp, a, c) || Before(cmp, c, b)
    ensures Before(cmp, a, b) && Before(cmp, b, c) ==> Before(cmp, a, c)
  {
  }

  /** `r` is a candidate and no candidate sorts strictly before it. */
  ghost predicate IsMostConstrained(cmp: (DynamicCstr, DynamicCstr) -> int, rules: seq<SpeechRule>, r: SpeechRule)
  {
    r in rules && forall x :: x in rules ==> !Before(cmp, x, r)
  }

  /**
   * Two most constrained candidates tie on both criteria: the comparator puts
   * their dynamic constraints level and they have as many static constraints.
   * Only the order of the candidates can separate them.
   */
  lemma {:induction false} MostConstrainedTie(cmp: (DynamicCstr, DynamicCstr) -> int, rules: seq<SpeechRule>, r1: SpeechRule, r2: SpeechRule)
    requires ConsistentComparator(cmp)
    requires IsMostConstrained(cmp, rules, r1) && IsMostConstrained(cmp, rules, r2)
    ensures cmp(r1.dynamicCstr, r2.dynamicCstr) == 0
    ensures |r1.precondition.constraints| == |r2.precondition.constraints|
  {
  }

  /**
   * The head of the candidates sorted by `Order`. The candidates are scanned
   * once, keeping the earliest rule that nothing seen so far sorts before: the
   * rule a stable sort puts first.
   */
  method PickMostConstraint(cmp: (DynamicCstr, DynamicCstr) -> int, rules: seq<SpeechRule>) returns (best: SpeechRule)
    requires |rules| > 0
    ensures best in rules
    ensures ConsistentComparator(cmp) ==> IsMostConstrained(cmp, rules, best)
    ensures ConsistentComparator(cmp) ==>
      forall r :: r in rules ==>
        cmp(r.dynamicCstr, best.dynamicCstr) >= 0 &&
        (cmp(r.dynamicCstr, best.dynamicCstr) == 0 ==>
           |r.precondition.constraints| <= |best.precondition.constraints|)
    ensures ConsistentComparator(cmp) ==>
      exists k :: 0 <= k < |rules| && rules[k] == best &&
        forall j :: 0 <= j < k ==> Before(cmp, best, rules[j])
  {
    var k := 0;
    var i := 1;
    while i < |rules|
      invariant 0 <= k < i <= |rules|
      invariant ConsistentComparator(cmp) ==> forall j :: 0 <= j < i ==> !Before(cmp, rules[j], rules[k])
      invariant ConsistentComparator(cmp) ==> forall j :: 0 <= j < k ==> Before(cmp, rules[k], rules[j])
    {
      if Before(cmp, rules[i], rules[k]) {
        if ConsistentComparator(cmp) {
          forall j | 0 <= j < i
            ensures !Before(cmp, rules[j], rules[i]) && Before(cmp, rules[i], rules[j])
          {
            BeforeIsStrictWeakOrder(cmp, rules[j], rules[i], rules[k]);
            BeforeIsStrictWeakOrder(cmp, rules[i], rules[k], rules[j]);
          }
        }
        k := i;
      }
      i := i + 1;
    }
    best := rules[k];
  }
}
