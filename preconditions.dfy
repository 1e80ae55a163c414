/**
 * Equality of preconditions as the rule store decides it
 * (`compareStaticConstraints_` and `comparePreconditions_`).
 */
module Preconditions {
  import opened SpeechRules

  /**
   * Where the scan over the first constraint list stops: at the first empty
   * string (the loop's condition `cstr = cstr1[i]` is falsy there) or at the
   * end of the list.
   */
  function FirstEmpty(cs: seq<string>): (k: nat)
    ensures k <= |cs|
    ensures forall j :: 0 <= j < k ==> cs[j] != ""
    ensures k < |cs| ==> cs[k] == ""
  {
    if cs == [] || cs[0] == "" then 0 else 1 + FirstEmpty(cs[1..])
  }

  /**
   * The static constraints `cs1` count as equal to `cs2`: both lists have the
   * same length and every constraint of `cs1` before its first empty string
   * occurs somewhere in `cs2`.
   */
  predicate StaticConstraintsEqual(cs1: seq<string>, cs2: seq<string>)
  {
    |cs1| == |cs2| && forall j :: 0 <= j < FirstEmpty(cs1) ==> cs1[j] in cs2
  }

  /** The comparison of static constraint lists, scanning `cs1` from the front. */
  method CompareStaticConstraints(cs1: seq<string>, cs2: seq<string>) returns (equal: bool)
    ensures equal == StaticConstraintsEqual(cs1, cs2)
    ensures |cs1| != |cs2| ==> !equal
    ensures "" !in cs1 ==> (equal <==> |cs1| == |cs2| && forall c :: c in cs1 ==> c in cs2)
  {
    if |cs1| != |cs2| {
      return false;
    }
    var i := 0;
    while i < |cs1| && cs1[i] != ""
      invariant i <= FirstEmpty(cs1)
      invariant forall j :: 0 <= j < i ==> cs1[j] in cs2
    {
      if cs1[i] !in cs2 {
        return false;
      }
      i := i + 1;
    }
    return true;
  }

  /** Two preconditions count as equal: same query, equal static constraints. */
  predicate PreconditionsEqual(p1: Precondition, p2: Precondition)
  {
    p1.query == p2.query && StaticConstraintsEqual(p1.constraints, p2.constraints)
  }

  /** The comparison of the preconditions of two rules. */
  method ComparePreconditions(rule1: SpeechRule, rule2: SpeechRule) returns (equal: bool)
    ensures equal == PreconditionsEqual(rule1.precondition, rule2.precondition)
    ensures rule1.precondition.query != rule2.precondition.query ==> !equal
    ensures |rule1.precondition.constraints| != |rule2.precondition.constraints| ==> !equal
  {
    var prec1 := rule1.precondition;
    var prec2 := rule2.precondition;
    if prec1.query != prec2.query {
      return false;
    }
    equal := CompareStaticConstraints(prec1.constraints, prec2.constraints);
  }

  /** Every precondition is equal to itself. */
  lemma PreconditionsEqualReflexive(p: Precondition)
    ensures PreconditionsEqual(p, p)
  {
  }

  /** Reordering the second list never changes the verdict. */
  lemma {:induction false} SecondListOrderIrrelevant(cs1: seq<string>, cs2: seq<string>, cs2': seq<string>)
    requires multiset(cs2) == multiset(cs2')
    ensures StaticConstraintsEqual(cs1, cs2) == StaticConstraintsEqual(cs1, cs2')
  {
    assert |cs2| == |multiset(cs2)| == |cs2'|;
    forall c
      ensures c in cs2 <==> c in cs2'
    {
      assert c in cs2 <==> c in multiset(cs2);
      assert c in cs2' <==> c in multiset(cs2');
    }
  }

  /** Without empty strings in them, reordering the first list does not change the verdict either. */
  lemma {:induction false} FirstListOrderIrrelevant(cs1: seq<string>, cs1': seq<string>, cs2: seq<string>)
    requires multiset(cs1) == multiset(cs1')
    requires "" !in cs1
    ensures StaticConstraintsEqual(cs1, cs2) == StaticConstraintsEqual(cs1', cs2)
  {
    assert |cs1| == |multiset(cs1)| == |cs1'|;
    forall c
      ensures c in cs1 <==> c in cs1'
    {
      assert c in cs1 <==> c in multiset(cs1);
      assert c in cs1' <==> c in multiset(cs1');
    }
    assert "" !in cs1';
    assert FirstEmpty(cs1) == |cs1|;
    assert FirstEmpty(cs1') == |cs1'|;
    if StaticConstraintsEqual(cs1, cs2) {
      forall j | 0 <= j < |cs1'| ensures cs1'[j] in cs2 {
        assert cs1'[j] in cs1;
      }
    }
    if StaticConstraintsEqual(cs1', cs2) {
      forall j | 0 <= j < |cs1| ensures cs1[j] in cs2 {
        assert cs1[j] in cs1';
      }
    }
  }

  /**
   * An empty constraint ends the scan: every constraint after it goes
   * unchecked, so the verdict depends on where the empty string stands.
   */
  lemma EmptyConstraintEndsScan()
    ensures StaticConstraintsEqual(["", "a"], ["b", "c"])
    ensures !StaticConstraintsEqual(["a", ""], ["b", "c"])
  {
    assert FirstEmpty(["", "a"]) == 0;
    assert FirstEmpty(["a", ""]) >= 1;
    assert ["a", ""][0] == "a";
  }

  /** With a repeated constraint the comparison is not symmetric. */
  lemma NotSymmetricWithRepeats()
    ensures StaticConstraintsEqual(["a", "a"], ["a", "b"])
    ensures !StaticConstraintsEqual(["a", "b"], ["a", "a"])
  {
    assert FirstEmpty(["a", "b"]) == 2;
    assert ["a", "b"][1] == "b";
  }

  /** No element occurs twice. */
  predicate Distinct(s: seq<string>)
  {
    forall i, j :: 0 <= i < j < |s| ==> s[i] != s[j]
  }

  lemma {:induction false} DistinctCardinality(s: seq<string>)
    requires Distinct(s)
    ensures |set c | c in s| == |s|
  {
    if s != [] {
      DistinctCardinality(s[1..]);
      assert (set c | c in s) == {s[0]} + (set c | c in s[1..]);
      assert s[0] !in s[1..];
    }
  }

  /** A subset as large as its superset is the whole superset. */
  lemma SubsetOfSameSize(a: set<string>, b: set<string>)
    requires a <= b && |a| == |b|
    ensures a == b
  {
    assert b == a + (b - a);
    assert |b - a| == 0;
  }

  /**
   * Between two lists of the same length without repeats, inclusion one way
   * gives inclusion the other way.
   */
  lemma {:induction false} IncludedBothWays(cs1: seq<string>, cs2: seq<string>)
    requires Distinct(cs1) && Distinct(cs2) && |cs1| == |cs2|
    requires forall c :: c in cs1 ==> c in cs2
    ensures forall c :: c in cs2 ==> c in cs1
  {
    var a, b := set c | c in cs1, set c | c in cs2;
    DistinctCardinality(cs1);
    DistinctCardinality(cs2);
    SubsetOfSameSize(a, b);
    forall c | c in cs2 ensures c in cs1 {
      assert c in b;
    }
  }

  /**
   * When neither list repeats a constraint or holds an empty one, the
   * comparison is symmetric.
   */
  lemma {:induction false} SymmetricWithoutRepeats(cs1: seq<string>, cs2: seq<string>)
    requires Distinct(cs1) && Distinct(cs2)
    requires "" !in cs1 && "" !in cs2
    ensures StaticConstraintsEqual(cs1, cs2) == StaticConstraintsEqual(cs2, cs1)
  {
    assert FirstEmpty(cs1) == |cs1|;
    assert FirstEmpty(cs2) == |cs2|;
    if StaticConstraintsEqual(cs1, cs2) {
      IncludedBothWays(cs1, cs2);
    }
    if StaticConstraintsEqual(cs2, cs1) {
      IncludedBothWays(cs2, cs1);
    }
  }
}
