/**
 * Integer cardinal plural rules in the shape of section 5 (Language Plural
 * Rules) of UTS #35 Part 3: a rule set lists, per category, a condition
 * `n = a..b, c, ...`, and a number takes the category of the rule whose
 * condition it meets, or `other` when it meets none.
 */
module PluralRules {
  import opened IntlVariations

  /** `lo..hi` in a rule condition; a single value `v` is `v..v`. */
  datatype Range = Range(lo: int, hi: int)

  /** `category: n = r1, r2, ...` */
  datatype Rule = Rule(category: NumberCategory, ranges: seq<Range>)

  predicate InRange(r: Range, n: int)
  {
    r.lo <= n <= r.hi
  }

  /** `n` meets the condition of `rule`: it lies in one of its ranges. */
  predicate Matches(rule: Rule, n: int)
  {
    exists k :: 0 <= k < |rule.ranges| && InRange(rule.ranges[k], n)
  }

  /** The category of the first rule `n` meets, `other` when it meets none. */
  function Select(rules: seq<Rule>, n: int): NumberCategory
  {
    if rules == [] then NumberOther
    else if Matches(rules[0], n) then rules[0].category
    else Select(rules[1..], n)
  }

  /** No number meets the conditions of two different rules. */
  ghost predicate Disjoint(rules: seq<Rule>)
  {
    forall i, j, n :: 0 <= i < |rules| && 0 <= j < |rules| && i != j && Matches(rules[i], n) ==> !Matches(rules[j], n)
  }

  /**
   * For a disjoint rule set, the selected category does not depend on the
   * order of the rules: `n` gets the category of a rule it meets, and
   * `other` exactly when it meets none.
   */
  lemma {:induction false} SelectCharacterized(rules: seq<Rule>, n: int)
    requires Disjoint(rules)
    ensures forall rule :: rule in rules && Matches(rule, n) ==> Select(rules, n) == rule.category
    ensures (forall rule :: rule in rules ==> !Matches(rule, n)) ==> Select(rules, n) == NumberOther
  {
    if rules != [] {
      var tail := rules[1..];
      assert Disjoint(tail) by {
        forall i, j, m | 0 <= i < |tail| && 0 <= j < |tail| && i != j && Matches(tail[i], m)
          ensures !Matches(tail[j], m)
        {
          assert tail[i] == rules[i + 1] && tail[j] == rules[j + 1];
        }
      }
      SelectCharacterized(tail, n);
      forall rule | rule in rules && Matches(rule, n) ensures Select(rules, n) == rule.category {
        var i :| 0 <= i < |rules| && rules[i] == rule;
        if i == 0 {
        } else {
          assert !Matches(rules[0], n);
          assert rule in tail by { assert tail[i - 1] == rule; }
        }
      }
      if forall rule :: rule in rules ==> !Matches(rule, n) {
        assert !Matches(rules[0], n);
        forall rule | rule in tail ensures !Matches(rule, n) {
          assert rule in rules;
        }
      }
    }
  }

  /** Two disjoint rule sets holding the same rules select the same category for every number. */
  lemma SelectOrderFree(rules1: seq<Rule>, rules2: seq<Rule>, n: int)
    requires Disjoint(rules1) && Disjoint(rules2)
    requires multiset(rules1) == multiset(rules2)
    ensures Select(rules1, n) == Select(rules2, n)
  {
    SelectCharacterized(rules1, n);
    SelectCharacterized(rules2, n);
    if rule :| rule in rules1 && Matches(rule, n) {
      assert rule in multiset(rules2);
    } else {
      forall rule | rule in rules2 ensures !Matches(rule, n) {
        assert rule in multiset(rules1);
      }
    }
  }
}
