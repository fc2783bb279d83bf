/** `IntlCLDRNumberType21`: the runtime plural classifier for CLDR number type 21. */
module IntlCLDRNumberType21 {
  import opened IntlVariations
  import opened PluralRules

  /**
   * `getVariation(n)`: `one` for 1 and 11, `two` for 2 and 12, `few` for
   * 3..10 and 13..19, `other` for every other integer. It never yields
   * `zero` or `many`.
   */
  function GetVariation(n: int): (r: NumberCategory)
    ensures r == NumberOne <==> n == 1 || n == 11
    ensures r == NumberTwo <==> n == 2 || n == 12
    ensures r == NumberFew <==> 3 <= n <= 10 || 13 <= n <= 19
    ensures r == NumberOther <==> !(1 <= n <= 19)
    ensures r != NumberZero && r != NumberMany
  {
    if n == 1 || n == 11 then NumberOne
    else if n == 2 || n == 12 then NumberTwo
    else if 3 <= n <= 10 || 13 <= n <= 19 then NumberFew
    else NumberOther
  }

  /** The same classification as a rule set: `one: n = 1,11; two: n = 2,12; few: n = 3..10,13..19`. */
  const Rules: seq<Rule> := [
    Rule(NumberOne, [Range(1, 1), Range(11, 11)]),
    Rule(NumberTwo, [Range(2, 2), Range(12, 12)]),
    Rule(NumberFew, [Range(3, 10), Range(13, 19)])
  ]

  /** The conditions of the three rules are pairwise disjoint. */
  lemma RulesDisjoint()
    ensures Disjoint(Rules)
  {
    forall i, j, n | 0 <= i < |Rules| && 0 <= j < |Rules| && i != j && Matches(Rules[i], n)
      ensures !Matches(Rules[j], n)
    {
      var k :| 0 <= k < |Rules[i].ranges| && InRange(Rules[i].ranges[k], n);
    }
  }

  /** `getVariation` selects by the rule set, for every integer. */
  lemma GetVariationFollowsRules(n: int)
    ensures GetVariation(n) == Select(Rules, n)
  {
    assert Matches(Rules[0], n) <==> n == 1 || n == 11 by {
      if n == 1 || n == 11 {
        assert InRange(Rules[0].ranges[if n == 1 then 0 else 1], n);
      }
    }
    assert Matches(Rules[1], n) <==> n == 2 || n == 12 by {
      if n == 2 || n == 12 {
        assert InRange(Rules[1].ranges[if n == 2 then 0 else 1], n);
      }
    }
    assert Matches(Rules[2], n) <==> 3 <= n <= 10 || 13 <= n <= 19 by {
      if 3 <= n <= 10 || 13 <= n <= 19 {
        assert InRange(Rules[2].ranges[if n <= 10 then 0 else 1], n);
      }
    }
    var r1, r2 := Rules[1..], Rules[2..];
    assert r1[0] == Rules[1] && r1[1..] == r2;
    assert r2[0] == Rules[2] && r2[1..] == [];
    assert Select(r2, n) == if Matches(Rules[2], n) then NumberFew else NumberOther;
    assert Select(r1, n) == if Matches(Rules[1], n) then NumberTwo else Select(r2, n);
  }

  /**
   * The branches of `getVariation` may be tested in any order: every
   * reordering of the rule set classifies every integer as `getVariation` does.
   */
  lemma GetVariationOrderFree(reordered: seq<Rule>, n: int)
    requires multiset(reordered) == multiset(Rules)
    ensures Select(reordered, n) == GetVariation(n)
  {
    RulesDisjoint();
    assert Disjoint(reordered) by {
      forall i, j, m | 0 <= i < |reordered| && 0 <= j < |reordered| && i != j && Matches(reordered[i], m)
        ensures !Matches(reordered[j], m)
      {
        // The three rules are distinct, so the two positions hold two different rules of Rules.
        assert reordered[i] in multiset(Rules) && reordered[j] in multiset(Rules);
        var i', j' :| 0 <= i' < |Rules| && 0 <= j' < |Rules| && Rules[i'] == reordered[i] && Rules[j'] == reordered[j];
      }
    }
    SelectOrderFree(reordered, Rules, n);
    GetVariationFollowsRules(n);
  }
}
