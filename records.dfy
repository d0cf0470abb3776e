/**
 * The two records every part of the engine passes around: a rule of the
 * pattern catalog and a finding produced by matching it.
 */
module Records {

  /**
   * One match of a rule on one line. `functionName` is the enclosing unit the
   * resolver attributed the line to (the source calls the field `function`);
   * `lineNum` counts from 1.
   */
  datatype Finding = Finding(
    filename: string,
    functionName: string,
    lineNum: nat,
    code: string,
    category: string,
    severity: string,
    remediation: string)

  /** A catalog entry; `regex` is the rule's regular-expression text. */
  datatype Rule = Rule(
    id: string,
    language: string,
    regex: string,
    category: string,
    severity: string,
    remediation: string)

  /** `rules.filter(p => p.language === language)`. */
  function RulesFor(rules: seq<Rule>, language: string): (r: seq<Rule>)
    ensures |r| <= |rules|
    ensures forall x :: x in r ==> x in rules && x.language == language
    ensures forall i :: 0 <= i < |rules| && rules[i].language == language ==> rules[i] in r
  {
    if rules == [] then []
    else (if rules[0].language == language then [rules[0]] else []) + RulesFor(rules[1..], language)
  }

  /** The filter keeps catalog order: it distributes over concatenation. */
  lemma {:induction false} RulesForConcat(a: seq<Rule>, b: seq<Rule>, language: string)
    ensures RulesFor(a + b, language) == RulesFor(a, language) + RulesFor(b, language)
  {
    if a == [] {
      assert a + b == b;
    } else {
      assert (a + b)[1..] == a[1..] + b;
      RulesForConcat(a[1..], b, language);
    }
  }

  /** No rule is selected for two different languages. */
  lemma RulesForDisjoint(rules: seq<Rule>, l1: string, l2: string)
    requires l1 != l2
    ensures forall x :: x in RulesFor(rules, l1) ==> x !in RulesFor(rules, l2)
  {
  }
}
