/** The fixed rule set that keeps administrative series out of the output. */
module Exclusion {

  /** One row of `exclude_series`. */
  datatype Rule = Rule(description: string, number: int)

  const FujiReport := "FUJI Basic Text SR for HL7 Radiological Report"
  const ScreenSave := "Screen Save"
  const DoseReport := "Dose Report"

  /** The rule table, in the order both variants list it. */
  const ExcludeSeries: seq<Rule> := [
    Rule(FujiReport, 999),
    Rule(ScreenSave, 99),
    Rule(DoseReport, 999)
  ]

  /** A series matches a rule when its description equals the rule's
      description OR its number equals the rule's number. */
  predicate Matches(rule: Rule, description: string, number: int) {
    description == rule.description || number == rule.number
  }

  /** `any(... for excl in rules)`, walked front to back. */
  function AnyMatch(rules: seq<Rule>, description: string, number: int): (b: bool)
    ensures b <==> exists i :: 0 <= i < |rules| && Matches(rules[i], description, number)
    decreases |rules|
  {
    if |rules| == 0 then false
    else Matches(rules[0], description, number) || AnyMatch(rules[1..], description, number)
  }

  /** The exclusion decision both variants make for every file. */
  predicate IsExcluded(description: string, number: int) {
    AnyMatch(ExcludeSeries, description, number)
  }

  /** Closed form of the rule table: a series is excluded exactly when its
      description is one of the three listed ones or its number is 99 or
      999; each condition alone is enough. */
  lemma ExcludedIff(description: string, number: int)
    ensures IsExcluded(description, number) <==>
              description in {FujiReport, ScreenSave, DoseReport} || number == 99 || number == 999
  {
    assert Matches(ExcludeSeries[0], description, number) <==> description == FujiReport || number == 999;
    assert Matches(ExcludeSeries[1], description, number) <==> description == ScreenSave || number == 99;
    assert Matches(ExcludeSeries[2], description, number) <==> description == DoseReport || number == 999;
  }

  /** A number collision excludes an unrelated series: the number alone decides. */
  lemma NumberAloneExcludes(description: string, number: int)
    requires number == 99 || number == 999
    ensures IsExcluded(description, number)
  {
    ExcludedIff(description, number);
  }

  /** A listed description excludes a series whatever its number. */
  lemma DescriptionAloneExcludes(description: string, number: int)
    requires description in {FujiReport, ScreenSave, DoseReport}
    ensures IsExcluded(description, number)
  {
    ExcludedIff(description, number);
  }
}
