/** The payment-frequency selector of the tenant form (app2.py, lines 115-124). */
module Frequency {

  const MonthlyChoice := "Monthly (30 days)"
  const QuarterlyChoice := "Quarterly (90 days)"
  const CustomChoice := "Custom"

  /** The options of the select box; the widget only ever yields one of them. */
  const Choices := [MonthlyChoice, QuarterlyChoice, CustomChoice]

  /** The bounds of the custom-days number input. */
  const MinCustomDays := 1
  const MaxCustomDays := 365

  /** Whether `part` occurs in `s` as a contiguous piece (Python's `part in s`). */
  predicate Contains(s: string, part: string)
    decreases |s|
  {
    |part| <= |s| && (s[..|part|] == part || Contains(s[1..], part))
  }

  /** A piece whose first character does not occur in `s` is not contained in it. */
  lemma {:induction false} NotContainedWithoutFirstChar(s: string, part: string)
    requires |part| > 0
    requires forall i :: 0 <= i < |s| ==> s[i] != part[0]
    ensures !Contains(s, part)
    decreases |s|
  {
    if |part| <= |s| {
      assert s[..|part|][0] == s[0];
      NotContainedWithoutFirstChar(s[1..], part);
    }
  }

  /** The number of days between payments for the chosen option. */
  function FrequencyDays(choice: string, customDays: int): (days: int)
    requires choice in Choices
    requires choice == CustomChoice ==> MinCustomDays <= customDays <= MaxCustomDays
    ensures MinCustomDays <= days <= MaxCustomDays
  {
    if choice == CustomChoice then customDays
    else if Contains(choice, "Monthly") then 30
    else 90
  }

  /** Monthly means 30 days, quarterly 90 days, custom the number entered. */
  lemma FrequencyOfEachChoice(customDays: int)
    requires MinCustomDays <= customDays <= MaxCustomDays
    ensures FrequencyDays(MonthlyChoice, customDays) == 30
    ensures FrequencyDays(QuarterlyChoice, customDays) == 90
    ensures FrequencyDays(CustomChoice, customDays) == customDays
  {
    assert MonthlyChoice[..7] == "Monthly";
    NotContainedWithoutFirstChar(QuarterlyChoice, "Monthly");
  }
}
