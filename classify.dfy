/** Ordered first-match classification of a thrown error by its name and by
    case-sensitive substrings of its message: the shape shared by the error
    ladder of the PDF parser and the guidance ladder of the chat upload. */
module Classify {
  import opened JsText

  /** One rung of a ladder: it fires when the error's name is one of `names`
      or its message contains one of `needles`. */
  datatype Rule<A> = Rule(names: seq<string>, needles: seq<string>, action: A)

  predicate Fires<A>(rule: Rule<A>, name: string, message: string) {
    name in rule.names || exists i :: 0 <= i < |rule.needles| && Contains(message, rule.needles[i])
  }

  /** The action of the first rule that fires, or `otherwise` when none does. */
  function FirstMatch<A>(rules: seq<Rule<A>>, name: string, message: string, otherwise: A): A
    decreases |rules|
  {
    if rules == [] then otherwise
    else if Fires(rules[0], name, message) then rules[0].action
    else FirstMatch(rules[1..], name, message, otherwise)
  }

  /** FirstMatch picks rule `i` exactly when rule `i` fires and no earlier
      rule does; it falls through to `otherwise` exactly when no rule fires. */
  lemma {:induction false} FirstMatchPicks<A>(rules: seq<Rule<A>>, name: string, message: string, otherwise: A, i: nat)
    requires i < |rules| && Fires(rules[i], name, message)
    requires forall j :: 0 <= j < i ==> !Fires(rules[j], name, message)
    ensures FirstMatch(rules, name, message, otherwise) == rules[i].action
    decreases i
  {
    if i > 0 {
      assert !Fires(rules[0], name, message);
      assert rules[1..][i - 1] == rules[i];
      FirstMatchPicks(rules[1..], name, message, otherwise, i - 1);
    }
  }

  lemma {:induction false} FirstMatchFallsThrough<A>(rules: seq<Rule<A>>, name: string, message: string, otherwise: A)
    requires forall j :: 0 <= j < |rules| ==> !Fires(rules[j], name, message)
    ensures FirstMatch(rules, name, message, otherwise) == otherwise
    decreases |rules|
  {
    if rules != [] {
      assert !Fires(rules[0], name, message);
      assert forall j :: 0 <= j < |rules| - 1 ==> rules[1..][j] == rules[j + 1];
      FirstMatchFallsThrough(rules[1..], name, message, otherwise);
    }
  }
}
