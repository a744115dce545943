/** The options page of the first multi-rule version (options.js): only the rule list and
    the id counter, always kept in local storage. */
module LegacyOptions {
  import opened Wrappers
  import opened Config
  import opened Matching
  import opened Validation
  import opened RuleEditing

  /** The rule `addRule()` appends: enabled, container-separated, everything else empty. */
  function BlankRule(id: RuleId): Rule {
    Rule(id, true, "", true, Some([]), Some([]), "")
  }

  /** A fresh blank rule never passes validation: its name is empty. */
  lemma BlankRuleInvalid(re: RegexEngine, id: RuleId)
    ensures ValidateRules(re, [BlankRule(id)]) == Invalid(InvalidName(""))
  {
  }

  class LegacyOptionsPage {
    var rules: seq<Rule>
    var ruleIdCounter: RuleId

    ghost predicate IdsFresh()
      reads this
    {
      IdsBelow(rules, ruleIdCounter)
    }

    constructor()
      ensures rules == [] && ruleIdCounter == 0 && IdsFresh()
    {
      rules := [];
      ruleIdCounter := 0;
    }

    /** `loadRules()` given the stored list (`None` when absent). */
    method LoadRules(stored: Option<seq<Rule>>)
      modifies this
      ensures rules == stored.GetOr([]) && ruleIdCounter == NextRuleId(rules)
      ensures IdsFresh()
    {
      rules := stored.GetOr([]);
      ruleIdCounter := if |rules| > 0 then MaxId(rules) + 1 else 0;
    }

    /** `loadRules()` when the storage read throws: the `catch` empties the rule list and
        the id counter keeps its value. */
    method LoadRulesFailed()
      modifies this`rules
      ensures rules == []
      ensures IdsFresh()
    {
      rules := [];
    }

    /** `addRule()`: append a blank rule with the counter's id and advance the counter. */
    method AddRule()
      modifies this
      ensures rules == old(rules) + [BlankRule(old(ruleIdCounter))]
      ensures ruleIdCounter == old(ruleIdCounter) + 1
      ensures old(IdsFresh()) ==> IdsFresh()
    {
      var newRule := BlankRule(ruleIdCounter);
      ruleIdCounter := ruleIdCounter + 1;
      if IdsBelow(rules, newRule.id) {
        AppendWithCounterFresh(rules, newRule.id, newRule);
      }
      rules := rules + [newRule];
    }

    /** `deleteRule(ruleId)`. */
    method DeleteRule(ruleId: RuleId)
      modifies this`rules
      ensures rules == WithoutRule(old(rules), ruleId)
      ensures old(IdsFresh()) ==> IdsFresh()
    {
      rules := WithoutRule(rules, ruleId);
    }

    /** `updatePatternsFromDOM(card, rule)` for the rule at `index`. */
    method UpdatePatternsFromInputs(index: nat, stickyValues: seq<string>, matchValues: seq<string>)
      requires index < |rules|
      modifies this`rules
      ensures rules == old(rules)[index := old(rules)[index].(stickyPatterns := Some(NonBlank(stickyValues)),
                                                             matchPatterns := Some(NonBlank(matchValues)))]
    {
      var rule := rules[index];
      rules := rules[index := rule.(stickyPatterns := Some(NonBlank(stickyValues)), matchPatterns := Some(NonBlank(matchValues)))];
    }

    /** `saveRules()`: succeeds exactly when the rules validate and the write succeeds. */
    method SaveRules(re: RegexEngine, written: bool) returns (ok: bool, validation: Validation)
      ensures validation == ValidateRules(re, rules)
      ensures ok <==> validation.Valid? && written
    {
      validation := CheckRules(re, rules);
      ok := validation.Valid? && written;
    }
  }
}
