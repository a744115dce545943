/** `validateRules`, shared verbatim by both options pages, and the rule-name character class. */
module Validation {
  import opened Wrappers
  import opened Config
  import opened Matching

  /** One character of the class `[a-zA-Z0-9_-]`. */
  predicate NameChar(c: char) {
    ('a' <= c <= 'z') || ('A' <= c <= 'Z') || ('0' <= c <= '9') || c == '_' || c == '-'
  }

  /** `RULE_NAME_PATTERN = /^[a-zA-Z0-9_-]+$/` tests true. */
  predicate NameOk(name: string) {
    |name| > 0 && forall i :: 0 <= i < |name| ==> NameChar(name[i])
  }

  /** Why a rule was refused; each alternative carries what its message shows. */
  datatype RuleError =
    | InvalidName(name: string)
    | MissingStickyPattern(name: string)
    | InvalidStickyRegex(name: string, pattern: string)
    | InvalidMatchRegex(name: string, pattern: string)

  /** The text the options page shows for an error. */
  function ErrorMessage(e: RuleError): string {
    match e
    case InvalidName(n) => "Invalid rule name: \"" + n + "\". Use only alphanumeric, dash, underscore."
    case MissingStickyPattern(n) => "Rule \"" + n + "\" must have at least one sticky pattern."
    case InvalidStickyRegex(n, p) => "Invalid regex in \"" + n + "\" sticky patterns: " + p
    case InvalidMatchRegex(n, p) => "Invalid regex in \"" + n + "\" match patterns: " + p
  }

  datatype Validation = Valid | Invalid(error: RuleError)

  /** The position of the first pattern that does not compile, or |ps|. */
  function FirstUncompilable(re: RegexEngine, ps: seq<string>): (k: nat)
    ensures k <= |ps|
    ensures forall j :: 0 <= j < k ==> re.compiles(ps[j])
    ensures k < |ps| ==> !re.compiles(ps[k])
  {
    if ps == [] || !re.compiles(ps[0]) then 0 else 1 + FirstUncompilable(re, ps[1..])
  }

  /** What a persisted rule must satisfy, stated declaratively. */
  predicate RuleOk(re: RegexEngine, rule: Rule) {
    && NameOk(rule.name)
    && rule.stickyPatterns.Some? && |rule.stickyPatterns.value| > 0
    && (forall i :: 0 <= i < |rule.stickyPatterns.value| ==> re.compiles(rule.stickyPatterns.value[i]))
    && (forall i :: 0 <= i < |rule.matchPatterns.GetOr([])| ==> re.compiles(rule.matchPatterns.GetOr([])[i]))
  }

  /** The checks of one loop iteration of `validateRules`, in the order the page makes
      them: name, presence of a sticky pattern, sticky regexes, match regexes (an absent
      match list is an empty one). A rule gets past every check exactly when it satisfies
      the declarative condition; otherwise the error names the first check it fails. */
  function RuleFault(re: RegexEngine, rule: Rule): (r: Option<RuleError>)
    ensures r.None? <==> RuleOk(re, rule)
    ensures r.Some? && r.value.InvalidName? <==> !NameOk(rule.name)
    ensures r == Some(MissingStickyPattern(rule.name)) <==>
      NameOk(rule.name) && (rule.stickyPatterns.None? || rule.stickyPatterns.value == [])
    ensures r.Some? && r.value.InvalidStickyRegex? ==>
      && NameOk(rule.name) && rule.stickyPatterns.Some?
      && exists k :: 0 <= k < |rule.stickyPatterns.value|
           && r.value.pattern == rule.stickyPatterns.value[k]
           && !re.compiles(rule.stickyPatterns.value[k])
           && forall j :: 0 <= j < k ==> re.compiles(rule.stickyPatterns.value[j])
    ensures r.Some? && r.value.InvalidMatchRegex? ==>
      && NameOk(rule.name) && rule.stickyPatterns.Some? && rule.stickyPatterns.value != []
      && (forall j :: 0 <= j < |rule.stickyPatterns.value| ==> re.compiles(rule.stickyPatterns.value[j]))
      && rule.matchPatterns.Some?
      && exists k :: 0 <= k < |rule.matchPatterns.value|
           && r.value.pattern == rule.matchPatterns.value[k]
           && !re.compiles(rule.matchPatterns.value[k])
           && forall j :: 0 <= j < k ==> re.compiles(rule.matchPatterns.value[j])
    ensures r.Some? ==> r.value.name == rule.name
  {
    if !NameOk(rule.name) then Some(InvalidName(rule.name))
    else if rule.stickyPatterns.None? || |rule.stickyPatterns.value| == 0 then Some(MissingStickyPattern(rule.name))
    else
      var sticky := rule.stickyPatterns.value;
      var ks := FirstUncompilable(re, sticky);
      if ks < |sticky| then Some(InvalidStickyRegex(rule.name, sticky[ks]))
      else
        var matches := rule.matchPatterns.GetOr([]);
        var km := FirstUncompilable(re, matches);
        if km < |matches| then Some(InvalidMatchRegex(rule.name, matches[km]))
        else None
  }

  /** `validateRules()`: the first rule, in list order, that fails a check decides the error. */
  function ValidateRules(re: RegexEngine, rules: seq<Rule>): Validation {
    if rules == [] then Valid
    else match RuleFault(re, rules[0])
      case Some(e) => Invalid(e)
      case None => ValidateRules(re, rules[1..])
  }

  /** The position of the first rule that fails a check, or |rules|. */
  function FirstFaultyRule(re: RegexEngine, rules: seq<Rule>): (k: nat)
    ensures k <= |rules|
    ensures forall j :: 0 <= j < k ==> RuleOk(re, rules[j])
    ensures k < |rules| ==> !RuleOk(re, rules[k])
  {
    if rules == [] || RuleFault(re, rules[0]).Some? then 0 else 1 + FirstFaultyRule(re, rules[1..])
  }

  /** The rule list validates exactly when every rule satisfies the declarative condition;
      otherwise the error is that of the first rule that does not. */
  lemma {:induction false} ValidateRulesFirstFault(re: RegexEngine, rules: seq<Rule>)
    ensures ValidateRules(re, rules).Valid? <==> forall i :: 0 <= i < |rules| ==> RuleOk(re, rules[i])
    ensures var k := FirstFaultyRule(re, rules);
      k < |rules| ==> ValidateRules(re, rules) == Invalid(RuleFault(re, rules[k]).value)
  {
    if rules != [] {
      if RuleFault(re, rules[0]).None? {
        ValidateRulesFirstFault(re, rules[1..]);
        assert forall i :: 1 <= i < |rules| ==> rules[i] == rules[1..][i - 1];
      }
    }
  }

  /** The `for (const rule of rules)` loop of `validateRules()`: stop at the first rule
      that fails a check. */
  method CheckRules(re: RegexEngine, rules: seq<Rule>) returns (v: Validation)
    ensures v == ValidateRules(re, rules)
  {
    ValidateRulesFirstFault(re, rules);
    var i := 0;
    while i < |rules|
      invariant 0 <= i <= |rules|
      invariant forall l :: 0 <= l < i ==> RuleOk(re, rules[l])
      invariant i <= FirstFaultyRule(re, rules)
    {
      var fault := RuleFault(re, rules[i]);
      if fault.Some? {
        return Invalid(fault.value);
      }
      i := i + 1;
    }
    return Valid;
  }
}
