/** Pattern matching and first-match rule resolution (`matchesPatterns`, `findMatchingRule`). */
module Matching {
  import opened Wrappers
  import opened Config

  /** The host's regular-expression engine, which the model does not look inside:
      `compiles(p)` says whether `new RegExp(p)` succeeds, and `test(p, url)` is
      `new RegExp(p).test(url)` for a pattern that compiles. */
  datatype RegexEngine = RegexEngine(compiles: string -> bool, test: (string, string) -> bool)

  /** One pattern hits a URL: it compiles and its regular expression tests true. */
  predicate Hits(re: RegexEngine, pattern: string, url: string) {
    re.compiles(pattern) && re.test(pattern, url)
  }

  /** `patterns.some(...)`, where a pattern that throws on compilation yields false. */
  function AnyHit(re: RegexEngine, url: string, patterns: seq<string>): (r: bool)
    ensures r <==> exists i :: 0 <= i < |patterns| && Hits(re, patterns[i], url)
  {
    if patterns == [] then false
    else Hits(re, patterns[0], url) || AnyHit(re, url, patterns[1..])
  }

  /** `matchesPatterns(url, patterns)`: false for an absent or empty list, otherwise
      true exactly when some pattern compiles and matches. */
  function MatchesPatterns(re: RegexEngine, url: string, patterns: Option<seq<string>>): (r: bool)
    ensures patterns.None? || patterns.value == [] ==> !r
    ensures r <==> patterns.Some? && exists i :: 0 <= i < |patterns.value| && Hits(re, patterns.value[i], url)
  {
    if patterns.None? || |patterns.value| == 0 then false
    else AnyHit(re, url, patterns.value)
  }

  /** A pattern that does not compile counts as no hit and does not stop the other
      patterns from being tried: removing it changes nothing. */
  lemma UncompilableIgnored(re: RegexEngine, url: string, before: seq<string>, bad: string, after: seq<string>)
    requires !re.compiles(bad)
    ensures MatchesPatterns(re, url, Some(before + [bad] + after)) == MatchesPatterns(re, url, Some(before + after))
  {
    var full, cut := before + [bad] + after, before + after;
    if MatchesPatterns(re, url, Some(full)) {
      var i :| 0 <= i < |full| && Hits(re, full[i], url);
      var k := if i < |before| then i else i - 1;
      assert cut[k] == full[i];
    }
    if MatchesPatterns(re, url, Some(cut)) {
      var k :| 0 <= k < |cut| && Hits(re, cut[k], url);
      var i := if k < |before| then k else k + 1;
      assert full[i] == cut[k];
    }
  }

  /** Which pattern class of the rule produced the hit. */
  datatype MatchType = MatchPattern | StickyPattern

  datatype RuleMatch = RuleMatch(rule: Rule, matchType: MatchType)

  /** A rule hits a URL through either of its pattern lists. */
  predicate RuleHits(re: RegexEngine, url: string, rule: Rule) {
    MatchesPatterns(re, url, rule.matchPatterns) || MatchesPatterns(re, url, rule.stickyPatterns)
  }

  /** The class a hitting rule reports: match patterns are consulted first. */
  function MatchTypeOf(re: RegexEngine, url: string, rule: Rule): MatchType {
    if MatchesPatterns(re, url, rule.matchPatterns) then MatchPattern else StickyPattern
  }

  /** `findMatchingRule(url)`: scan the rules in order, testing a rule's match patterns
      before its sticky patterns, and stop at the first hit. */
  function FindMatchingRule(re: RegexEngine, url: string, rules: seq<Rule>): (r: Option<RuleMatch>)
    ensures r.None? <==> forall i :: 0 <= i < |rules| ==> !RuleHits(re, url, rules[i])
    ensures r.Some? ==> r.value.rule in rules && RuleHits(re, url, r.value.rule)
    ensures r.Some? ==> (r.value.matchType == MatchPattern <==> MatchesPatterns(re, url, r.value.rule.matchPatterns))
  {
    if rules == [] then None
    else if MatchesPatterns(re, url, rules[0].matchPatterns) then Some(RuleMatch(rules[0], MatchPattern))
    else if MatchesPatterns(re, url, rules[0].stickyPatterns) then Some(RuleMatch(rules[0], StickyPattern))
    else FindMatchingRule(re, url, rules[1..])
  }

  /** The position of the first rule that hits, or |rules| when none does. */
  function FirstHitIndex(re: RegexEngine, url: string, rules: seq<Rule>): (k: nat)
    ensures k <= |rules|
    ensures forall j :: 0 <= j < k ==> !RuleHits(re, url, rules[j])
    ensures k < |rules| ==> RuleHits(re, url, rules[k])
  {
    if rules == [] || RuleHits(re, url, rules[0]) then 0
    else 1 + FirstHitIndex(re, url, rules[1..])
  }

  /** First match wins: the resolved rule is the earliest rule in list order that hits,
      reported with the class its match patterns decide. */
  lemma {:induction false} FindMatchingRuleIsFirst(re: RegexEngine, url: string, rules: seq<Rule>)
    ensures var k := FirstHitIndex(re, url, rules);
      FindMatchingRule(re, url, rules) ==
        if k == |rules| then None else Some(RuleMatch(rules[k], MatchTypeOf(re, url, rules[k])))
  {
    if rules != [] && !RuleHits(re, url, rules[0]) {
      FindMatchingRuleIsFirst(re, url, rules[1..]);
    }
  }
}
