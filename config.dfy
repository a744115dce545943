/** The stored configuration: rules and settings, as the options pages write them. */
module Config {
  import opened Wrappers
  import opened Seqs

  type RuleId = int

  /** One sticky-tab rule. An absent pattern list (`undefined` in storage) is `None`. */
  datatype Rule = Rule(
    id: RuleId,
    enabled: bool,
    name: string,
    containerSeparation: bool,
    stickyPatterns: Option<seq<string>>,
    matchPatterns: Option<seq<string>>,
    description: string)

  datatype Settings = Settings(debugLogging: bool, focusStickyTab: bool, useSync: bool)

  /** The settings used when none are stored. */
  const DefaultSettings := Settings(false, true, false)

  /** Pre-filled data for a new rule, as the popup suggests it. An empty string is a missing field. */
  datatype RuleData = RuleData(name: string, description: string, stickyPattern: string)

  /** The rules a background page or popup acts on: the enabled ones, in stored order. */
  function EnabledRules(stored: seq<Rule>): (r: seq<Rule>)
    ensures forall i :: 0 <= i < |r| ==> r[i].enabled && r[i] in stored
    ensures forall x :: x in stored && x.enabled ==> x in r
    ensures SubseqOf(r, stored)
  {
    Filter(stored, (x: Rule) => x.enabled)
  }

  /** Filtering distributes over concatenation, so the enabled rules keep their stored order. */
  lemma EnabledRulesConcat(a: seq<Rule>, b: seq<Rule>)
    ensures EnabledRules(a + b) == EnabledRules(a) + EnabledRules(b)
  {
    FilterConcat(a, b, (x: Rule) => x.enabled);
  }
}
