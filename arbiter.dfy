/** The navigation arbiter of the multi-rule extension (xpi.src/background.js):
    rule resolution, the sticky-tab registry `stickyTabsByRule`, sticky-tab
    discovery with stale-entry repair, the per-navigation decision and tab-close cleanup. */
module Arbiter {
  import opened Wrappers
  import opened Seqs
  import opened OrderedMap
  import opened Config
  import opened Host
  import opened Matching

  /** The container key of every tab of a rule without container separation. */
  const GlobalKey := "global"

  /** `Map<containerKey, tabId>` for one rule. */
  type ContainerMap = OMap<string, TabId>

  /** `stickyTabsByRule`: `Map<ruleId, Map<containerKey, tabId>>`. */
  type Registry = OMap<RuleId, ContainerMap>

  /** Both levels are JavaScript maps: keys are distinct. */
  predicate RegistryValid(reg: Registry) {
    DistinctKeys(reg) && forall i :: 0 <= i < |reg| ==> DistinctKeys(reg[i].1)
  }

  /** The tab registered for (rule, container), if any. */
  function Lookup(reg: Registry, ruleId: RuleId, key: string): Option<TabId> {
    match Get(reg, ruleId)
    case None => None
    case Some(cm) => Get(cm, key)
  }

  /** The container map of a rule, empty when the rule has none. */
  function Containers(reg: Registry, ruleId: RuleId): ContainerMap {
    Get(reg, ruleId).GetOr([])
  }

  // ---------------------------------------------------------------- registry steps

  /** Registry effect of `getStickyTabsForRule(ruleId)`: create an empty map for a new rule. */
  function WithRule(reg: Registry, ruleId: RuleId): Registry {
    if HasKey(reg, ruleId) then reg else Set(reg, ruleId, [])
  }

  /** `getStickyTabsForRule(ruleId).set(key, tabId)`. */
  function Assign(reg: Registry, ruleId: RuleId, key: string, tabId: TabId): Registry {
    Set(reg, ruleId, Set(Containers(reg, ruleId), key, tabId))
  }

  /** `getStickyTabsForRule(ruleId).delete(key)`. */
  function Unassign(reg: Registry, ruleId: RuleId, key: string): Registry {
    Set(reg, ruleId, Delete(Containers(reg, ruleId), key))
  }

  lemma ContainersDistinct(reg: Registry, ruleId: RuleId)
    requires RegistryValid(reg)
    ensures DistinctKeys(Containers(reg, ruleId))
  {
    if Get(reg, ruleId).Some? {
      GetIsEntry(reg, ruleId);
    }
  }

  lemma SetRuleValid(reg: Registry, ruleId: RuleId, cm: ContainerMap)
    requires RegistryValid(reg) && DistinctKeys(cm)
    ensures RegistryValid(Set(reg, ruleId, cm))
  {
    SetDistinct(reg, ruleId, cm);
    SetEntries(reg, ruleId, cm);
  }

  /** `getStickyTabsForRule` keeps the registry well formed and changes no lookup. */
  lemma {:induction false} WithRuleEffect(reg: Registry, ruleId: RuleId)
    requires RegistryValid(reg)
    ensures RegistryValid(WithRule(reg, ruleId)) && HasKey(WithRule(reg, ruleId), ruleId)
    ensures forall r, k :: Lookup(WithRule(reg, ruleId), r, k) == Lookup(reg, r, k)
  {
    if !HasKey(reg, ruleId) {
      SetRuleValid(reg, ruleId, []);
      GetSet(reg, ruleId, [], ruleId);
      forall r, k ensures Lookup(WithRule(reg, ruleId), r, k) == Lookup(reg, r, k) {
        GetSet(reg, ruleId, [], r);
      }
    }
  }

  /** After `set`, (rule, key) reads `tabId`; every other (rule, container) reads as before. */
  lemma {:induction false} AssignEffect(reg: Registry, ruleId: RuleId, key: string, tabId: TabId)
    requires RegistryValid(reg)
    ensures RegistryValid(Assign(reg, ruleId, key, tabId))
    ensures Lookup(Assign(reg, ruleId, key, tabId), ruleId, key) == Some(tabId)
    ensures forall r, k :: (r, k) != (ruleId, key) ==> Lookup(Assign(reg, ruleId, key, tabId), r, k) == Lookup(reg, r, k)
  {
    var cm := Containers(reg, ruleId);
    ContainersDistinct(reg, ruleId);
    SetDistinct(cm, key, tabId);
    SetRuleValid(reg, ruleId, Set(cm, key, tabId));
    GetSet(reg, ruleId, Set(cm, key, tabId), ruleId);
    GetSet(cm, key, tabId, key);
    forall r, k | (r, k) != (ruleId, key)
      ensures Lookup(Assign(reg, ruleId, key, tabId), r, k) == Lookup(reg, r, k)
    {
      GetSet(reg, ruleId, Set(cm, key, tabId), r);
      GetSet(cm, key, tabId, k);
    }
  }

  /** After `delete`, (rule, key) reads nothing; every other (rule, container) reads as before. */
  lemma {:induction false} UnassignEffect(reg: Registry, ruleId: RuleId, key: string)
    requires RegistryValid(reg)
    ensures RegistryValid(Unassign(reg, ruleId, key))
    ensures Lookup(Unassign(reg, ruleId, key), ruleId, key) == None
    ensures forall r, k :: (r, k) != (ruleId, key) ==> Lookup(Unassign(reg, ruleId, key), r, k) == Lookup(reg, r, k)
  {
    var cm := Containers(reg, ruleId);
    ContainersDistinct(reg, ruleId);
    DeleteDistinct(cm, key);
    SetRuleValid(reg, ruleId, Delete(cm, key));
    GetSet(reg, ruleId, Delete(cm, key), ruleId);
    GetDelete(cm, key, key);
    forall r, k | (r, k) != (ruleId, key)
      ensures Lookup(Unassign(reg, ruleId, key), r, k) == Lookup(reg, r, k)
    {
      GetSet(reg, ruleId, Delete(cm, key), r);
      GetDelete(cm, key, k);
    }
  }

  // ---------------------------------------------------------------- containers

  /** `getContainerKey(rule, cookieStoreId)`. */
  function ContainerKey(rule: Rule, cookieStoreId: string): string {
    if rule.containerSeparation then cookieStoreId else GlobalKey
  }

  /** `p` occurs in `s` at position `i`. */
  predicate OccursAt(s: string, p: string, i: nat) {
    i + |p| <= |s| && s[i..i + |p|] == p
  }

  /** `s.indexOf(p, from)`: the first occurrence at or after `from`. */
  function IndexOf(s: string, p: string, from: nat): (r: Option<nat>)
    requires from <= |s|
    ensures r.Some? ==> from <= r.value && OccursAt(s, p, r.value)
    ensures r.Some? ==> forall j :: from <= j < r.value ==> !OccursAt(s, p, j)
    ensures r.None? ==> forall j :: from <= j <= |s| ==> !OccursAt(s, p, j)
    decreases |s| - from
  {
    if OccursAt(s, p, from) then Some(from)
    else if from == |s| then None
    else IndexOf(s, p, from + 1)
  }

  /** `s.replace(p, rep)` with a string pattern: only the first occurrence is replaced. */
  function ReplaceFirst(s: string, p: string, rep: string): string {
    match IndexOf(s, p, 0)
    case None => s
    case Some(i) => s[..i] + rep + s[i + |p|..]
  }

  /** `getContainerLabel(cookieStoreId)`, the container name used in log lines. */
  function ContainerLabel(cookieStoreId: string): string {
    if cookieStoreId == GlobalKey then "global"
    else if cookieStoreId == "firefox-default" then "default"
    else ReplaceFirst(cookieStoreId, "firefox-", "")
  }

  /** The label drops a leading `firefox-`, leaves an identifier without `firefox-`
      unchanged, and otherwise drops the first `firefox-` wherever it stands. */
  lemma ContainerLabelCases(id: string)
    requires id != GlobalKey && id != "firefox-default"
    ensures OccursAt(id, "firefox-", 0) ==> ContainerLabel(id) == id[8..]
    ensures (forall j :: 0 <= j <= |id| ==> !OccursAt(id, "firefox-", j)) ==> ContainerLabel(id) == id
    ensures forall i ::
      (0 <= i <= |id| && OccursAt(id, "firefox-", i) && (forall j :: 0 <= j < i ==> !OccursAt(id, "firefox-", j)))
        ==> ContainerLabel(id) == id[..i] + id[i + 8..]
  {
    if OccursAt(id, "firefox-", 0) {
      assert IndexOf(id, "firefox-", 0) == Some(0);
    }
  }

  // ---------------------------------------------------------------- discovery

  /** The `cookieStoreId` filter of the tab query: only with container separation and a real container. */
  function QueryContainer(rule: Rule, cookieStoreId: string): Option<string> {
    if rule.containerSeparation && cookieStoreId != GlobalKey then Some(cookieStoreId) else None
  }

  /** `candidateTabs`: the queried tabs other than the excluded one whose URL hits a
      sticky pattern of the rule, in host enumeration order. */
  function Candidates(re: RegexEngine, rule: Rule, cookieStoreId: string, excludeTabId: TabId, openTabs: seq<Tab>): (c: seq<Tab>)
    ensures forall i :: 0 <= i < |c| ==>
      && c[i] in openTabs
      && c[i].id != excludeTabId
      && MatchesPatterns(re, c[i].url, rule.stickyPatterns)
      && (rule.containerSeparation && cookieStoreId != GlobalKey ==> c[i].cookieStoreId == cookieStoreId)
    ensures forall t ::
      (&& t in openTabs && t.id != excludeTabId && MatchesPatterns(re, t.url, rule.stickyPatterns)
       && (rule.containerSeparation && cookieStoreId != GlobalKey ==> t.cookieStoreId == cookieStoreId))
        ==> t in c
    ensures SubseqOf(c, openTabs)
  {
    var queried := QueryTabs(openTabs, QueryContainer(rule, cookieStoreId));
    var c := Filter(queried, (t: Tab) => t.id != excludeTabId && MatchesPatterns(re, t.url, rule.stickyPatterns));
    SubseqTrans(c, queried, openTabs);
    c
  }

  /** A tab the sticky-tab search accepts: in the queried container, not excluded, on a sticky pattern. */
  predicate Qualifies(re: RegexEngine, rule: Rule, cookieStoreId: string, excludeTabId: TabId, t: Tab) {
    && (rule.containerSeparation && cookieStoreId != GlobalKey ==> t.cookieStoreId == cookieStoreId)
    && t.id != excludeTabId
    && MatchesPatterns(re, t.url, rule.stickyPatterns)
  }

  /** The position of the first accepted tab in host enumeration order, `|openTabs|` if none is. */
  function FirstQualifying(re: RegexEngine, rule: Rule, cookieStoreId: string, excludeTabId: TabId, openTabs: seq<Tab>): (k: nat)
    ensures k <= |openTabs|
    ensures forall j :: 0 <= j < k ==> !Qualifies(re, rule, cookieStoreId, excludeTabId, openTabs[j])
    ensures k < |openTabs| ==> Qualifies(re, rule, cookieStoreId, excludeTabId, openTabs[k])
  {
    if openTabs == [] || Qualifies(re, rule, cookieStoreId, excludeTabId, openTabs[0]) then 0
    else 1 + FirstQualifying(re, rule, cookieStoreId, excludeTabId, openTabs[1..])
  }

  /** The candidates of a non-empty tab list: its first tab if accepted, then the candidates of the rest. */
  lemma CandidatesCons(re: RegexEngine, rule: Rule, cookieStoreId: string, excludeTabId: TabId, openTabs: seq<Tab>)
    requires openTabs != []
    ensures Candidates(re, rule, cookieStoreId, excludeTabId, openTabs)
         == (if Qualifies(re, rule, cookieStoreId, excludeTabId, openTabs[0]) then [openTabs[0]] else [])
            + Candidates(re, rule, cookieStoreId, excludeTabId, openTabs[1..])
  {
    var p := (t: Tab) => t.id != excludeTabId && MatchesPatterns(re, t.url, rule.stickyPatterns);
    var cont := QueryContainer(rule, cookieStoreId);
    var h := if cont.None? || openTabs[0].cookieStoreId == cont.value then [openTabs[0]] else [];
    assert QueryTabs(openTabs, cont) == h + QueryTabs(openTabs[1..], cont);
    FilterConcat(h, QueryTabs(openTabs[1..], cont), p);
  }

  /** The candidate adopted first (`candidateTabs[0]`) is the first accepted tab in host order,
      and there is none exactly when no open tab is accepted. */
  lemma {:induction false} CandidatesHead(re: RegexEngine, rule: Rule, cookieStoreId: string, excludeTabId: TabId, openTabs: seq<Tab>)
    ensures var c := Candidates(re, rule, cookieStoreId, excludeTabId, openTabs);
      var k := FirstQualifying(re, rule, cookieStoreId, excludeTabId, openTabs);
      && (c == [] <==> k == |openTabs|)
      && (c != [] ==> c[0] == openTabs[k])
  {
    if openTabs != [] {
      CandidatesCons(re, rule, cookieStoreId, excludeTabId, openTabs);
      CandidatesHead(re, rule, cookieStoreId, excludeTabId, openTabs[1..]);
    }
  }

  datatype Discovery = Discovery(found: Option<Tab>, registry: Registry)

  /** `findExistingStickyTab`: the stored sticky tab if it is still a candidate; otherwise
      delete the stale entry and adopt the first candidate, if any. */
  function Discover(reg: Registry, ruleId: RuleId, key: string, candidates: seq<Tab>): Discovery {
    var reg1 := WithRule(reg, ruleId);
    var stored := Lookup(reg1, ruleId, key);
    var existing := if stored.Some? then FindById(candidates, stored.value) else None;
    if existing.Some? then Discovery(existing, reg1)
    else
      var reg2 := if stored.Some? then Unassign(reg1, ruleId, key) else reg1;
      if |candidates| > 0 then Discovery(Some(candidates[0]), Assign(reg2, ruleId, key, candidates[0].id))
      else Discovery(None, reg2)
  }

  /** What discovery finds and what it does to the registry:
      - the tab found is a candidate, and is what the registry records afterwards;
      - a stored id that is still a candidate wins and the registry is left exactly as it was;
      - otherwise the first candidate is adopted, or the entry is gone when there is none;
      - no other (rule, container) entry changes. */
  lemma {:induction false} DiscoverEffect(reg: Registry, ruleId: RuleId, key: string, candidates: seq<Tab>)
    requires RegistryValid(reg)
    ensures var d := Discover(reg, ruleId, key, candidates);
      && RegistryValid(d.registry)
      && (d.found.Some? ==> d.found.value in candidates && Lookup(d.registry, ruleId, key) == Some(d.found.value.id))
      && (d.found.None? <==> candidates == [])
      && (forall r, k :: (r, k) != (ruleId, key) ==> Lookup(d.registry, r, k) == Lookup(reg, r, k))
    ensures var d := Discover(reg, ruleId, key, candidates);
      var stored := Lookup(reg, ruleId, key);
      if stored.Some? && FindById(candidates, stored.value).Some? then
        d.found == FindById(candidates, stored.value) && d.registry == reg
      else
        && d.found == (if candidates == [] then None else Some(candidates[0]))
        && Lookup(d.registry, ruleId, key) == (if candidates == [] then None else Some(candidates[0].id))
  {
    var d := Discover(reg, ruleId, key, candidates);
    WithRuleEffect(reg, ruleId);
    var reg1 := WithRule(reg, ruleId);
    var stored := Lookup(reg1, ruleId, key);
    assert stored.Some? ==> HasKey(reg, ruleId);
    var existing := if stored.Some? then FindById(candidates, stored.value) else None;
    if existing.None? {
      var reg2 := if stored.Some? then Unassign(reg1, ruleId, key) else reg1;
      if stored.Some? {
        UnassignEffect(reg1, ruleId, key);
      }
      assert Lookup(reg2, ruleId, key) == None;
      if |candidates| > 0 {
        AssignEffect(reg2, ruleId, key, candidates[0].id);
      }
    }
  }

  // ---------------------------------------------------------------- the decision

  datatype Outcome = Outcome(registry: Registry, commands: seq<Command>)

  /** The optional focus of the sticky tab, gated by `focusStickyTab`. */
  function FocusIf(focus: bool, tabId: TabId): seq<Command> {
    if focus then [Focus(tabId)] else []
  }

  /** `handleNavigation(details)` as a function of the registry before the event.
      `navTab` is the answer of `browser.tabs.get(details.tabId)`, `None` when it throws;
      `openTabs` are the open tabs in host enumeration order. */
  function Navigate(re: RegexEngine, reg: Registry, rules: seq<Rule>, focus: bool,
                    details: NavigationDetails, navTab: Option<Tab>, openTabs: seq<Tab>): Outcome
  {
    if details.frameId != 0 then Outcome(reg, [])
    else match FindMatchingRule(re, details.url, rules)
      case None => Outcome(reg, [])
      case Some(m) =>
        match navTab
        case None => Outcome(reg, [])
        case Some(tab) => Decide(re, reg, focus, details, m, tab, openTabs)
  }

  /** The rest of `handleNavigation` once the rule `m` is resolved and the navigating tab
      `tab` is known: discovery, then adopt, no-op, close the duplicate, or redirect. */
  function Decide(re: RegexEngine, reg: Registry, focus: bool, details: NavigationDetails,
                  m: RuleMatch, tab: Tab, openTabs: seq<Tab>): Outcome
  {
    var key := ContainerKey(m.rule, tab.cookieStoreId);
    var d := Discover(reg, m.rule.id, key, Candidates(re, m.rule, tab.cookieStoreId, details.tabId, openTabs));
    match d.found
    case None =>
      if m.matchType == StickyPattern then
        Outcome(Assign(WithRule(d.registry, m.rule.id), m.rule.id, key, details.tabId), [])
      else Outcome(d.registry, [])
    case Some(sticky) =>
      if details.tabId == sticky.id then Outcome(d.registry, [])
      else Outcome(d.registry, CloseOrRedirect(focus, details, sticky.id, sticky.url))
  }

  /** The commands for a navigation in another tab than the sticky tab `stickyId`: close
      the duplicate when the URLs agree, otherwise load the URL into the sticky tab and close
      the navigating tab; then focus the sticky tab when the setting asks for it. */
  function CloseOrRedirect(focus: bool, details: NavigationDetails, stickyId: TabId, stickyUrl: string): seq<Command> {
    (if details.url == stickyUrl then [Remove(details.tabId)]
     else [SetUrl(stickyId, details.url), Remove(details.tabId)]) + FocusIf(focus, stickyId)
  }

  /** Such commands address only the navigating tab and the sticky tab, close the navigating
      tab exactly once, and end by focusing the sticky tab when the setting asks for it. */
  lemma CloseOrRedirectTargets(focus: bool, details: NavigationDetails, stickyId: TabId, stickyUrl: string)
    requires details.tabId != stickyId
    ensures var cs := CloseOrRedirect(focus, details, stickyId, stickyUrl);
      && (forall i :: 0 <= i < |cs| ==> cs[i].tabId == details.tabId || cs[i].tabId == stickyId)
      && (forall i :: 0 <= i < |cs| ==> (cs[i] == Remove(details.tabId) <==> i == |cs| - 1 - |FocusIf(focus, stickyId)|))
      && (focus <==> cs[|cs| - 1] == Focus(stickyId))
  {
  }

  /** Sub-frame navigations, URLs no rule hits, and tabs the host no longer knows leave
      everything as it was. */
  lemma NavigateIgnored(re: RegexEngine, reg: Registry, rules: seq<Rule>, focus: bool,
                        details: NavigationDetails, navTab: Option<Tab>, openTabs: seq<Tab>)
    ensures details.frameId != 0 || FindMatchingRule(re, details.url, rules).None? || navTab.None? ==>
      Navigate(re, reg, rules, focus, details, navTab, openTabs) == Outcome(reg, [])
  {
  }

  /** Every decision keeps the registry well formed and changes no (rule, container) slot
      other than the one of the resolved rule and the navigating tab's container. */
  lemma {:induction false} DecideFrame(re: RegexEngine, reg: Registry, focus: bool, details: NavigationDetails,
                                       m: RuleMatch, tab: Tab, openTabs: seq<Tab>)
    requires RegistryValid(reg)
    ensures var o := Decide(re, reg, focus, details, m, tab, openTabs);
      && RegistryValid(o.registry)
      && forall r, k :: (r, k) != (m.rule.id, ContainerKey(m.rule, tab.cookieStoreId)) ==> Lookup(o.registry, r, k) == Lookup(reg, r, k)
  {
    var key := ContainerKey(m.rule, tab.cookieStoreId);
    var c := Candidates(re, m.rule, tab.cookieStoreId, details.tabId, openTabs);
    DiscoverEffect(reg, m.rule.id, key, c);
    var d := Discover(reg, m.rule.id, key, c);
    if d.found.None? && m.matchType == StickyPattern {
      WithRuleEffect(d.registry, m.rule.id);
      AssignEffect(WithRule(d.registry, m.rule.id), m.rule.id, key, details.tabId);
    }
  }

  /** The branch of `handleNavigation` for "this IS the sticky tab" is never taken: the
      navigating tab is excluded from the candidates, so the tab found is always another one. */
  lemma NavigatingTabNeverSticky(reg: Registry, re: RegexEngine, rule: Rule, key: string, cookieStoreId: string,
                                 tabId: TabId, openTabs: seq<Tab>)
    requires RegistryValid(reg)
    ensures var d := Discover(reg, rule.id, key, Candidates(re, rule, cookieStoreId, tabId, openTabs));
      d.found.Some? ==> d.found.value.id != tabId
  {
    DiscoverEffect(reg, rule.id, key, Candidates(re, rule, cookieStoreId, tabId, openTabs));
  }

  /** With no sticky tab to be found, a sticky-pattern match adopts the navigating tab and a
      match-pattern match leaves the slot empty; no command is issued either way. */
  lemma {:induction false} DecideNoSticky(re: RegexEngine, reg: Registry, focus: bool, details: NavigationDetails,
                                          m: RuleMatch, tab: Tab, openTabs: seq<Tab>)
    requires RegistryValid(reg)
    requires Candidates(re, m.rule, tab.cookieStoreId, details.tabId, openTabs) == []
    ensures var o := Decide(re, reg, focus, details, m, tab, openTabs);
      && o.commands == []
      && Lookup(o.registry, m.rule.id, ContainerKey(m.rule, tab.cookieStoreId)) ==
           (if m.matchType == StickyPattern then Some(details.tabId) else None)
  {
    var key := ContainerKey(m.rule, tab.cookieStoreId);
    DiscoverEffect(reg, m.rule.id, key, []);
    var d := Discover(reg, m.rule.id, key, []);
    if m.matchType == StickyPattern {
      WithRuleEffect(d.registry, m.rule.id);
      AssignEffect(WithRule(d.registry, m.rule.id), m.rule.id, key, details.tabId);
    }
  }

  /** When a sticky tab is found it is an open tab other than the navigating one, so the
      branch for "this IS the sticky tab" is never taken; it is the stored tab when that is
      still a candidate (and then the registry is untouched), else the first candidate; the
      registry records it, and the commands close the duplicate or redirect, then focus. */
  lemma {:induction false} DecideWithSticky(re: RegexEngine, reg: Registry, focus: bool, details: NavigationDetails,
                                            m: RuleMatch, tab: Tab, openTabs: seq<Tab>)
    requires RegistryValid(reg)
    requires Candidates(re, m.rule, tab.cookieStoreId, details.tabId, openTabs) != []
    ensures var key := ContainerKey(m.rule, tab.cookieStoreId);
      var c := Candidates(re, m.rule, tab.cookieStoreId, details.tabId, openTabs);
      var o := Decide(re, reg, focus, details, m, tab, openTabs);
      var stored := Lookup(reg, m.rule.id, key);
      var keep := stored.Some? && FindById(c, stored.value).Some?;
      var sticky := if keep then FindById(c, stored.value).value else c[0];
      && sticky in openTabs
      && sticky.id != details.tabId
      && Lookup(o.registry, m.rule.id, key) == Some(sticky.id)
      && (keep ==> o.registry == reg)
      && o.commands ==
           (if details.url == sticky.url then [Remove(details.tabId)]
            else [SetUrl(sticky.id, details.url), Remove(details.tabId)]) + FocusIf(focus, sticky.id)
  {
    var key := ContainerKey(m.rule, tab.cookieStoreId);
    var c := Candidates(re, m.rule, tab.cookieStoreId, details.tabId, openTabs);
    DiscoverEffect(reg, m.rule.id, key, c);
  }

  /** Every command of a decision addresses the navigating tab or one of the candidates. */
  lemma CommandTargets(re: RegexEngine, reg: Registry, focus: bool, details: NavigationDetails,
                       m: RuleMatch, tab: Tab, openTabs: seq<Tab>)
    requires RegistryValid(reg)
    ensures var o := Decide(re, reg, focus, details, m, tab, openTabs);
      var c := Candidates(re, m.rule, tab.cookieStoreId, details.tabId, openTabs);
      forall i :: 0 <= i < |o.commands| ==> o.commands[i].tabId == details.tabId || exists t :: t in c && t.id == o.commands[i].tabId
  {
    var key := ContainerKey(m.rule, tab.cookieStoreId);
    var c := Candidates(re, m.rule, tab.cookieStoreId, details.tabId, openTabs);
    DiscoverEffect(reg, m.rule.id, key, c);
    var d := Discover(reg, m.rule.id, key, c);
    if d.found.Some? && d.found.value.id != details.tabId {
      CloseOrRedirectTargets(focus, details, d.found.value.id, d.found.value.url);
    }
  }

  /** With container separation in a real container, a navigation only ever redirects into,
      focuses or adopts a tab of its own container, and only its own registry slot changes. */
  lemma ContainerIsolation(re: RegexEngine, reg: Registry, focus: bool, details: NavigationDetails,
                           m: RuleMatch, tab: Tab, openTabs: seq<Tab>)
    requires RegistryValid(reg)
    requires m.rule.containerSeparation && tab.cookieStoreId != GlobalKey
    ensures var o := Decide(re, reg, focus, details, m, tab, openTabs);
      && (forall i :: 0 <= i < |o.commands| ==>
            o.commands[i].tabId == details.tabId ||
            exists t :: t in openTabs && t.id == o.commands[i].tabId && t.cookieStoreId == tab.cookieStoreId)
      && (forall r, k :: (r, k) != (m.rule.id, tab.cookieStoreId) ==> Lookup(o.registry, r, k) == Lookup(reg, r, k))
  {
    DecideFrame(re, reg, focus, details, m, tab, openTabs);
    CommandTargets(re, reg, focus, details, m, tab, openTabs);
  }

  /** A navigation inside the registered sticky tab is exempt only while no other tab is a
      candidate: with a second matching tab open, the registered tab counts as stale, the
      other tab is adopted and redirected, and the tab the user navigated in is closed. */
  lemma SelfNavigationWithSecondCandidate()
    ensures var re := RegexEngine((p: string) => true, (p: string, u: string) => true);
      var rule := Rule(1, true, "cases", false, Some(["^https://a\\.test/case/"]), Some([]), "");
      var reg: Registry := [(1, [(GlobalKey, 10)])];
      var details := NavigationDetails(10, "https://a.test/case/2", 0);
      var tab10 := Tab(10, "https://a.test/case/1", "firefox-default");
      var tab20 := Tab(20, "https://a.test/case/3", "firefox-default");
      var o := Decide(re, reg, true, details, RuleMatch(rule, StickyPattern), tab10, [tab10, tab20]);
      && Lookup(reg, 1, GlobalKey) == Some(10)
      && o.commands == [SetUrl(20, "https://a.test/case/2"), Remove(10), Focus(20)]
      && Lookup(o.registry, 1, GlobalKey) == Some(20)
  {
    var re := RegexEngine((p: string) => true, (p: string, u: string) => true);
    var rule := Rule(1, true, "cases", false, Some(["^https://a\\.test/case/"]), Some([]), "");
    var reg: Registry := [(1, [(GlobalKey, 10)])];
    var details := NavigationDetails(10, "https://a.test/case/2", 0);
    var tab10 := Tab(10, "https://a.test/case/1", "firefox-default");
    var tab20 := Tab(20, "https://a.test/case/3", "firefox-default");
    assert MatchesPatterns(re, tab20.url, rule.stickyPatterns) by {
      assert Hits(re, rule.stickyPatterns.value[0], tab20.url);
    }
    assert Candidates(re, rule, "firefox-default", 10, [tab10, tab20]) == [tab20] by {
      assert QueryTabs([tab10, tab20], QueryContainer(rule, "firefox-default")) == [tab10, tab20];
      assert [tab10, tab20][1..] == [tab20];
    }
    assert RegistryValid(reg);
    assert Lookup(reg, 1, GlobalKey) == Some(10);
    DecideWithSticky(re, reg, true, details, RuleMatch(rule, StickyPattern), tab10, [tab10, tab20]);
  }

  /** The resolved rule of that navigation is the sticky-pattern match of the one rule. */
  lemma SelfNavigationResolves()
    ensures var re := RegexEngine((p: string) => true, (p: string, u: string) => true);
      var rule := Rule(1, true, "cases", false, Some(["^https://a\\.test/case/"]), Some([]), "");
      FindMatchingRule(re, "https://a.test/case/2", [rule]) == Some(RuleMatch(rule, StickyPattern))
  {
    var re := RegexEngine((p: string) => true, (p: string, u: string) => true);
    var rule := Rule(1, true, "cases", false, Some(["^https://a\\.test/case/"]), Some([]), "");
    assert Hits(re, rule.stickyPatterns.value[0], "https://a.test/case/2");
    assert !MatchesPatterns(re, "https://a.test/case/2", rule.matchPatterns);
  }

  // ---------------------------------------------------------------- tab removal

  /** The position of the first container entry holding `tabId`, or |cm|. */
  function FirstSlotIn(cm: ContainerMap, tabId: TabId): (j: nat)
    ensures j <= |cm|
    ensures forall l :: 0 <= l < j ==> cm[l].1 != tabId
    ensures j < |cm| ==> cm[j].1 == tabId
  {
    if cm == [] || cm[0].1 == tabId then 0 else 1 + FirstSlotIn(cm[1..], tabId)
  }

  /** The position of the first rule whose container map holds `tabId`, or |reg|. */
  function FirstRuleHolding(reg: Registry, tabId: TabId): (i: nat)
    ensures i <= |reg|
    ensures forall l :: 0 <= l < i ==> FirstSlotIn(reg[l].1, tabId) == |reg[l].1|
    ensures i < |reg| ==> FirstSlotIn(reg[i].1, tabId) < |reg[i].1|
  {
    if reg == [] || FirstSlotIn(reg[0].1, tabId) < |reg[0].1| then 0
    else 1 + FirstRuleHolding(reg[1..], tabId)
  }

  /** The (rule, container) of the first entry, in insertion order at both levels, whose tab is `tabId`. */
  function FirstHolder(reg: Registry, tabId: TabId): (h: Option<(RuleId, string)>)
    ensures h.None? <==> forall i, j :: 0 <= i < |reg| && 0 <= j < |reg[i].1| ==> reg[i].1[j].1 != tabId
  {
    var i := FirstRuleHolding(reg, tabId);
    if i == |reg| then None
    else Some((reg[i].0, reg[i].1[FirstSlotIn(reg[i].1, tabId)].0))
  }

  /** `handleTabRemoved(tabId)`: delete the first entry holding the tab, if any. */
  function DeleteByTab(reg: Registry, tabId: TabId): Registry {
    match FirstHolder(reg, tabId)
    case None => reg
    case Some((r, k)) => Unassign(reg, r, k)
  }

  /** Tab removal deletes at most one entry: when no entry holds the tab nothing changes;
      otherwise exactly the first holder's slot goes and every other slot reads as before. */
  lemma DeleteByTabEffect(reg: Registry, tabId: TabId)
    requires RegistryValid(reg)
    ensures RegistryValid(DeleteByTab(reg, tabId))
    ensures FirstHolder(reg, tabId).None? ==>
      DeleteByTab(reg, tabId) == reg && forall r, k :: Lookup(reg, r, k) != Some(tabId)
    ensures var h := FirstHolder(reg, tabId);
      h.Some? ==>
        && Lookup(reg, h.value.0, h.value.1) == Some(tabId)
        && Lookup(DeleteByTab(reg, tabId), h.value.0, h.value.1) == None
        && forall r, k :: (r, k) != h.value ==> Lookup(DeleteByTab(reg, tabId), r, k) == Lookup(reg, r, k)
  {
    var h := FirstHolder(reg, tabId);
    if h.None? {
      forall r, k ensures Lookup(reg, r, k) != Some(tabId) {
        if Get(reg, r).Some? {
          GetIsEntry(reg, r);
          var i :| 0 <= i < |reg| && reg[i] == (r, Get(reg, r).value);
          if Get(reg[i].1, k).Some? {
            GetIsEntry(reg[i].1, k);
          }
        }
      }
    } else {
      var i := FirstRuleHolding(reg, tabId);
      var j := FirstSlotIn(reg[i].1, tabId);
      GetAt(reg, i);
      GetAt(reg[i].1, j);
      UnassignEffect(reg, h.value.0, h.value.1);
    }
  }

  // ---------------------------------------------------------------- the background page

  /** The background page's state: the enabled rules, the settings and the registry. */
  class StickyArbiter {
    const re: RegexEngine
    var rules: seq<Rule>
    var settings: Settings
    var stickyTabsByRule: Registry

    ghost predicate Valid()
      reads this
    {
      RegistryValid(stickyTabsByRule) && forall i :: 0 <= i < |rules| ==> rules[i].enabled
    }

    constructor(re: RegexEngine)
      ensures Valid()
      ensures this.re == re && rules == [] && settings == DefaultSettings && stickyTabsByRule == []
    {
      this.re := re;
      rules := [];
      settings := DefaultSettings;
      stickyTabsByRule := [];
    }

    /** `loadSettings()` given what storage returned. */
    method LoadSettings(stored: Option<Settings>)
      modifies this`settings
      ensures settings == stored.GetOr(DefaultSettings)
    {
      settings := stored.GetOr(DefaultSettings);
    }

    /** `loadRules()` given the stored list (`[]` when absent or when the read fails):
        only enabled rules are kept, in stored order. */
    method LoadRules(stored: seq<Rule>)
      requires Valid()
      modifies this`rules
      ensures Valid()
      ensures rules == EnabledRules(stored)
    {
      rules := EnabledRules(stored);
    }

    /** `getStickyTabsForRule(ruleId)`: the rule's container map, created empty when missing. */
    method GetStickyTabsForRule(ruleId: RuleId) returns (containers: ContainerMap)
      requires Valid()
      modifies this`stickyTabsByRule
      ensures Valid()
      ensures stickyTabsByRule == WithRule(old(stickyTabsByRule), ruleId)
      ensures containers == Containers(stickyTabsByRule, ruleId)
    {
      WithRuleEffect(stickyTabsByRule, ruleId);
      if !HasKey(stickyTabsByRule, ruleId) {
        stickyTabsByRule := Set(stickyTabsByRule, ruleId, []);
      }
      containers := Get(stickyTabsByRule, ruleId).GetOr([]);
    }

    /** `findExistingStickyTab(rule, containerKey, cookieStoreId, excludeTabId)` over the
        open tabs `openTabs`. */
    method FindExistingStickyTab(rule: Rule, containerKey: string, cookieStoreId: string,
                                 excludeTabId: TabId, openTabs: seq<Tab>) returns (found: Option<Tab>)
      requires Valid()
      modifies this`stickyTabsByRule
      ensures Valid()
      ensures Discovery(found, stickyTabsByRule) ==
        Discover(old(stickyTabsByRule), rule.id, containerKey, Candidates(re, rule, cookieStoreId, excludeTabId, openTabs))
    {
      DiscoverEffect(stickyTabsByRule, rule.id, containerKey, Candidates(re, rule, cookieStoreId, excludeTabId, openTabs));
      var stickyTabs := GetStickyTabsForRule(rule.id);
      var candidateTabs := Candidates(re, rule, cookieStoreId, excludeTabId, openTabs);
      var storedStickyId := Get(stickyTabs, containerKey);
      if storedStickyId.Some? {
        var existingSticky := FindById(candidateTabs, storedStickyId.value);
        if existingSticky.Some? {
          return existingSticky;
        }
        UnassignEffect(stickyTabsByRule, rule.id, containerKey);
        stickyTabsByRule := Unassign(stickyTabsByRule, rule.id, containerKey);
      }
      if |candidateTabs| > 0 {
        var tab := candidateTabs[0];
        AssignEffect(stickyTabsByRule, rule.id, containerKey, tab.id);
        stickyTabsByRule := Assign(stickyTabsByRule, rule.id, containerKey, tab.id);
        return Some(tab);
      }
      return None;
    }

    /** `handleNavigation(details)`: the commands issued, in order, and the new registry.
        `navTab` is the answer of `browser.tabs.get(details.tabId)`, `None` when it throws. */
    method HandleNavigation(details: NavigationDetails, navTab: Option<Tab>, openTabs: seq<Tab>)
      returns (commands: seq<Command>)
      requires Valid()
      modifies this`stickyTabsByRule
      ensures Valid()
      ensures Outcome(stickyTabsByRule, commands) ==
        Navigate(re, old(stickyTabsByRule), rules, settings.focusStickyTab, details, navTab, openTabs)
    {
      commands := [];
      if details.frameId != 0 {
        return;
      }
      var url := details.url;
      var tabId := details.tabId;
      var match_ := FindMatchingRule(re, url, rules);
      if match_.None? {
        return;
      }
      var rule, matchType := match_.value.rule, match_.value.matchType;
      if navTab.None? {
        return;
      }
      var cookieStoreId := navTab.value.cookieStoreId;
      var containerKey := ContainerKey(rule, cookieStoreId);
      var stickyTab := FindExistingStickyTab(rule, containerKey, cookieStoreId, tabId, openTabs);
      if stickyTab.None? {
        if matchType == StickyPattern {
          var _ := GetStickyTabsForRule(rule.id);
          AssignEffect(stickyTabsByRule, rule.id, containerKey, tabId);
          stickyTabsByRule := Assign(stickyTabsByRule, rule.id, containerKey, tabId);
        }
        return;
      }
      var sticky := stickyTab.value;
      if tabId == sticky.id {
        return;
      }
      if url == sticky.url {
        commands := [Remove(tabId)];
        if settings.focusStickyTab {
          commands := commands + [Focus(sticky.id)];
        }
        return;
      }
      commands := [SetUrl(sticky.id, url), Remove(tabId)];
      if settings.focusStickyTab {
        commands := commands + [Focus(sticky.id)];
      }
    }

    /** `handleTabRemoved(tabId)`: scan the rules, and each rule's containers, in insertion
        order and delete the first entry whose tab is `tabId`. */
    method HandleTabRemoved(tabId: TabId)
      requires Valid()
      modifies this`stickyTabsByRule
      ensures Valid()
      ensures stickyTabsByRule == DeleteByTab(old(stickyTabsByRule), tabId)
    {
      DeleteByTabEffect(stickyTabsByRule, tabId);
      var i := 0;
      while i < |stickyTabsByRule|
        invariant 0 <= i <= |stickyTabsByRule|
        invariant stickyTabsByRule == old(stickyTabsByRule)
        invariant forall l :: 0 <= l < i ==> FirstSlotIn(stickyTabsByRule[l].1, tabId) == |stickyTabsByRule[l].1|
      {
        var (ruleId, containerMap) := stickyTabsByRule[i];
        var j := 0;
        while j < |containerMap|
          invariant 0 <= j <= |containerMap|
          invariant forall l :: 0 <= l < j ==> containerMap[l].1 != tabId
        {
          var (containerKey, stickyId) := containerMap[j];
          if stickyId == tabId {
            assert FirstSlotIn(containerMap, tabId) == j;
            assert FirstRuleHolding(stickyTabsByRule, tabId) == i;
            stickyTabsByRule := Unassign(stickyTabsByRule, ruleId, containerKey);
            return;
          }
          j := j + 1;
        }
        i := i + 1;
      }
    }
  }
}
