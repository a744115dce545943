# Sticky TabSZ — a Dafny model of the sticky-tab policy

Sticky TabSZ is a browser extension that keeps one canonical ("sticky") tab per URL rule.
When a navigation would open another tab whose URL matches a rule, the extension redirects
it into the sticky tab instead. Each rule can keep one sticky tab per browser container.
This project models the logic of the extension's two generations:

- **The multi-rule background page** (`xpi.src/background.js`), module `Arbiter`:
  - first-match rule resolution (`Matching`);
  - container keys and labels;
  - the registry `stickyTabsByRule`, a map from rule id to a map from container key to tab id;
  - sticky-tab discovery with stale-entry repair;
  - the per-navigation decision: adopt, let through, close the duplicate, or redirect;
  - tab-close cleanup.

  Class `StickyArbiter` holds the page's state: the enabled rules, the settings and the
  registry. Its methods are proved equal to the functions `Discover`, `Navigate` and
  `DeleteByTab`, and the lemmas beside those functions state what the page promises.
- **The single-rule background page** (`background.js`), module `LegacyArbiter`. It has one
  fixed sticky pattern, which is an anchored literal prefix and is modelled exactly as a
  prefix test. It remembers one tab id, held by class `SingleTabArbiter`.
- **Both options pages** (`xpi.src/options.js`, `options.js`), modules `Options` and `LegacyOptions`.
  They use the shared modules `Validation` and `RuleEditing`, which cover:
  - rule validation, with its first-failure order;
  - the rule-name character class;
  - the id counter;
  - appending and deleting rules;
  - blank-pattern filtering;
  - the local/sync merge;
  - the dirty-tracking flags;
  - the settings merge on import.
- **Both popups** (`xpi.src/popup.js`, `popup.js`), module `Popup`:
  - the lookup of the first enabled rule that hits the active tab's URL;
  - the rule suggestion `generateRuleData`: regex escaping, pattern construction and name cleanup.

The shared modules are:

- `Config`: rules and settings.
- `Host`: tabs, navigation events and the commands the core issues to the browser.
- `Matching`: the regex engine as two opaque functions, `compiles` and `test`.
- `OrderedMap`: a JavaScript `Map` as an insertion-ordered association list. `set` on a
  present key keeps its position; on a new key it appends.
- `Seqs`: `filter`, and `SubseqOf`, the ordered selection its results are.
- `Wrappers`: `Option`.

`matchesPatterns` appears three times and `validateRules` twice in the sources. Each is
defined once here. The model follows `xpi.src/background.js:71-81` and `xpi.src/options.js:308-332`,
which behave the same as `xpi.src/popup.js:143-152`, `popup.js:67-76` and
`options.js:57-82`.

Where the code and its documented behaviour differ, the model follows the code:

- **Navigation inside the sticky tab.** `handleNavigation` has a branch that lets a
  navigation inside the sticky tab through (`xpi.src/background.js:212-215`). That branch is
  never taken, because discovery excludes the navigating tab from the candidates
  (`xpi.src/background.js:142-143`). `Arbiter.NavigatingTabNeverSticky` proves this.
  - With another matching tab open, the navigating sticky tab therefore counts as stale: the
    other tab is adopted, receives the URL, and the tab the user was working in is closed.
    `Arbiter.SelfNavigationWithSecondCandidate` shows this on a concrete registry.
  - With no other candidate, the tab is re-adopted (sticky-pattern match), or its entry is
    deleted (match-pattern match).

Other behaviour of the code that the model keeps as written:

- **The remembered tab in the single-rule version.** When `findExistingStickyTab` finds a
  different tab from the remembered one, the remembered `stickyTabId` is not updated
  (`background.js:57-61`). `LegacyArbiter.LegacyNavigateSpec` states this.
- **Ids after a merge.** The merge on a sync toggle does not renumber ids, so ids from the
  two storage areas may collide.
- **The id counter after Cancel.** The Cancel branch keeps the old counter
  (`xpi.src/options.js:555-558`). `HandleSyncToggle` therefore promises nothing about
  id freshness on that branch.
- **Where the popups read rules.** Both popups always read `rules` from local storage,
  whatever `useSync` says (`xpi.src/popup.js:19`).

## Model

| member | source | states |
|---|---|---|
| Matching.AnyHit | xpi.src/background.js:73-80 | `some` over the patterns: true iff some pattern both compiles and tests true |
| Matching.MatchesPatterns | xpi.src/background.js:71-81 | false for an absent or empty list; otherwise true iff some pattern compiles and matches the URL |
| Matching.UncompilableIgnored | popup.js:69-75 | a pattern that fails to compile counts as no hit and does not stop later patterns: removing it from any position leaves the answer unchanged |
| Matching.FindMatchingRule | xpi.src/background.js:87-99 | none iff no rule hits through either list; a result is a listed rule that hits, with class `MatchPattern` iff its match patterns hit |
| Matching.FirstHitIndex | xpi.src/background.js:88-97 | the position of the first rule that hits, every earlier rule missing |
| Matching.FindMatchingRuleIsFirst | xpi.src/background.js:87-99 | first match wins: the result is the earliest hitting rule in list order, reported with its match-before-sticky class, and none when no rule hits |
| Matching.MatchTypeOf | xpi.src/background.js:90-95 | `match` when the match patterns hit, `sticky` otherwise; its use is stated by `FindMatchingRule` |
| Seqs.Filter | xpi.src/options.js:550 | `Array.prototype.filter`: keeps exactly the elements that satisfy the predicate, in their original order |
| Config.EnabledRules | xpi.src/background.js:59 | the rules acted on are exactly the enabled stored rules, in stored order |
| Config.EnabledRulesConcat | popup.js:16 | filtering distributes over concatenation, so the enabled rules keep their stored order |
| Host.QueryTabs | xpi.src/background.js:134-139 | the query answers open tabs; with a container filter, exactly the open tabs of that container; without one, all open tabs; either way in host enumeration order |
| Host.FindById | xpi.src/background.js:149 | `find` by id: the tab found is the first listed tab with the id; nothing is found iff no tab has it |
| OrderedMap.GetSet | xpi.src/background.js:17 | after `set(k, v)` a map reads `v` at `k` and as before at every other key |
| OrderedMap.GetDelete | xpi.src/background.js:17 | after `delete(k)` a map reads nothing at `k` and as before at every other key |
| OrderedMap.SetShape | xpi.src/background.js:17 | `set` on a new key appends it at the end; on a present key it keeps every key at its position |
| OrderedMap.SetDistinct | xpi.src/background.js:17 | `set` keeps keys distinct |
| OrderedMap.DeleteShape | xpi.src/background.js:17 | `delete` of an absent key changes nothing, and every remaining entry is an entry of the map |
| OrderedMap.DeleteInOrder | xpi.src/background.js:154 | `delete` drops exactly the entries with that key and keeps the remaining entries in insertion order |
| OrderedMap.DeleteDistinct | xpi.src/background.js:17 | `delete` keeps keys distinct |
| Arbiter.WithRuleEffect | xpi.src/background.js:120-125 | `getStickyTabsForRule` keeps the registry well formed, makes the rule present, and changes no (rule, container) lookup |
| Arbiter.AssignEffect | xpi.src/background.js:160 | setting a slot keeps the registry well formed; that slot reads the new tab and every other (rule, container) reads as before |
| Arbiter.UnassignEffect | xpi.src/background.js:154 | deleting a slot keeps the registry well formed; that slot reads nothing and every other (rule, container) reads as before |
| Arbiter.IndexOf | xpi.src/background.js:114 | the first occurrence of the needle at or after the start position, or none when there is no occurrence |
| Arbiter.ContainerKey | xpi.src/background.js:104-106 | the container itself with container separation, the shared key `global` without it |
| Arbiter.ContainerLabel | xpi.src/background.js:111-115 | `global`, `default`, or the id with its first `firefox-` removed; its contract is `ContainerLabelCases` |
| Arbiter.ContainerLabelCases | xpi.src/background.js:111-115 | for containers other than `global` and `firefox-default`: a leading `firefox-` is dropped, an id without `firefox-` is unchanged, and otherwise only the first `firefox-` is removed |
| Arbiter.Candidates | xpi.src/background.js:134-144 | candidates are exactly the open tabs that are not the excluded tab, hit a sticky pattern, and (with container separation in a real container) belong to that container, kept in host enumeration order |
| Arbiter.FirstQualifying | xpi.src/background.js:142-144 | the position of the first open tab the search accepts, every earlier one rejected; `|openTabs|` when none is accepted |
| Arbiter.CandidatesCons | xpi.src/background.js:139-144 | the query and the filter work tab by tab: the candidates of a list are its first tab when accepted, followed by the candidates of the rest |
| Arbiter.CandidatesHead | xpi.src/background.js:142-159 | there is no candidate iff no open tab is accepted; otherwise `candidateTabs[0]` is the first accepted tab in host enumeration order |
| Arbiter.Discover | xpi.src/background.js:130-165 | the stored tab when it is still a candidate; else the stale slot deleted and the first candidate adopted; its contract is `DiscoverEffect` |
| Arbiter.DiscoverEffect | xpi.src/background.js:146-164 | a stored id that is still a candidate is returned and the registry is unchanged; otherwise the slot is cleared and the first candidate adopted; the tab found is a candidate and is recorded; none iff there are no candidates; no other slot changes |
| Arbiter.Navigate | xpi.src/background.js:170-234 | ignores sub-frames, unmatched URLs and unknown tabs, and otherwise decides on the resolved rule; its contracts are `NavigateIgnored`, `DecideFrame` and `CommandTargets` |
| Arbiter.Decide | xpi.src/background.js:192-233 | discovery in the navigating tab's container, then adopt, let through, close or redirect; its contracts are `DecideNoSticky` and `DecideWithSticky` |
| Arbiter.CloseOrRedirect | xpi.src/background.js:217-233 | close the duplicate, or send the sticky tab the URL and close the new tab, then focus when the setting is on; its contract is `CloseOrRedirectTargets` |
| Arbiter.CloseOrRedirectTargets | xpi.src/background.js:217-233 | the close-or-redirect commands address only the navigating and the sticky tab, remove the navigating tab exactly once before the optional focus, and end with a focus iff the setting is on |
| Arbiter.NavigateIgnored | xpi.src/background.js:171-190 | a sub-frame event, a URL no rule hits, or a tab the host cannot get leaves the registry unchanged and issues no command |
| Arbiter.DecideFrame | xpi.src/background.js:192-233 | every decision keeps the registry well formed and changes no slot other than (resolved rule, navigating tab's container key) |
| Arbiter.NavigatingTabNeverSticky | xpi.src/background.js:212-215 | the tab discovery finds is never the navigating tab, so the "this IS the sticky tab" branch is never taken |
| Arbiter.DecideNoSticky | xpi.src/background.js:199-210 | with no candidate, no command is issued; a sticky-pattern match registers the navigating tab; a match-pattern match leaves the slot empty |
| Arbiter.DecideWithSticky | xpi.src/background.js:212-233 | with a candidate, the sticky tab is the stored one when still a candidate (registry then untouched), else the first candidate; it is open and not the navigating tab; the slot records it; the commands are `Remove` (equal URL) or `SetUrl` then `Remove` (different URL), then `Focus` iff the setting is on |
| Arbiter.CommandTargets | xpi.src/background.js:217-233 | every command addresses the navigating tab or a candidate |
| Arbiter.ContainerIsolation | xpi.src/background.js:133-144 | with container separation in a real container, every command addresses the navigating tab or an open tab of the same container, and only that container's slot of the rule changes |
| Arbiter.SelfNavigationWithSecondCandidate | xpi.src/background.js:142-164 | a navigation inside the registered sticky tab, with a second matching tab open, adopts the second tab, redirects it and closes the tab navigated in |
| Arbiter.SelfNavigationResolves | xpi.src/background.js:87-99 | that navigation resolves to the rule's sticky-pattern match |
| Arbiter.FirstSlotIn | xpi.src/background.js:241-242 | the position of the first container entry holding the tab, every earlier entry holding another |
| Arbiter.FirstRuleHolding | xpi.src/background.js:240-242 | the position of the first rule whose container map holds the tab, every earlier rule holding it nowhere |
| Arbiter.FirstHolder | xpi.src/background.js:239-251 | there is no holder iff no entry at either level holds the tab |
| Arbiter.DeleteByTab | xpi.src/background.js:239-251 | deletes the first slot that holds the tab; its contract is `DeleteByTabEffect` |
| Arbiter.DeleteByTabEffect | xpi.src/background.js:239-251 | tab removal deletes at most one entry: nothing changes when no entry holds the tab; otherwise exactly the first holder's slot, in insertion order at both levels, is cleared and every other slot reads as before |
| Arbiter.StickyArbiter.constructor | xpi.src/background.js:5-17 | no rules, default settings, empty registry |
| Arbiter.StickyArbiter.LoadSettings | xpi.src/background.js:38-50 | the stored settings, or the defaults when none are stored |
| Arbiter.StickyArbiter.LoadRules | xpi.src/background.js:55-66 | the enabled stored rules in stored order; the state stays valid |
| Arbiter.StickyArbiter.GetStickyTabsForRule | xpi.src/background.js:120-125 | creates an empty container map for a missing rule and returns the rule's map |
| Arbiter.StickyArbiter.FindExistingStickyTab | xpi.src/background.js:130-165 | the tab found and the new registry are those of `Discover` over the candidates |
| Arbiter.StickyArbiter.HandleNavigation | xpi.src/background.js:170-234 | the commands and the new registry are those of `Navigate` on the old registry |
| Arbiter.StickyArbiter.HandleTabRemoved | xpi.src/background.js:239-251 | the nested scan leaves the registry equal to `DeleteByTab` of the old one |
| LegacyArbiter.MatchesStickyPattern | background.js:4-14 | the anchored literal `STICKY_PATTERN` matches exactly the URLs that start with its prefix |
| LegacyArbiter.FirstMatching | background.js:31-35 | the first queried tab at a sticky URL; none iff no queried tab is at one |
| LegacyArbiter.StickyChoice | background.js:19-38 | the remembered tab when still queried at a sticky URL, else the first queried tab at one; its contract is `StickyChoiceSpec` |
| LegacyArbiter.StickyChoiceSpec | background.js:19-38 | the tab chosen is queried and at a sticky URL; none iff no queried tab is at one; the remembered tab wins when it is queried and at a sticky URL |
| LegacyArbiter.LegacyNavigateSpec | background.js:43-81 | for a main-frame sticky URL: the remembered id changes only by adopting the navigating tab, which happens iff no queried tab is at a sticky URL; a navigation inside the chosen sticky tab is let through; otherwise the commands are exactly remove the new tab and focus the chosen one, preceded by sending the chosen tab the URL unless it is already there; every command addresses the navigating tab or a queried sticky tab |
| LegacyArbiter.LegacyNavigateIgnored | background.js:45-48 | a sub-frame navigation or a URL off the sticky pattern issues no command and keeps the remembered tab |
| LegacyArbiter.LegacyNavigate | background.js:43-81 | adopt, let through, close the duplicate or redirect; its contracts are `LegacyNavigateSpec` and `LegacyNavigateIgnored` |
| LegacyArbiter.SingleTabArbiter.constructor | background.js:7 | no remembered tab |
| LegacyArbiter.SingleTabArbiter.FindExistingStickyTab | background.js:19-38 | the loop returns `StickyChoice` and leaves the remembered tab alone |
| LegacyArbiter.SingleTabArbiter.HandleNavigation | background.js:43-81 | the commands and the new remembered tab are those of `LegacyNavigate` |
| LegacyArbiter.SingleTabArbiter.HandleTabRemoved | background.js:90-95 | the remembered tab is forgotten iff it is the tab closed; otherwise nothing changes |
| Validation.FirstUncompilable | xpi.src/options.js:316-329 | the position of the first pattern that does not compile, every earlier one compiling |
| Validation.RuleFault | xpi.src/options.js:310-329 | no fault iff the rule is valid (well-formed name, a sticky pattern, every sticky and match pattern compiles); the fault is the first failed check in the order name, presence, sticky regexes, match regexes, naming the first bad pattern |
| Validation.FirstFaultyRule | xpi.src/options.js:309 | the position of the first invalid rule, every earlier rule valid |
| Validation.ValidateRules | xpi.src/options.js:308-332 | the first rule's fault in list order, or valid; its contract is `ValidateRulesFirstFault` |
| Validation.ValidateRulesFirstFault | xpi.src/options.js:308-332 | valid iff every rule is valid; otherwise the error is that of the first invalid rule |
| Validation.CheckRules | options.js:57-82 | the loop with early return computes `ValidateRules` |
| RuleEditing.TrimStart | xpi.src/options.js:456 | removes exactly the leading whitespace: the rest is a suffix that starts with a non-whitespace character |
| RuleEditing.TrimEnd | xpi.src/options.js:456 | removes exactly the trailing whitespace: the rest is a prefix that ends with a non-whitespace character |
| RuleEditing.Trim | xpi.src/options.js:456 | the result is a slice of the value with only whitespace before and after it, and starts and ends with a non-whitespace character |
| RuleEditing.TrimEmptyIffBlank | options.js:219 | a value trims to the empty string iff it is whitespace only |
| RuleEditing.NonBlank | xpi.src/options.js:453-461 | keeps exactly the values whose trim is not empty, in input order |
| RuleEditing.NonBlankConcat | options.js:216-224 | the filtering keeps input order |
| RuleEditing.NonBlankKeepsFilled | xpi.src/options.js:454-456 | values none of which is blank are kept exactly; filtering twice is filtering once |
| RuleEditing.MaxId | xpi.src/options.js:277 | an upper bound of the ids that some rule attains |
| RuleEditing.NextRuleId | options.js:29 | above every id; 0 for no rules; otherwise one more than an existing id |
| RuleEditing.AppendWithCounterFresh | options.js:229-238 | appending with the counter's id and incrementing keeps every id below the counter, and the new id differs from every existing one |
| RuleEditing.WithoutRule | xpi.src/options.js:468 | keeps exactly the rules with another id, in their order |
| RuleEditing.WithoutRuleOrder | options.js:250 | deletion keeps the remaining rules in order; deleting an absent id changes nothing |
| RuleEditing.MergeRules | xpi.src/options.js:549-551 | the new-storage rules first, unchanged; then exactly the current rules whose name the new storage does not use, in their current order |
| RuleEditing.MergeAddsNoDuplicateName | xpi.src/options.js:548-551 | no added rule shares a name with a new-storage rule |
| Options.NewRuleFrom | xpi.src/options.js:193-202 | the rule `createRuleWithData` builds; its contract is `NewRuleFromSpec` |
| Options.NewRuleFromSpec | xpi.src/options.js:193-202 | a rule created from data has a fresh id and the data's name and description, and it is valid iff the name is well formed and a compiling sticky pattern was given |
| Options.OptionsPage.constructor | xpi.src/options.js:5-14 | the initial page state |
| Options.OptionsPage.LoadRules | xpi.src/options.js:263-286 | the settings from local storage or the defaults; the rules of the selected area; the counter is `NextRuleId`; no unsaved changes |
| Options.OptionsPage.LoadRulesFailed | xpi.src/options.js:263-285 | a failed read empties the rules; settings read before the failure are taken over; the counter and the unsaved flag are kept |
| Options.OptionsPage.MarkUnsaved | xpi.src/options.js:50-53 | sets unsaved |
| Options.OptionsPage.MarkRuleModified | xpi.src/options.js:55-62 | adds the id to the modified set and sets unsaved |
| Options.OptionsPage.MarkSaved | xpi.src/options.js:64-73 | clears both the flag and the modified set |
| Options.OptionsPage.CreateRuleWithData | xpi.src/options.js:193-228 | appends exactly one rule with the old counter as id and the documented defaults; increments the counter; marks that id modified; keeps ids fresh |
| Options.OptionsPage.AddRule | xpi.src/options.js:463-465 | the same with no data |
| Options.OptionsPage.DeleteRule | xpi.src/options.js:467-471 | removes exactly the rules with the id, in order, and sets unsaved |
| Options.OptionsPage.UpdatePatternsFromInputs | xpi.src/options.js:453-461 | replaces only that rule's two pattern lists by the non-blank inputs in order |
| Options.OptionsPage.SaveRules | xpi.src/options.js:288-306 | succeeds iff validation passes and the write succeeds; a success marks everything saved; a failure changes nothing |
| Options.OptionsPage.HandleSyncToggle | xpi.src/options.js:517-597 | a no-op for an unchanged setting; otherwise `useSync` flips and the rules are: merge (with recounted ids), current (Cancel), new storage (when current is empty), or unchanged |
| Options.OptionsPage.ImportBackup | xpi.src/options.js:633-669 | with a rules array, it replaces the rules, recounts the ids and takes the backup's settings except `useSync`; without one, nothing changes |
| LegacyOptions.BlankRule | options.js:228-236 | the rule `addRule` appends: enabled, unnamed, separated, with no patterns; its contract is `BlankRuleInvalid` |
| LegacyOptions.BlankRuleInvalid | options.js:227-236 | a freshly added rule fails validation on its empty name |
| LegacyOptions.LegacyOptionsPage.constructor | options.js:5-6 | no rules, counter 0 |
| LegacyOptions.LegacyOptionsPage.LoadRules | options.js:25-34 | the stored rules or none; the counter is `NextRuleId` |
| LegacyOptions.LegacyOptionsPage.LoadRulesFailed | options.js:25-33 | a failed read empties the rules and keeps the counter |
| LegacyOptions.LegacyOptionsPage.AddRule | options.js:227-246 | appends one blank rule with the old counter as id, increments the counter and keeps ids fresh |
| LegacyOptions.LegacyOptionsPage.DeleteRule | options.js:249-252 | removes exactly the rules with the id, in order |
| LegacyOptions.LegacyOptionsPage.UpdatePatternsFromInputs | options.js:216-224 | replaces only that rule's two pattern lists by the non-blank inputs in order |
| LegacyOptions.LegacyOptionsPage.SaveRules | options.js:37-54 | succeeds iff validation passes and the write succeeds |
| Popup.FirstHittingRule | xpi.src/popup.js:23-35 | the loop with `break` selects the rule `FindMatchingRule` resolves |
| Popup.LookupRule | popup.js:10-31 | the rule of the first match among the enabled locally stored rules for the active tab's URL (empty when no tab) |
| Popup.FirstEnabledHitIndex | popup.js:16-31 | the position of the first enabled stored rule that hits |
| Popup.LookupIsFirstEnabled | xpi.src/popup.js:20-35 | over the stored list, the lookup selects the first enabled rule that hits and nothing when none does, so a disabled rule is never selected |
| Popup.Escape | xpi.src/popup.js:118 | escaping never shortens |
| Popup.EscapeConcat | xpi.src/popup.js:118-120 | escaping works character by character |
| Popup.UnescapeEscape | xpi.src/popup.js:118-120 | removing the inserted backslashes restores the original string |
| Popup.EscapeIsLiteral | xpi.src/popup.js:127 | an escaped string has no unescaped metacharacter |
| Popup.DotsToDashes | xpi.src/popup.js:133 | every `.` becomes `-`, every other character is kept, and the length is the same |
| Popup.RuleNameSpec | xpi.src/popup.js:131-134 | a suggested name is empty or passes `RULE_NAME_PATTERN`; every character is in the class; a well-formed hostname is kept unchanged |
| Popup.RuleNameIdempotent | xpi.src/popup.js:131-134 | cleaning up a cleaned name changes nothing |
| Popup.StickyPatternForSpec | xpi.src/popup.js:113-123 | the pattern is `^` then a literal whose unescaped text is protocol + `//` + hostname + pathname |
| Popup.FallbackName | xpi.src/popup.js:126 | the fallback hostname `new-rule` survives the cleanup |
| Popup.StickyPatternFor | xpi.src/popup.js:113-123 | `^`, the escaped protocol, `//`, the escaped hostname and pathname; its contract is `StickyPatternForSpec` |
| Popup.RuleName | xpi.src/popup.js:131-134 | drop a leading `www.`, dots to dashes, drop characters outside the name class; its contracts are `RuleNameSpec` and `RuleNameIdempotent` |
| Popup.GenerateRuleData | xpi.src/popup.js:108-141 | name, description and sticky pattern of a suggested rule; its contract is `GenerateRuleDataSpec` |
| Popup.GenerateRuleDataSpec | xpi.src/popup.js:108-141 | the description is the title; the name is empty or well formed; after a parse, the name comes from the hostname and the pattern is as above; after a failed parse, the name is `new-rule` and the pattern is the whole URL as a literal |

## Left out

- Rendering, templates, focus and scrolling, tab/hash switching, status timers, `beforeunload` and the keyboard shortcuts: user interface with no state of the policy.
- Storage reads and writes (`getStorage`, `loadRules`, `loadSettings`, `saveSettings`, `storage.set` after an import or a sync toggle): what storage holds is a parameter of the operations, and whether a write succeeds is a boolean.
- The `catch` path of the background page's failed rule read: it is the empty list passed to `LoadRules`. The options pages' failed reads are `LoadRulesFailed`.
- The revert of `useSync` when a sync-toggle migration throws, and the export of a backup: they are storage and file I/O.
- `handleStorageChange`: it only re-runs the loads; the loaded values are the parameters of `LoadSettings` and `LoadRules`.
- The card handlers for enabled, name, container separation and description: one-field DOM assignments. `savedRulesSnapshot` is also out: it is a JSON string that nothing reads back.
- `handleUrlParams`, `focusRule`, `openOptionsPage`, `setupPopOutButton`, the settings button and `browser.tabs.create`: navigation between pages.
- The regex engine: `new RegExp(p)` and `.test(url)` are the opaque functions `compiles` and `test`. The exception is the single-rule version's literal prefix, which is modelled exactly.
- URL parsing (`new URL`): its protocol, hostname and pathname, or its failure, are an input of `GenerateRuleData`.
- `atob`, `btoa`, `JSON.parse` and `JSON.stringify`: a backup is given as its parsed fields.
- The `confirm` dialog: its answer is the boolean `merge`.
- Concurrency between `await` points and between handlers: each handler is one atomic step over the state and the host answers it receives.
- Host failures of `tabs.remove`/`tabs.update`: the commands are returned in order, not executed.
- Logging and `getContainerLabel`'s use in log lines: `ContainerLabel` is modelled, and nothing reads it.
- The `hostEquals` listener filter and the `url` filter of the single-rule version's tab query: the tabs passed in are taken to be what the query returned.
- Arbiter.StickyArbiter.FindExistingStickyTab: always takes an `excludeTabId`, because the source's one call passes one; the `null` default is not modelled.
- Config.Rule: a rule's name and description are strings. A missing name (`undefined`) is modelled as the empty string, which validation treats the same way.
- Options.OptionsPage.ImportBackup: takes the backup's settings as a full `Settings` record. A partial settings object, whose missing fields would stay missing after the spread, is not modelled.
- Options.NewRuleFrom: reads a missing or empty field of the suggested data as the empty string, as the `|| ''` and truthiness tests do; other falsy JavaScript values are not modelled.
- Popup.Escape: its own contract is only a length bound. `UnescapeEscape`, `EscapeConcat` and `EscapeIsLiteral` state what escaping means.
