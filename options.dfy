/** The multi-rule options page (xpi.src/options.js): the edited rule list, the settings,
    the id counter and the dirty-tracking state, with the operations that change them. */
module Options {
  import opened Wrappers
  import opened Config
  import opened Matching
  import opened Validation
  import opened RuleEditing

  /** The fields of an imported backup file that the import reads; `None` for a missing
      or ill-typed `rules` array or a missing `settings` object. */
  datatype Backup = Backup(rules: Option<seq<Rule>>, settings: Option<Settings>)

  /** The rule `createRuleWithData(data)` appends: enabled, container-separated, no match
      patterns, the suggested sticky pattern when there is one, and empty text fields by default. */
  function NewRuleFrom(id: RuleId, data: Option<RuleData>): Rule {
    var d := data.GetOr(RuleData("", "", ""));
    Rule(id, true, d.name, true, Some(if d.stickyPattern != "" then [d.stickyPattern] else []), Some([]), d.description)
  }

  /** The page's state as module-level variables hold it (DOM references aside). */
  class OptionsPage {
    var rules: seq<Rule>
    var settings: Settings
    var hasUnsavedChanges: bool
    var ruleIdCounter: RuleId
    var modifiedRuleIds: set<RuleId>

    /** The next id is fresh for the current list. */
    ghost predicate IdsFresh()
      reads this
    {
      IdsBelow(rules, ruleIdCounter)
    }

    constructor()
      ensures rules == [] && settings == Settings(false, true, true)
      ensures !hasUnsavedChanges && ruleIdCounter == 0 && modifiedRuleIds == {}
      ensures IdsFresh()
    {
      rules := [];
      settings := Settings(false, true, true);
      hasUnsavedChanges := false;
      ruleIdCounter := 0;
      modifiedRuleIds := {};
    }

    /** `loadRules()` given what the two storage areas hold: the settings come from local
        storage (defaults when absent), the rules from the area they select. */
    method LoadRules(storedSettings: Option<Settings>, localRules: Option<seq<Rule>>, syncRules: Option<seq<Rule>>)
      modifies this`settings, this`rules, this`ruleIdCounter, this`hasUnsavedChanges
      ensures settings == storedSettings.GetOr(DefaultSettings)
      ensures rules == (if settings.useSync then syncRules else localRules).GetOr([])
      ensures ruleIdCounter == NextRuleId(rules) && !hasUnsavedChanges
      ensures IdsFresh()
    {
      settings := storedSettings.GetOr(DefaultSettings);
      rules := (if settings.useSync then syncRules else localRules).GetOr([]);
      ruleIdCounter := if |rules| > 0 then MaxId(rules) + 1 else 0;
      hasUnsavedChanges := false;
    }

    /** `loadRules()` when a storage read throws: the `catch` empties the rule list.
        `settingsRead` is the settings read when it succeeded before the rules read
        failed, in which case the settings were already replaced; the id counter and the
        unsaved flag keep their values. */
    method LoadRulesFailed(settingsRead: Option<Option<Settings>>)
      modifies this`settings, this`rules
      ensures settings == (if settingsRead.Some? then settingsRead.value.GetOr(DefaultSettings) else old(settings))
      ensures rules == []
      ensures IdsFresh()
    {
      if settingsRead.Some? {
        settings := settingsRead.value.GetOr(DefaultSettings);
      }
      rules := [];
    }

    /** `markUnsaved()`. */
    method MarkUnsaved()
      modifies this`hasUnsavedChanges
      ensures hasUnsavedChanges
    {
      hasUnsavedChanges := true;
    }

    /** `markRuleModified(ruleId)`: remember the id and flag unsaved changes. */
    method MarkRuleModified(ruleId: RuleId)
      modifies this`modifiedRuleIds, this`hasUnsavedChanges
      ensures modifiedRuleIds == old(modifiedRuleIds) + {ruleId}
      ensures hasUnsavedChanges
    {
      modifiedRuleIds := modifiedRuleIds + {ruleId};
      MarkUnsaved();
    }

    /** `markSaved()`: nothing is pending any more. */
    method MarkSaved()
      modifies this`modifiedRuleIds, this`hasUnsavedChanges
      ensures !hasUnsavedChanges && modifiedRuleIds == {}
    {
      hasUnsavedChanges := false;
      modifiedRuleIds := {};
    }

    /** `createRuleWithData(data)`: append one rule carrying the counter's id, advance the
        counter, and mark the new id modified. */
    method CreateRuleWithData(data: Option<RuleData>)
      modifies this`rules, this`ruleIdCounter, this`modifiedRuleIds, this`hasUnsavedChanges
      ensures rules == old(rules) + [NewRuleFrom(old(ruleIdCounter), data)]
      ensures ruleIdCounter == old(ruleIdCounter) + 1
      ensures modifiedRuleIds == old(modifiedRuleIds) + {old(ruleIdCounter)} && hasUnsavedChanges
      ensures old(IdsFresh()) ==> IdsFresh()
    {
      var newRule := NewRuleFrom(ruleIdCounter, data);
      ruleIdCounter := ruleIdCounter + 1;
      if IdsBelow(rules, newRule.id) {
        AppendWithCounterFresh(rules, newRule.id, newRule);
      }
      rules := rules + [newRule];
      MarkRuleModified(newRule.id);
    }

    /** `addRule()`: a rule without pre-filled data. */
    method AddRule()
      modifies this`rules, this`ruleIdCounter, this`modifiedRuleIds, this`hasUnsavedChanges
      ensures rules == old(rules) + [NewRuleFrom(old(ruleIdCounter), None)]
      ensures ruleIdCounter == old(ruleIdCounter) + 1
      ensures modifiedRuleIds == old(modifiedRuleIds) + {old(ruleIdCounter)} && hasUnsavedChanges
      ensures old(IdsFresh()) ==> IdsFresh()
    {
      CreateRuleWithData(None);
    }

    /** `deleteRule(ruleId)`: drop every rule with that id and flag unsaved changes. */
    method DeleteRule(ruleId: RuleId)
      modifies this`rules, this`hasUnsavedChanges
      ensures rules == WithoutRule(old(rules), ruleId) && hasUnsavedChanges
      ensures old(IdsFresh()) ==> IdsFresh()
    {
      rules := WithoutRule(rules, ruleId);
      MarkUnsaved();
    }

    /** `updatePatternsFromDOM(card, rule)` for the rule at `index`, given the values of the
        card's sticky and match pattern inputs in document order. */
    method UpdatePatternsFromInputs(index: nat, stickyValues: seq<string>, matchValues: seq<string>)
      requires index < |rules|
      modifies this`rules
      ensures rules == old(rules)[index := old(rules)[index].(stickyPatterns := Some(NonBlank(stickyValues)),
                                                             matchPatterns := Some(NonBlank(matchValues)))]
    {
      var rule := rules[index];
      rules := rules[index := rule.(stickyPatterns := Some(NonBlank(stickyValues)), matchPatterns := Some(NonBlank(matchValues)))];
    }

    /** `saveRules()`: validate, write to the selected area (`written` is whether the write
        succeeded) and mark everything saved; nothing changes when either fails. */
    method SaveRules(re: RegexEngine, written: bool) returns (ok: bool, validation: Validation)
      modifies this`modifiedRuleIds, this`hasUnsavedChanges
      ensures validation == ValidateRules(re, rules)
      ensures ok <==> validation.Valid? && written
      ensures ok ==> !hasUnsavedChanges && modifiedRuleIds == {}
      ensures !ok ==> hasUnsavedChanges == old(hasUnsavedChanges) && modifiedRuleIds == old(modifiedRuleIds)
    {
      validation := CheckRules(re, rules);
      if validation.Invalid? || !written {
        return false, validation;
      }
      MarkSaved();
      return true, validation;
    }

    /** `handleSyncToggle(newUseSync)` given the rules stored in the current area, those in
        the newly selected area, and the user's answer to the merge question. */
    method HandleSyncToggle(newUseSync: bool, currentRules: seq<Rule>, newStorageRules: seq<Rule>, merge: bool)
      modifies this`settings, this`rules, this`ruleIdCounter
      ensures newUseSync == old(settings.useSync) ==>
        settings == old(settings) && rules == old(rules) && ruleIdCounter == old(ruleIdCounter)
      ensures newUseSync != old(settings.useSync) ==> settings == old(settings).(useSync := newUseSync)
      ensures newUseSync != old(settings.useSync) && newStorageRules != [] && currentRules != [] && merge ==>
        rules == MergeRules(newStorageRules, currentRules) && ruleIdCounter == NextRuleId(rules)
      ensures newUseSync != old(settings.useSync) && newStorageRules != [] && currentRules != [] && !merge ==>
        rules == currentRules && ruleIdCounter == old(ruleIdCounter)
      ensures newUseSync != old(settings.useSync) && newStorageRules != [] && currentRules == [] ==>
        rules == newStorageRules && ruleIdCounter == NextRuleId(rules)
      ensures newUseSync != old(settings.useSync) && newStorageRules == [] ==>
        rules == old(rules) && ruleIdCounter == old(ruleIdCounter)
    {
      var oldUseSync := settings.useSync;
      if newUseSync == oldUseSync {
        return;
      }
      settings := settings.(useSync := newUseSync);
      if |newStorageRules| > 0 && |currentRules| > 0 {
        if merge {
          rules := MergeRules(newStorageRules, currentRules);
          ruleIdCounter := if |rules| > 0 then MaxId(rules) + 1 else 0;
        } else {
          rules := currentRules;
        }
      } else if |newStorageRules| > 0 && |currentRules| == 0 {
        rules := newStorageRules;
        ruleIdCounter := if |rules| > 0 then MaxId(rules) + 1 else 0;
      }
    }

    /** The import handler given the parsed backup: with a rules array, replace the rules,
        recompute the counter and take the backup's settings except `useSync`; without one,
        report failure and change nothing. The dirty-tracking state is left alone. */
    method ImportBackup(data: Backup) returns (ok: bool)
      modifies this`rules, this`ruleIdCounter, this`settings
      ensures ok <==> data.rules.Some?
      ensures !ok ==> rules == old(rules) && ruleIdCounter == old(ruleIdCounter) && settings == old(settings)
      ensures ok ==> rules == data.rules.value && ruleIdCounter == NextRuleId(rules) && IdsFresh()
      ensures ok ==> settings == (if data.settings.Some? then data.settings.value.(useSync := old(settings).useSync) else old(settings))
      ensures settings.useSync == old(settings).useSync
    {
      if data.rules.None? {
        return false;
      }
      rules := data.rules.value;
      ruleIdCounter := if |rules| > 0 then MaxId(rules) + 1 else 0;
      if data.settings.Some? {
        var currentUseSync := settings.useSync;
        settings := data.settings.value.(useSync := currentUseSync);
      }
      return true;
    }
  }

  /** A rule created from a suggestion has a fresh id and exactly the suggested name,
      description and sticky pattern; it passes validation exactly when the name is
      well formed, a pattern was suggested and it compiles. */
  lemma NewRuleFromSpec(re: RegexEngine, rules: seq<Rule>, counter: RuleId, data: RuleData)
    requires IdsBelow(rules, counter)
    ensures var r := NewRuleFrom(counter, Some(data));
      && (forall i :: 0 <= i < |rules| ==> rules[i].id != r.id)
      && r.name == data.name && r.description == data.description
      && (RuleOk(re, r) <==> NameOk(data.name) && data.stickyPattern != "" && re.compiles(data.stickyPattern))
  {
    var r := NewRuleFrom(counter, Some(data));
    if data.stickyPattern != "" {
      assert r.stickyPatterns.value == [data.stickyPattern];
      assert r.stickyPatterns.value[0] == data.stickyPattern;
    }
  }
}
