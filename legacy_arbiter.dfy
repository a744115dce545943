/** The single-rule arbiter of the first version (background.js): one hard-coded sticky
    pattern for Salesforce Case pages and one remembered sticky tab. */
module LegacyArbiter {
  import opened Wrappers
  import opened Host

  /** The fixed literal prefix `STICKY_PATTERN` anchors at the start of the URL. */
  const StickyPrefix := "https://vastdata.lightning.force.com/lightning/r/Case/"

  /** `matchesStickyPattern(url)`: the regular expression is an anchored literal, so it
      matches exactly the URLs that start with the prefix. */
  predicate MatchesStickyPattern(url: string) {
    |StickyPrefix| <= |url| && url[..|StickyPrefix|] == StickyPrefix
  }

  /** `tabs[k]` is the first tab at a sticky URL. */
  predicate IsFirstMatch(tabs: seq<Tab>, k: int) {
    0 <= k < |tabs| && MatchesStickyPattern(tabs[k].url) && forall l :: 0 <= l < k ==> !MatchesStickyPattern(tabs[l].url)
  }

  /** The first tab, in query order, whose URL matches the sticky pattern. */
  function FirstMatching(tabs: seq<Tab>): (r: Option<Tab>)
    ensures r.None? <==> forall i :: 0 <= i < |tabs| ==> !MatchesStickyPattern(tabs[i].url)
    ensures r.Some? ==> exists k :: IsFirstMatch(tabs, k) && tabs[k] == r.value
  {
    if tabs == [] then None
    else if MatchesStickyPattern(tabs[0].url) then Some(tabs[0])
    else
      var r := FirstMatching(tabs[1..]);
      assert r.Some? ==> exists k :: IsFirstMatch(tabs, k) && tabs[k] == r.value by {
        if r.Some? {
          var k :| IsFirstMatch(tabs[1..], k) && tabs[1..][k] == r.value;
          assert tabs[k + 1] == r.value;
          assert forall l :: 0 <= l < k + 1 ==> !MatchesStickyPattern(tabs[l].url) by {
            forall l | 0 <= l < k + 1 ensures !MatchesStickyPattern(tabs[l].url) {
              if l > 0 { assert tabs[l] == tabs[1..][l - 1]; }
            }
          }
          assert IsFirstMatch(tabs, k + 1);
        }
      }
      assert r.None? ==> forall i :: 0 <= i < |tabs| ==> !MatchesStickyPattern(tabs[i].url) by {
        if r.None? {
          forall i | 0 <= i < |tabs| ensures !MatchesStickyPattern(tabs[i].url) {
            if i > 0 { assert tabs[i] == tabs[1..][i - 1]; }
          }
        }
      }
      r
  }

  /** `findExistingStickyTab()` over the tabs the domain query returned: the remembered
      tab when it is still open at a sticky URL, otherwise the first tab at a sticky URL. */
  function StickyChoice(tabs: seq<Tab>, stored: Option<TabId>): Option<Tab> {
    var existing := if stored.Some? then FindById(tabs, stored.value) else None;
    if existing.Some? && MatchesStickyPattern(existing.value.url) then existing
    else FirstMatching(tabs)
  }

  /** The tab chosen is one of the queried tabs at a sticky URL; there is none exactly
      when no queried tab is at a sticky URL; the remembered tab has priority. */
  lemma StickyChoiceSpec(tabs: seq<Tab>, stored: Option<TabId>)
    ensures var r := StickyChoice(tabs, stored);
      && (r.Some? ==> r.value in tabs && MatchesStickyPattern(r.value.url))
      && (r.None? <==> forall i :: 0 <= i < |tabs| ==> !MatchesStickyPattern(tabs[i].url))
      && ((stored.Some? && FindById(tabs, stored.value).Some? && MatchesStickyPattern(FindById(tabs, stored.value).value.url))
            ==> r.value.id == stored.value)
  {
    var r := StickyChoice(tabs, stored);
    var existing := if stored.Some? then FindById(tabs, stored.value) else None;
    if existing.Some? && MatchesStickyPattern(existing.value.url) {
      assert existing.value in tabs;
      var k :| 0 <= k < |tabs| && tabs[k] == existing.value;
      assert !forall i :: 0 <= i < |tabs| ==> !MatchesStickyPattern(tabs[i].url);
    } else if r.Some? {
      var k :| IsFirstMatch(tabs, k) && tabs[k] == r.value;
    }
  }

  datatype LegacyOutcome = LegacyOutcome(stickyTabId: Option<TabId>, commands: seq<Command>)

  /** `handleNavigation(details)` as a function of the remembered sticky tab and the
      tabs the domain query returns. Focusing is unconditional in this version. */
  function LegacyNavigate(stored: Option<TabId>, details: NavigationDetails, tabs: seq<Tab>): LegacyOutcome {
    if details.frameId != 0 || !MatchesStickyPattern(details.url) then LegacyOutcome(stored, [])
    else match StickyChoice(tabs, stored)
      case None => LegacyOutcome(Some(details.tabId), [])
      case Some(sticky) =>
        if details.tabId == sticky.id then LegacyOutcome(stored, [])
        else if details.url == sticky.url then LegacyOutcome(stored, [Remove(details.tabId), Focus(sticky.id)])
        else LegacyOutcome(stored, [SetUrl(sticky.id, details.url), Remove(details.tabId), Focus(sticky.id)])
  }

  /** The decision of the first version:
      - the navigating tab is adopted when no queried tab is at a sticky URL, and that is
        the only way the remembered id changes: when a sticky tab is found the id stays as
        it was, even when the tab found is not the remembered one;
      - a navigation inside the remembered sticky tab, still at a sticky URL, is let through,
        and so is one inside whichever tab is chosen as sticky;
      - otherwise the navigating tab is closed and the chosen sticky tab focused, after that
        tab is first sent to the new URL unless it is already there;
      - every command addresses the navigating tab or a queried tab at a sticky URL, and a
        redirect closes the navigating tab and focuses the sticky one. */
  lemma {:induction false} LegacyNavigateSpec(stored: Option<TabId>, details: NavigationDetails, tabs: seq<Tab>)
    requires details.frameId == 0 && MatchesStickyPattern(details.url)
    ensures var o := LegacyNavigate(stored, details, tabs);
      && (o.stickyTabId != stored ==> o.stickyTabId == Some(details.tabId) && o.commands == [])
      && ((forall i :: 0 <= i < |tabs| ==> !MatchesStickyPattern(tabs[i].url)) ==> o == LegacyOutcome(Some(details.tabId), []))
      && ((exists i :: 0 <= i < |tabs| && MatchesStickyPattern(tabs[i].url)) ==> o.stickyTabId == stored)
      && ((stored == Some(details.tabId) && FindById(tabs, details.tabId).Some?
           && MatchesStickyPattern(FindById(tabs, details.tabId).value.url)) ==> o == LegacyOutcome(stored, []))
      && (forall i :: 0 <= i < |o.commands| ==>
            (o.commands[i].tabId == details.tabId ||
             exists t :: t in tabs && t.id == o.commands[i].tabId && MatchesStickyPattern(t.url)))
      && (o.commands != [] ==> o.commands[|o.commands| - 2] == Remove(details.tabId) && o.commands[|o.commands| - 1].Focus?)
    ensures var o := LegacyNavigate(stored, details, tabs);
      var c := StickyChoice(tabs, stored);
      && (c.Some? && c.value.id == details.tabId ==> o == LegacyOutcome(stored, []))
      && (c.Some? && c.value.id != details.tabId ==>
            && o.stickyTabId == stored
            && o.commands == (if details.url == c.value.url then [] else [SetUrl(c.value.id, details.url)])
                             + [Remove(details.tabId), Focus(c.value.id)])
  {
    StickyChoiceSpec(tabs, stored);
  }

  /** Sub-frame navigations and URLs off the sticky pattern are ignored: no command, no new sticky tab. */
  lemma LegacyNavigateIgnored(stored: Option<TabId>, details: NavigationDetails, tabs: seq<Tab>)
    requires details.frameId != 0 || !MatchesStickyPattern(details.url)
    ensures LegacyNavigate(stored, details, tabs) == LegacyOutcome(stored, [])
  {
  }

  /** The first version's background page: the remembered sticky tab. */
  class SingleTabArbiter {
    var stickyTabId: Option<TabId>

    constructor()
      ensures stickyTabId == None
    {
      stickyTabId := None;
    }

    /** `findExistingStickyTab()` over the tabs the domain query returned. */
    method FindExistingStickyTab(tabs: seq<Tab>) returns (found: Option<Tab>)
      ensures found == StickyChoice(tabs, stickyTabId)
    {
      if stickyTabId.Some? {
        var existingSticky := FindById(tabs, stickyTabId.value);
        if existingSticky.Some? && MatchesStickyPattern(existingSticky.value.url) {
          return existingSticky;
        }
      }
      var i := 0;
      while i < |tabs|
        invariant 0 <= i <= |tabs|
        invariant forall l :: 0 <= l < i ==> !MatchesStickyPattern(tabs[l].url)
      {
        if MatchesStickyPattern(tabs[i].url) {
          return Some(tabs[i]);
        }
        i := i + 1;
      }
      return None;
    }

    /** `handleNavigation(details)`: the commands issued, in order, and the new remembered tab. */
    method HandleNavigation(details: NavigationDetails, tabs: seq<Tab>) returns (commands: seq<Command>)
      modifies this
      ensures LegacyOutcome(stickyTabId, commands) == LegacyNavigate(old(stickyTabId), details, tabs)
    {
      commands := [];
      if details.frameId != 0 {
        return;
      }
      if !MatchesStickyPattern(details.url) {
        return;
      }
      var newTabId := details.tabId;
      var newUrl := details.url;
      var stickyTab := FindExistingStickyTab(tabs);
      if stickyTab.None? {
        stickyTabId := Some(newTabId);
        return;
      }
      var sticky := stickyTab.value;
      if newTabId == sticky.id {
        return;
      }
      if newUrl == sticky.url {
        commands := [Remove(newTabId), Focus(sticky.id)];
        return;
      }
      commands := [SetUrl(sticky.id, newUrl), Remove(newTabId), Focus(sticky.id)];
    }

    /** The `tabs.onRemoved` listener: forget the sticky tab when it is the one closed. */
    method HandleTabRemoved(tabId: TabId)
      modifies this
      ensures old(stickyTabId) == Some(tabId) ==> stickyTabId == None
      ensures old(stickyTabId) != Some(tabId) ==> stickyTabId == old(stickyTabId)
    {
      if stickyTabId == Some(tabId) {
        stickyTabId := None;
      }
    }
  }
}
