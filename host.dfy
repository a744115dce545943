/** What the browser supplies to the core and what the core asks of it. */
module Host {
  import opened Wrappers
  import opened Seqs

  type TabId = int

  /** A tab as `browser.tabs.query` and `browser.tabs.get` report it. */
  datatype Tab = Tab(id: TabId, url: string, cookieStoreId: string)

  /** A `webNavigation` event. */
  datatype NavigationDetails = NavigationDetails(tabId: TabId, url: string, frameId: int)

  /** A tab mutation the core issues, in the order it awaits them. */
  datatype Command =
    | Remove(tabId: TabId)               // browser.tabs.remove(tabId)
    | SetUrl(tabId: TabId, url: string)  // browser.tabs.update(tabId, { url })
    | Focus(tabId: TabId)                // browser.tabs.update(tabId, { active: true })

  /** `browser.tabs.query(options)` over the open tabs in host enumeration order:
      with a container given, only that container's tabs. */
  function QueryTabs(openTabs: seq<Tab>, cookieStoreId: Option<string>): (r: seq<Tab>)
    ensures forall i :: 0 <= i < |r| ==> r[i] in openTabs
    ensures forall i :: 0 <= i < |r| ==> cookieStoreId.Some? ==> r[i].cookieStoreId == cookieStoreId.value
    ensures forall t :: t in openTabs && (cookieStoreId.Some? ==> t.cookieStoreId == cookieStoreId.value) ==> t in r
    ensures cookieStoreId.None? ==> r == openTabs
    ensures SubseqOf(r, openTabs)
  {
    match cookieStoreId
    case None => SubseqRefl(openTabs); openTabs
    case Some(c) => Filter(openTabs, (t: Tab) => t.cookieStoreId == c)
  }

  /** `tabs[j]` is the first tab with id `id`. */
  predicate IsFirstWithId(tabs: seq<Tab>, j: int, id: TabId) {
    0 <= j < |tabs| && tabs[j].id == id && forall l :: 0 <= l < j ==> tabs[l].id != id
  }

  /** `tabs.find(tab => tab.id === id)`: the first tab with the id. */
  function FindById(tabs: seq<Tab>, id: TabId): (r: Option<Tab>)
    ensures r.Some? ==> r.value in tabs && r.value.id == id
    ensures r.None? <==> forall i :: 0 <= i < |tabs| ==> tabs[i].id != id
    ensures r.Some? ==> exists j :: IsFirstWithId(tabs, j, id) && tabs[j] == r.value
  {
    if tabs == [] then None
    else if tabs[0].id == id then
      assert IsFirstWithId(tabs, 0, id);
      Some(tabs[0])
    else
      var r := FindById(tabs[1..], id);
      assert r.Some? ==> exists j :: IsFirstWithId(tabs, j, id) && tabs[j] == r.value by {
        if r.Some? {
          var j :| IsFirstWithId(tabs[1..], j, id) && tabs[1..][j] == r.value;
          assert forall l :: 0 <= l < j + 1 ==> tabs[l].id != id by {
            forall l | 0 <= l < j + 1 ensures tabs[l].id != id {
              if l > 0 { assert tabs[l] == tabs[1..][l - 1]; }
            }
          }
          assert IsFirstWithId(tabs, j + 1, id);
        }
      }
      r
  }
}
