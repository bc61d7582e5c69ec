/**
 * `useTabs`: the shared list of open tabs and the id of the active one. Tabs are added
 * (or re-activated), removed (the active one handing over to its left neighbour), and
 * activated by id.
 */
module Tabs {
  import opened Common

  datatype TabKind = Page | PostTab

  /** A tab; the optional post id and post data it may carry are not interpreted here. */
  datatype Tab = Tab(id: string, title: string, kind: TabKind, url: Option<string>)

  /** `findIndex(t => t.id === id)`: the first tab with that id. */
  function IndexOf(tabs: seq<Tab>, id: string): (r: Option<nat>)
    ensures r.Some? ==> r.value < |tabs| && tabs[r.value].id == id
    ensures r.Some? ==> forall j :: 0 <= j < r.value ==> tabs[j].id != id
    ensures r.None? ==> forall j :: 0 <= j < |tabs| ==> tabs[j].id != id
  {
    if tabs == [] then None
    else if tabs[0].id == id then Some(0)
    else match IndexOf(tabs[1..], id)
      case None => None
      case Some(i) => Some(i + 1)
  }

  /** No two tabs share an id. */
  ghost predicate UniqueTabIds(tabs: seq<Tab>)
  {
    forall i, j :: 0 <= i < j < |tabs| ==> tabs[i].id != tabs[j].id
  }

  /** `splice(index, 1)`. */
  function RemoveAt(tabs: seq<Tab>, index: nat): (r: seq<Tab>)
    requires index < |tabs|
    ensures |r| == |tabs| - 1
    ensures forall j :: 0 <= j < index ==> r[j] == tabs[j]
    ensures forall j :: index <= j < |r| ==> r[j] == tabs[j + 1]
  {
    tabs[..index] + tabs[index + 1..]
  }

  /**
   * The id that becomes active when the active tab at `index` was removed, leaving `rest`:
   * the tab just before it, or the new first tab; none when no tab is left. `|| null`
   * also turns an empty id into none.
   */
  function ActiveAfterRemove(rest: seq<Tab>, index: nat): (r: Option<string>)
    requires index <= |rest|
    ensures r.Some? ==> r.value != "" && exists j :: 0 <= j < |rest| && rest[j].id == r.value
    ensures rest == [] ==> r.None?
    ensures rest != [] && rest[if index == 0 then 0 else index - 1].id != "" ==>
      r == Some(rest[if index == 0 then 0 else index - 1].id)
  {
    if |rest| > 0 then
      var id := rest[if index == 0 then 0 else index - 1].id;
      if id == "" then None else Some(id)
    else None
  }

  /** Removing one tab keeps the other ids unique, and the removed id is gone. */
  lemma RemoveAtKeepsUnique(tabs: seq<Tab>, index: nat)
    requires index < |tabs| && UniqueTabIds(tabs)
    ensures UniqueTabIds(RemoveAt(tabs, index))
    ensures IndexOf(RemoveAt(tabs, index), tabs[index].id).None?
  {
    var r := RemoveAt(tabs, index);
    forall i, j | 0 <= i < j < |r| ensures r[i].id != r[j].id {
      var i', j' := if i < index then i else i + 1, if j < index then j else j + 1;
      assert r[i] == tabs[i'] && r[j] == tabs[j'];
    }
    forall j | 0 <= j < |r| ensures r[j].id != tabs[index].id {
      var j' := if j < index then j else j + 1;
      assert r[j] == tabs[j'];
    }
  }

  /** Every other open id is still open after the removal. */
  lemma RemoveAtKeepsOthers(tabs: seq<Tab>, index: nat, id: string)
    requires index < |tabs| && id != tabs[index].id && IndexOf(tabs, id).Some?
    ensures IndexOf(RemoveAt(tabs, index), id).Some?
  {
    var k := IndexOf(tabs, id).value;
    var k' := if k < index then k else k - 1;
    assert RemoveAt(tabs, index)[k'] == tabs[k];
  }

  class TabList {
    var tabs: seq<Tab>
    var activeTabId: Option<string>

    /** Tab ids are unique, and the active id is none or the id of an open tab. */
    ghost predicate Valid()
      reads this
    {
      UniqueTabIds(tabs) && (activeTabId.Some? ==> IndexOf(tabs, activeTabId.value).Some?)
    }

    /** The module-level state starts with no tabs and nothing active. */
    constructor()
      ensures Valid() && tabs == [] && activeTabId == None
    {
      tabs := [];
      activeTabId := None;
    }

    /**
     * `addTab`: a tab whose id is already open is only activated (the open tab is kept,
     * not replaced); a new one is appended at the end and activated.
     */
    method AddTab(tab: Tab)
      requires Valid()
      modifies this
      ensures Valid()
      ensures activeTabId == Some(tab.id)
      ensures IndexOf(old(tabs), tab.id).Some? ==> tabs == old(tabs)
      ensures IndexOf(old(tabs), tab.id).None? ==> tabs == old(tabs) + [tab]
    {
      if IndexOf(tabs, tab.id).Some? {
        activeTabId := Some(tab.id);
        return;
      }
      tabs := tabs + [tab];
      activeTabId := Some(tab.id);
      assert tabs[|tabs| - 1] == tab;
    }

    /**
     * `removeTab`: an unknown id changes nothing; otherwise exactly that tab goes, the
     * others keep their order, and if it was active its left neighbour (or the new first
     * tab) becomes active.
     */
    method RemoveTab(tabId: string)
      requires Valid()
      modifies this
      ensures Valid()
      ensures IndexOf(old(tabs), tabId).None? ==> tabs == old(tabs) && activeTabId == old(activeTabId)
      ensures IndexOf(old(tabs), tabId).Some? ==>
        var index := IndexOf(old(tabs), tabId).value;
        tabs == RemoveAt(old(tabs), index)
        && activeTabId == if old(activeTabId) == Some(tabId) then ActiveAfterRemove(tabs, index) else old(activeTabId)
    {
      var index := IndexOf(tabs, tabId);
      if index.None? {
        return;
      }
      RemoveAtKeepsUnique(tabs, index.value);
      if activeTabId.Some? && activeTabId != Some(tabId) {
        RemoveAtKeepsOthers(tabs, index.value, activeTabId.value);
      }
      tabs := RemoveAt(tabs, index.value);
      if activeTabId == Some(tabId) {
        if |tabs| > 0 {
          var next := ActiveAfterRemove(tabs, index.value);
          activeTabId := next;
          if next.Some? {
            var j :| 0 <= j < |tabs| && tabs[j].id == next.value;
          }
        } else {
          activeTabId := None;
        }
      }
    }

    /** `setActiveTab`: none clears the active id; an id takes effect only when a tab has it. */
    method SetActiveTab(tabId: Option<string>)
      requires Valid()
      modifies this
      ensures Valid()
      ensures tabs == old(tabs)
      ensures tabId.None? ==> activeTabId == None
      ensures tabId.Some? && IndexOf(tabs, tabId.value).Some? ==> activeTabId == tabId
      ensures tabId.Some? && IndexOf(tabs, tabId.value).None? ==> activeTabId == old(activeTabId)
    {
      if tabId.None? {
        activeTabId := None;
        return;
      }
      if IndexOf(tabs, tabId.value).Some? {
        activeTabId := tabId;
      }
    }

    /** `getActiveTab`: the open tab with the active id, or none. */
    function GetActiveTab(): (r: Option<Tab>)
      reads this
      ensures r.Some? ==> r.value in tabs && activeTabId == Some(r.value.id)
      ensures r.None? ==> activeTabId.None? || forall t :: t in tabs ==> t.id != activeTabId.value
      ensures Valid() ==> (r.Some? <==> activeTabId.Some?)
    {
      if activeTabId.None? then None
      else match IndexOf(tabs, activeTabId.value)
        case None => None
        case Some(i) => Some(tabs[i])
    }
  }

  /** Adding a tab whose id is open, or adding the same tab twice, never duplicates it. */
  lemma AddTabTwice(tabs: seq<Tab>, tab: Tab)
    requires UniqueTabIds(tabs) && IndexOf(tabs, tab.id).None?
    ensures UniqueTabIds(tabs + [tab])
    ensures IndexOf(tabs + [tab], tab.id) == Some(|tabs|)
  {
    var all := tabs + [tab];
    forall i, j | 0 <= i < j < |all| ensures all[i].id != all[j].id {
      if j == |tabs| {
        assert all[i] == tabs[i];
      }
    }
    IndexOfAppend(tabs, tab, tab.id);
  }

  lemma {:induction false} IndexOfAppend(tabs: seq<Tab>, tab: Tab, id: string)
    requires IndexOf(tabs, id).None? && tab.id == id
    ensures IndexOf(tabs + [tab], id) == Some(|tabs|)
    decreases |tabs|
  {
    if tabs != [] {
      assert (tabs + [tab])[1..] == tabs[1..] + [tab];
      IndexOfAppend(tabs[1..], tab, id);
    }
  }
}
