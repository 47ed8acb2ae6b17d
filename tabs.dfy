/**
 * The active-tab rules of the shared tab helpers: the single-result rule of
 * the active-tab query, and the URL tests that decide whether Talkie may read
 * a tab and whether a page is Talkie's own popup.
 */
module Tabs {

  import opened Wrappers
  import opened Strings

  /** A browser tab: its id and its `url` property, which may be missing. */
  datatype Tab = Tab(id: int, url: JsValue)

  /**
   * getCurrentActiveTab: the tab the query for the active tab of the current
   * window returned, when it returned exactly one, and otherwise none.
   */
  function GetCurrentActiveTab(tabs: seq<Tab>): (tab: Option<Tab>)
    ensures tab.Some? <==> |tabs| == 1
    ensures tab.Some? ==> tab.value in tabs
  {
    var singleTabResult := |tabs| == 1;
    if singleTabResult then Some(tabs[0]) else None
  }

  /** getCurrentActiveTabId: the id of the active tab, when there is one. */
  function GetCurrentActiveTabId(tabs: seq<Tab>): (id: Option<int>)
    ensures id.Some? <==> |tabs| == 1
    ensures id.Some? ==> id.value == tabs[0].id
  {
    match GetCurrentActiveTab(tabs)
    case Some(tab) => Some(tab.id)
    case None => None
  }

  /** A URL that is a non-empty string. */
  predicate HasUrl(tab: Tab)
  {
    tab.url.Str? && |tab.url.s| > 0
  }

  /** The pages of the browser, its extensions and its web store, which Talkie does not read. */
  const SpecialUrlPrefixes: seq<string> := ["chrome://", "vivaldi://", "chrome-extension://", "https://chrome.google.com/", "about:"]

  predicate IsSpecialUrl(url: string)
  {
    exists i :: 0 <= i < |SpecialUrlPrefixes| && StartsWith(url, SpecialUrlPrefixes[i])
  }

  /**
   * canTalkieRunInTab for the tab the query found (src/shared/tabs.js): a tab
   * whose URL is a non-empty string that starts with none of the special prefixes.
   */
  function CanTalkieRunInTab(tab: Option<Tab>): (canRun: bool)
    ensures canRun <==> tab.Some? && HasUrl(tab.value) && !IsSpecialUrl(tab.value.url.s)
  {
    if tab.Some? then
      var url := tab.value.url;
      if url.Str? && |url.s| > 0 then
        if StartsWith(url.s, "chrome://") then assert StartsWith(url.s, SpecialUrlPrefixes[0]); false
        else if StartsWith(url.s, "vivaldi://") then assert StartsWith(url.s, SpecialUrlPrefixes[1]); false
        else if StartsWith(url.s, "chrome-extension://") then assert StartsWith(url.s, SpecialUrlPrefixes[2]); false
        else if StartsWith(url.s, "https://chrome.google.com/") then assert StartsWith(url.s, SpecialUrlPrefixes[3]); false
        else if StartsWith(url.s, "about:") then assert StartsWith(url.s, SpecialUrlPrefixes[4]); false
        else
          assert forall i :: 0 <= i < |SpecialUrlPrefixes| ==> !StartsWith(url.s, SpecialUrlPrefixes[i]) by {
            forall i | 0 <= i < |SpecialUrlPrefixes| ensures !StartsWith(url.s, SpecialUrlPrefixes[i]) {
              assert i == 0 || i == 1 || i == 2 || i == 3 || i == 4;
            }
          }
          true
      else false
    else false
  }

  /**
   * isCurrentPageInternalToTalkie for the tab the query found: a URL of an
   * extension page ending in the popup's path; no tab at all counts as internal.
   */
  function IsCurrentPageInternalToTalkie(tab: Option<Tab>): (internal: bool)
    ensures tab.None? ==> internal
    ensures tab.Some? ==> (internal <==>
      HasUrl(tab.value) && StartsWith(tab.value.url.s, "chrome-extension://") && EndsWith(tab.value.url.s, "/src/popup.html"))
  {
    if tab.Some? then
      var url := tab.value.url;
      if url.Str? && |url.s| > 0 then
        if StartsWith(url.s, "chrome-extension://") && EndsWith(url.s, "/src/popup.html") then true
        else false
      else false
    else true
  }

  /** Talkie never reads a page it considers its own (nor a window without an active tab). */
  lemma InternalPagesAreNotRead(tab: Option<Tab>)
    ensures IsCurrentPageInternalToTalkie(tab) ==> !CanTalkieRunInTab(tab)
  {
    if tab.Some? && IsCurrentPageInternalToTalkie(tab) {
      assert StartsWith(tab.value.url.s, "chrome-extension://");
    }
  }

  /** An ordinary web page can be read. */
  lemma WebPagesAreRead(id: int, url: string)
    requires StartsWith(url, "https://") && !StartsWith(url, "https://chrome.google.com/")
    ensures CanTalkieRunInTab(Some(Tab(id, Str(url))))
  {
    StartsWithDiffering(url, "https://", "chrome://");
    StartsWithDiffering(url, "https://", "vivaldi://");
    StartsWithDiffering(url, "https://", "chrome-extension://");
    StartsWithDiffering(url, "https://", "about:");
  }

  /** The answer for the active tab: exactly one tab was found and it can be read. */
  lemma CanRunInActiveTab(tabs: seq<Tab>)
    ensures CanTalkieRunInTab(GetCurrentActiveTab(tabs)) ==> |tabs| == 1 && HasUrl(tabs[0])
    ensures |tabs| != 1 ==> !CanTalkieRunInTab(GetCurrentActiveTab(tabs)) && IsCurrentPageInternalToTalkie(GetCurrentActiveTab(tabs))
  {
  }
}

/**
 * The background script's own copy of canTalkieRunInTab, which lacks the
 * `vivaldi://` rule of the shared helper.
 */
module BackgroundTabs {

  import opened Wrappers
  import opened Strings
  import Tabs

  /** The special prefixes the background script checks. */
  const SpecialUrlPrefixes: seq<string> := ["chrome://", "chrome-extension://", "https://chrome.google.com/", "about:"]

  predicate IsSpecialUrl(url: string)
  {
    exists i :: 0 <= i < |SpecialUrlPrefixes| && StartsWith(url, SpecialUrlPrefixes[i])
  }

  /** canTalkieRunInTab of the background script. */
  function CanTalkieRunInTab(tab: Option<Tabs.Tab>): (canRun: bool)
    ensures canRun <==> tab.Some? && Tabs.HasUrl(tab.value) && !IsSpecialUrl(tab.value.url.s)
  {
    if tab.Some? then
      var url := tab.value.url;
      if url.Str? && |url.s| > 0 then
        if StartsWith(url.s, "chrome://") then assert StartsWith(url.s, SpecialUrlPrefixes[0]); false
        else if StartsWith(url.s, "chrome-extension://") then assert StartsWith(url.s, SpecialUrlPrefixes[1]); false
        else if StartsWith(url.s, "https://chrome.google.com/") then assert StartsWith(url.s, SpecialUrlPrefixes[2]); false
        else if StartsWith(url.s, "about:") then assert StartsWith(url.s, SpecialUrlPrefixes[3]); false
        else
          assert forall i :: 0 <= i < |SpecialUrlPrefixes| ==> !StartsWith(url.s, SpecialUrlPrefixes[i]) by {
            forall i | 0 <= i < |SpecialUrlPrefixes| ensures !StartsWith(url.s, SpecialUrlPrefixes[i]) {
              assert i == 0 || i == 1 || i == 2 || i == 3;
            }
          }
          true
      else false
    else false
  }

  /** The two copies disagree exactly on Vivaldi's internal pages, which only the shared one refuses. */
  lemma CopiesDifferOnlyOnVivaldi(tab: Option<Tabs.Tab>)
    ensures CanTalkieRunInTab(tab) != Tabs.CanTalkieRunInTab(tab) <==>
      CanTalkieRunInTab(tab) && StartsWith(tab.value.url.s, "vivaldi://")
    ensures Tabs.CanTalkieRunInTab(tab) ==> CanTalkieRunInTab(tab)
  {
  }
}
