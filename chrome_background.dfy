/** The Chrome service worker (souffleur_chrome/background.js): the two
    keyboard commands. Its install and message handlers are
    `Background.HandleInstallOrUpdate` and `Background.HandleMessage`. */
module ChromeBackground {
  import opened Values
  import opened Background

  /** `handleCommandToggle(windowId)`: the Firefox sidebar API when present,
      else Chrome's side panel for the window (or globally when no window
      id is known), else nothing. */
  function CommandToggle(windowId: Option<int>, platform: Platform): (e: Effect)
    ensures e == NoEffect <==> !platform.hasSidebarAction && !platform.hasSidePanel
    ensures platform.hasSidebarAction ==> e == ToggleSidebar
    ensures e.OpenSidePanel? <==> platform.hasSidePanel && !platform.hasSidebarAction
    ensures e.OpenSidePanel? ==> e.windowId == (if TruthyId(windowId) then windowId else None)
    ensures !e.SendToggleSpotlight?
  {
    if platform.hasSidebarAction then ToggleSidebar
    else if platform.hasSidePanel then OpenSidePanel(if TruthyId(windowId) then windowId else None)
    else NoEffect
  }

  /** `handleCommand(command, tab)`. `tab` is `None` when the browser
      passes no tab: "toggle_sidebar" then throws reading `tab.windowId`
      before anything opens. `tabs` is the result of querying the active
      tab, `None` when the query fails. */
  function HandleCommand(command: string, tab: Option<CommandTab>, platform: Platform, tabs: Option<seq<Tab>>)
    : (e: Effect)
    ensures e.SendToggleSpotlight? <==>
      command == "toggle_spotlight" && tabs.Some? && tabs.value != [] && TruthyId(tabs.value[0].id)
    ensures e.SendToggleSpotlight? ==> e.tabId == tabs.value[0].id
    ensures (e.ToggleSidebar? || e.OpenSidePanel?) <==>
      command == "toggle_sidebar" && tab.Some? && (platform.hasSidebarAction || platform.hasSidePanel)
    ensures command == "toggle_sidebar" && tab.None? ==> e == NoEffect
    ensures command == "toggle_sidebar" && tab.Some? && platform.hasSidebarAction ==> e == ToggleSidebar
    ensures command == "toggle_sidebar" && tab.Some? && !platform.hasSidebarAction && platform.hasSidePanel ==>
      e == OpenSidePanel(if TruthyId(tab.value.windowId) then tab.value.windowId else None)
    ensures command != "toggle_sidebar" && command != "toggle_spotlight" ==> e == NoEffect
  {
    if command == "toggle_sidebar" then
      if tab.Some? then CommandToggle(tab.value.windowId, platform) else NoEffect
    else if command == "toggle_spotlight" then
      if tabs.Some? && tabs.value != [] && TruthyId(tabs.value[0].id) then SendToggleSpotlight(tabs.value[0].id)
      else NoEffect
    else NoEffect
  }
}
