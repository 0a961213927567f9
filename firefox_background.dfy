/** The Firefox background script (souffleur_firefox/background.js): the
    two keyboard commands. Its install and message handlers are the Chrome
    script's, `Background.HandleInstallOrUpdate` and
    `Background.HandleMessage`. */
module FirefoxBackground {
  import opened Values
  import opened Background

  /** `handleCommand(command, tab)`: "toggle_sidebar" toggles the sidebar
      when the API exists, unless no `tab` was passed, on which reading
      `tab.windowId` throws first; "toggle_spotlight" messages the active
      tab when it has an id. */
  function HandleCommand(command: string, tab: Option<CommandTab>, platform: Platform, tabs: Option<seq<Tab>>)
    : (e: Effect)
    ensures e.SendToggleSpotlight? <==>
      command == "toggle_spotlight" && tabs.Some? && tabs.value != [] && TruthyId(tabs.value[0].id)
    ensures e.SendToggleSpotlight? ==> e.tabId == tabs.value[0].id
    ensures e.ToggleSidebar? <==> command == "toggle_sidebar" && tab.Some? && platform.hasSidebarAction
    ensures !e.OpenSidePanel?
  {
    if command == "toggle_sidebar" then
      if tab.Some? && platform.hasSidebarAction then ToggleSidebar else NoEffect
    else if command == "toggle_spotlight" then
      if tabs.Some? && tabs.value != [] && TruthyId(tabs.value[0].id) then SendToggleSpotlight(tabs.value[0].id)
      else NoEffect
    else NoEffect
  }
}
