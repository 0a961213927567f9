/** The legacy Firefox background script (background.js): seeding when the
    script loads, the message listener, and the command listener. */
module LegacyBackground {
  import opened Values
  import opened Storage
  import opened Background

  /** The top-level `storage.local.get("prompts")` run on every load of the
      script: the seeds are written when the key is absent. */
  method InitializeOnLoad(store: Store, readOk: bool, writeOk: bool)
    modifies store
    ensures store.prompts == SeedOnLoad(old(store.prompts), readOk, writeOk)
  {
    var read := store.Get(readOk, "");
    if read.ReadOk? && read.stored.None? {
      store.Set(INITIAL_PROMPTS, writeOk);
    }
  }

  /** The `runtime.onMessage` listener. "getPrompts" resolves to the
      stored list (or the error reply); "copyToClipboard" resolves to
      `{success}`, where `copyOutcome` is what `document.execCommand("copy")`
      returned (`None` when it threw); anything else is not answered. */
  method HandleMessage(store: Store, action: string, readOk: bool, failure: string, copyOutcome: Option<bool>)
    returns (response: Response)
    ensures response.PromptsResponse? <==> action == "getPrompts"
    ensures response.PromptsResponse? ==>
      response.reply == GetPromptsReply(if readOk then ReadOk(store.prompts) else ReadFailed(failure))
    ensures response.PromptsResponse? && !readOk ==> response.reply == Reply([], Some(failure))
    ensures response.PromptsResponse? && readOk ==>
      response.reply == Reply(if store.prompts.Some? then store.prompts.value else [], None)
    ensures response.CopyResponse? <==> action == "copyToClipboard"
    ensures response.CopyResponse? ==> (response.success <==> copyOutcome == Some(true))
  {
    if action == "getPrompts" {
      var read := store.Get(readOk, failure);
      response := PromptsResponse(GetPromptsReply(read));
    } else if action == "copyToClipboard" {
      response := CopyResponse(if copyOutcome.Some? then copyOutcome.value else false);
    } else {
      response := NoResponse;
    }
  }

  /** The `commands.onCommand` listener: "_execute_sidebar_action" toggles
      the sidebar; "toggle_spotlight" messages the first active tab if the
      query returned one, whatever its id. */
  function HandleCommand(command: string, tabs: Option<seq<Tab>>): (e: Effect)
    ensures e.ToggleSidebar? <==> command == "_execute_sidebar_action"
    ensures e.SendToggleSpotlight? <==> command == "toggle_spotlight" && tabs.Some? && tabs.value != []
    ensures e.SendToggleSpotlight? ==> e.tabId == tabs.value[0].id
    ensures !e.OpenSidePanel?
    ensures command != "_execute_sidebar_action" && command != "toggle_spotlight" ==> e == NoEffect
  {
    if command == "_execute_sidebar_action" then ToggleSidebar
    else if command == "toggle_spotlight" && tabs.Some? && tabs.value != [] then SendToggleSpotlight(tabs.value[0].id)
    else NoEffect
  }

  /** Unlike the install handlers, the load-time check keeps a stored empty
      list: an emptied list is not re-seeded, whichever outcomes the calls
      have. */
  lemma EmptyListNotReseeded(readOk: bool, writeOk: bool)
    ensures SeedOnLoad(Some([]), readOk, writeOk) == Some([])
    ensures SeedOnInstall(Some([]), "install", true, true) == Some(INITIAL_PROMPTS)
  {
  }
}
