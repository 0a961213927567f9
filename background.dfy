/** What the three background scripts share: the two seed records, the
    seeding decisions, the `getPrompts` reply, the install and message
    handlers of the Chrome and Firefox scripts, and the effects a keyboard
    command can have. */
module Background {
  import opened Values
  import opened Storage

  /** The seed list written on first use, in this order. */
  const INITIAL_PROMPTS: seq<Prompt> := [
    Prompt(Str("1"), Str("Greeting"), Str("Hello, how are you?")),
    Prompt(Str("2"), Str("Task Request"), Str("Can you help me with a task?"))
  ]

  /** `!result.prompts || result.prompts.length === 0`: the key is absent
      or holds an empty list. */
  predicate NeedsSeed(stored: Option<seq<Prompt>>) {
    stored.None? || stored.value == []
  }

  /** The value under "prompts" after the install handler of the Chrome and
      Firefox background scripts: the seeds are written only on an
      "install" event whose read succeeded and found no prompts, and only if
      the write succeeds. */
  function SeedOnInstall(stored: Option<seq<Prompt>>, reason: string, readOk: bool, writeOk: bool)
    : (r: Option<seq<Prompt>>)
    ensures r != stored ==> r == Some(INITIAL_PROMPTS) && reason == "install" && NeedsSeed(stored)
    ensures stored.Some? && stored.value != [] ==> r == stored
    ensures reason == "install" && readOk && writeOk && NeedsSeed(stored) ==> r == Some(INITIAL_PROMPTS)
    ensures !readOk || !writeOk ==> r == stored
  {
    if reason == "install" && readOk && NeedsSeed(stored) && writeOk then Some(INITIAL_PROMPTS)
    else stored
  }

  /** The value under "prompts" after the legacy script's load-time check
      `!result.prompts`: the seeds are written only when the key is absent;
      an empty stored list is kept. */
  function SeedOnLoad(stored: Option<seq<Prompt>>, readOk: bool, writeOk: bool)
    : (r: Option<seq<Prompt>>)
    ensures r != stored ==> r == Some(INITIAL_PROMPTS) && stored.None?
    ensures stored.Some? ==> r == stored
    ensures stored.None? && readOk && writeOk ==> r == Some(INITIAL_PROMPTS)
    ensures !readOk || !writeOk ==> r == stored
  {
    if readOk && stored.None? && writeOk then Some(INITIAL_PROMPTS) else stored
  }

  /** A second install event finds the seeds (or the user's list) and
      writes nothing. */
  lemma SeedOnInstallIdempotent(stored: Option<seq<Prompt>>, reason: string, readOk: bool, writeOk: bool)
    ensures var once := SeedOnInstall(stored, reason, readOk, writeOk);
      SeedOnInstall(once, reason, readOk, writeOk) == once
  {
  }

  /** The reply to `{action: "getPrompts"}`. */
  datatype Reply = Reply(prompts: seq<Prompt>, error: Option<string>)

  /** `{prompts: result.prompts || []}` after a successful read,
      `{prompts: [], error: error.message}` after a failed one: a failure
      never reaches the caller as a fault, and an error always comes with
      an empty list. */
  function GetPromptsReply(read: ReadResult): (r: Reply)
    ensures r.error.Some? <==> read.ReadFailed?
    ensures r.error.Some? ==> r.prompts == [] && r.error.value == read.message
    ensures read.ReadOk? && read.stored.Some? ==> r.prompts == read.stored.value
    ensures read.ReadOk? && read.stored.None? ==> r.prompts == []
  {
    match read
    case ReadFailed(message) => Reply([], Some(message))
    case ReadOk(stored) => Reply(if stored.Some? then stored.value else [], None)
  }

  /** On a fresh profile the install handler seeds the store, and the next
      `getPrompts` answers exactly the two seed records. */
  lemma FreshInstallServesSeeds()
    ensures GetPromptsReply(ReadOk(SeedOnInstall(None, "install", true, true))) == Reply(INITIAL_PROMPTS, None)
    ensures GetPromptsReply(ReadOk(SeedOnLoad(None, true, true))) == Reply(INITIAL_PROMPTS, None)
  {
  }

  /** What a message listener answers. */
  datatype Response = NoResponse | PromptsResponse(reply: Reply) | CopyResponse(success: bool)

  /** `handleInstallOrUpdate(details)` of the Chrome and Firefox background
      scripts, which share it: on "install", read the store and write the
      seeds when it holds no prompts. A failed read or write is only
      logged. */
  method HandleInstallOrUpdate(store: Store, reason: string, readOk: bool, writeOk: bool)
    modifies store
    ensures store.prompts == SeedOnInstall(old(store.prompts), reason, readOk, writeOk)
  {
    if reason == "install" {
      var read := store.Get(readOk, "");
      if read.ReadOk? && NeedsSeed(read.stored) {
        store.Set(INITIAL_PROMPTS, writeOk);
      }
    }
  }

  /** `handleMessage(request, ...)` of the Chrome and Firefox background
      scripts: only "getPrompts" is answered, and asynchronously
      (`return true`); the reply is built from one read of the store. */
  method HandleMessage(store: Store, action: string, readOk: bool, failure: string)
    returns (async: bool, response: Response)
    ensures async <==> action == "getPrompts"
    ensures !async ==> response == NoResponse
    ensures async ==> response == PromptsResponse(GetPromptsReply(if readOk then ReadOk(store.prompts) else ReadFailed(failure)))
    ensures async && !readOk ==> response.reply == Reply([], Some(failure))
    ensures async && readOk ==> response.reply == Reply(if store.prompts.Some? then store.prompts.value else [], None)
  {
    if action == "getPrompts" {
      var read := store.Get(readOk, failure);
      async, response := true, PromptsResponse(GetPromptsReply(read));
    } else {
      async, response := false, NoResponse;
    }
  }

  /** A tab as `tabs.query` reports it; `id` may be missing. */
  datatype Tab = Tab(id: Option<int>)

  /** The `tab` argument of `commands.onCommand`, which the browser may
      leave out; only its `windowId` is read. */
  datatype CommandTab = CommandTab(windowId: Option<int>)

  /** JavaScript truthiness of a tab id: present and not 0. */
  predicate TruthyId(id: Option<int>) { id.Some? && id.value != 0 }

  /** Which sidebar APIs the browser provides. */
  datatype Platform = Platform(hasSidebarAction: bool, hasSidePanel: bool)

  /** The browser call a keyboard command ends in. */
  datatype Effect =
    | NoEffect
    | ToggleSidebar                              // sidebarAction.toggle()
    | OpenSidePanel(windowId: Option<int>)       // sidePanel.open({windowId}) or open({})
    | SendToggleSpotlight(tabId: Option<int>)    // tabs.sendMessage(id, {action: "toggleSpotlight"})
}
