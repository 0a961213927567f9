# Souffleur prompt library — a Dafny model

Souffleur is a browser extension that keeps a list of text prompts, each
`{id?, title, text}`, in local storage under the key `"prompts"`. It has
three parts:

- a **background script** that seeds the list with two records on first
  use, answers `getPrompts` messages and routes two keyboard commands;
- a **sidebar** page that edits the list: copy, add, edit, delete,
  drag-reorder, import and export JSON;
- an **in-page overlay** ("spotlight") that searches the list, highlights
  one result with the arrow keys and copies it with Enter or a click.

Each part exists in a newer version (`souffleur_chrome/`,
`souffleur_firefox/`) and in the original one at the repository root. The
model covers all of them.

How the model is laid out:

- `values.dfy`: the records. A field is a string or missing (`Absent`).
- `text.dfy`: `trim`, lower-casing, `includes` and `truncateText`.
- `lists.dfy`: the array operations (`splice`, a single-element move, `filter`).
- `search.dfy`: both filters and what the original renderer manages to draw.
- `selection.dfy`: arrow-key navigation with JavaScript's `%`.
- `storage.dfy`: the store, as a class with one field.
- Background scripts: `background.dfy` (shared), `chrome_background.dfy`,
  `firefox_background.dfy`, `legacy_background.dfy`.
- Sidebars and overlays, as classes whose fields are the scripts' globals:
  `firefox_sidebar.dfy`, `legacy_sidebar.dfy`, `firefox_content.dfy`,
  `legacy_content.dfy`.

Every call into the browser is an input rather than something the model
performs:

- the outcome of a storage read or write;
- the reply to a message;
- the parsed import file;
- the active tab;
- the focused element;
- the DOM position of a dropped item;
- the generated id of a new prompt.

A failed storage write leaves the stored value unchanged.

Some members are definitions of JavaScript built-ins or of the storage
interface, used by the rest and stated without a property of their own:
`Values.JsString` (how `setAttribute` and `writeText` stringify a missing
field, as "undefined"), `Lists.SpliceStart` (how `splice` resolves its
start argument: negative counts from the end, clamped to the list),
`Text.Includes` (`String.prototype.includes`: the second string occurs in
the first at some position), `Lists.Move` (the reference single-element
move that the drops are proved equal to, in `Lists.MoveSpec`) and
`Storage.Store.Get` (a read returns the stored value or the failure).

Where the code departs from what the extension evidently intends, the
model follows the code:

- An import keeps records whose title and text are strings, including empty
  ones. The intent is to keep only records with a non-empty title and text.
- A file such as `[{"title":"X"}]` imports as the empty list. That empty list
  is written and reported as a success
  (`FirefoxSidebar.ImportKeepsOnlyCompleteRecords`). The intent is to refuse
  such a file with an error and leave the stored list untouched.
- Moving up from "nothing selected" (-1) lands on the second-to-last result
  (`Selection.UpFromNoSelection`). The intent is for it to land on the last
  result, as moving up from the first result does.
- "Enter" in the newer overlay copies the text "undefined" for a record
  without text (`FirefoxContent.EnterOnMissingTextCopiesUndefined`). The
  intent is to copy nothing when the record has no text.
- The original sidebar writes an imported file whose record has no text,
  but shows no success alert: the render before the alert throws
  (`LegacySidebar.TextlessImportShowsNoAlert`). For the same reason its add
  form stays open once the list holds such a record. The intent is to
  report the import and to close the form after every successful write.

## Model

| member | source | states |
|---|---|---|
| Text.Trim | souffleur_firefox/sidebar/sidebar.js:416-418 | the result is an infix of the input and everything before and after it is ECMAScript whitespace; neither end of it is whitespace; it is empty if and only if the input is all whitespace, so `title && text` rejects exactly blank inputs |
| Text.TrimIdempotent | souffleur_firefox/sidebar/sidebar.js:416 | trimming a trimmed string changes nothing |
| Text.Lower | souffleur_firefox/content.js:237 | same length; no upper-case ASCII letter is left, each one becomes its lower-case partner, and every other character is unchanged |
| Text.LowerIdempotent | souffleur_firefox/content.js:239 | lower-casing twice equals lower-casing once |
| Text.Truncate | sidebar/sidebar.js:14-19 | text up to the limit comes back unchanged; longer text becomes its first `maxLength` characters followed by "...", `maxLength + 3` in all (the same helper is content.js:215-220) |
| Text.TruncateValue | souffleur_firefox/sidebar/sidebar.js:31-37 | a missing value gives ""; a string is truncated as above; the preview never exceeds the limit plus three (also souffleur_firefox/content.js:308-314) |
| Lists.RemoveAt | souffleur_firefox/sidebar/sidebar.js:220 | one shorter, elements before the index in place, the rest shifted down by one, multiset minus exactly the removed element |
| Lists.InsertAt | souffleur_firefox/sidebar/sidebar.js:327 | one longer, the new element at the index, the others in order around it, multiset plus the element |
| Lists.SpliceRemoveOne | sidebar/sidebar.js:192 | an element is removed exactly when the start resolves inside the list; then the rest is one shorter and rest plus removed element is the original multiset; a start inside the list removes the element it names, one at or past the end removes nothing |
| Lists.SpliceInsert | sidebar/sidebar.js:195 | one longer, the element at the resolved start, the multiset grown by exactly that element; a start inside the list is where it lands, one past the end appends it |
| Lists.MoveSpec | souffleur_firefox/sidebar/sidebar.js:324-327 | a move keeps the length and multiset, puts the moved element at the target, and leaves the other elements in their relative order |
| Lists.MoveInverse | souffleur_firefox/sidebar/sidebar.js:324-327 | moving back from the target to the source restores the list |
| Lists.MoveToSelf | souffleur_firefox/sidebar/sidebar.js:319 | moving an element onto its own index changes nothing |
| Lists.Filter | souffleur_firefox/content.js:238-241 | no longer than the input; an element is in the result if and only if it is in the input and passes the test |
| Lists.FilterCounts | souffleur_firefox/content.js:238-241 | each kept element occurs as often as in the input and every other element not at all |
| Lists.FilterIsSubsequence | souffleur_firefox/content.js:238 | the filtered list is a subsequence of the original: order is preserved |
| Lists.FilterAllKept | souffleur_firefox/content.js:238 | when every element is kept the filter is the identity |
| Lists.FilterIdempotent | souffleur_firefox/content.js:238 | filtering twice with the same test equals filtering once |
| Search.FilterPrompts | souffleur_firefox/content.js:230-245 | an empty query returns the whole cache; otherwise each prompt whose title or text contains the lower-cased query occurs as often as in the cache and no other prompt occurs, as an order-preserving subsequence |
| Search.FilterPromptsIdempotent | souffleur_firefox/content.js:230-245 | re-filtering the result with the same query changes nothing |
| Search.LegacyMatch | content.js:163-166 | the test throws exactly when the title is missing, or the title does not match and the text is missing; otherwise it answers whether the title or the text contains the query |
| Search.LegacyFilterAll | content.js:163-166 | the filter throws if and only if the test throws on some element; otherwise each prompt the test accepts occurs as often as in the input, no other does, and order is kept |
| Search.LegacyFilterPrompts | content.js:154-170 | an empty query returns the whole cache; a non-empty one throws exactly when the test throws on some prompt, and otherwise keeps each accepted prompt as often as it occurs, in order |
| Search.LegacyFilterAgrees | content.js:154-170 | on records with string title and text the original filter never throws and returns exactly what the newer filter returns |
| Search.LegacyFilterAllAgrees | content.js:163-166 | the same agreement for a non-empty lower-cased query, element by element |
| Search.LegacyRendered | content.js:185-211 | the rendered items are the longest prefix of the list with text present; the first record after them has no text, on which `truncateText` throws |
| Selection.JsRem | souffleur_firefox/content.js:332 | JavaScript `%`: the result differs from the dividend by a multiple of n, is smaller than n in magnitude and has the dividend's sign: `a % n` for a non-negative dividend and `-((-a) % n)` for a negative one |
| Selection.NavigateDown | souffleur_firefox/content.js:332 | from -1 or an item the result is an item; the next one, and the last wraps to the first |
| Selection.NavigateUp | souffleur_firefox/content.js:334 | from -1 or an item the result is an item; the previous one, and the first wraps to the last |
| Selection.Navigate | souffleur_firefox/content.js:331-335 | a valid selection stays valid after either key |
| Selection.NavigateRoundTrip | content.js:233-237 | on a selected item Up undoes Down and Down undoes Up |
| Selection.UpFromNoSelection | souffleur_firefox/content.js:334 | Up from no selection lands on index n-2 (or 0 when there is one item) |
| Selection.NavigateAnySelection | content.js:234-236 | for any starting index the result lies strictly between -n and n, and is negative only when the start was below -1 |
| Storage.Store.constructor | souffleur_chrome/background.js:21 | the store starts with the given value under "prompts" |
| Storage.Store.Set | souffleur_firefox/sidebar/sidebar.js:190 | a successful write replaces the whole list; a failed one changes nothing |
| Background.SeedOnInstall | souffleur_chrome/background.js:18-29 | the stored value changes only to the two seeds, only on "install" and only when the key is absent or empty; a non-empty list is never overwritten; a failed read or write leaves the value; with both succeeding the seeds are stored |
| Background.SeedOnLoad | background.js:4-22 | the stored value changes only to the two seeds and only when the key is absent; any stored list, even an empty one, is kept; a failed read or write leaves the value |
| Background.SeedOnInstallIdempotent | souffleur_chrome/background.js:24 | a second install does not change what the first left |
| Background.GetPromptsReply | souffleur_chrome/background.js:66-76 | the reply carries an error exactly when the read failed, and then an empty list and the failure's message; otherwise the stored list, or [] when absent |
| Background.FreshInstallServesSeeds | souffleur_chrome/background.js:4-7 | on a fresh profile, after seeding, `getPrompts` yields exactly "Greeting" then "Task Request" with no error |
| Background.HandleInstallOrUpdate | souffleur_chrome/background.js:14-37 | the store after an install or update event is exactly what `SeedOnInstall` describes (souffleur_firefox/background.js:15-43 is the same handler) |
| Background.HandleMessage | souffleur_chrome/background.js:63-84 | "getPrompts" and only it is answered asynchronously, with `GetPromptsReply` of one read: the stored list (or []) with no error, or an empty list with the failure's message; other actions get no answer (souffleur_firefox/background.js:52-73 is the same handler) |
| ChromeBackground.CommandToggle | souffleur_chrome/background.js:91-123 | with the sidebar API the sidebar toggles; otherwise, with the side panel, it opens for a truthy window id or globally; with neither nothing happens; it never messages a tab |
| ChromeBackground.HandleCommand | souffleur_chrome/background.js:130-161 | "toggle_sidebar" does nothing when no tab is passed (reading `tab.windowId` throws); with a tab it toggles the sidebar when its API exists and otherwise opens the side panel for the tab's window id (globally when that is not truthy); "toggle_spotlight" messages the first active tab if and only if it exists with a truthy id; other commands do nothing |
| FirefoxBackground.HandleCommand | souffleur_firefox/background.js:102-139 | "toggle_sidebar" toggles if and only if a tab is passed (reading `tab.windowId` throws otherwise) and the sidebar API exists; the side panel is never used; the spotlight message goes to the first active tab if and only if its id is truthy |
| LegacyBackground.InitializeOnLoad | background.js:4-28 | the store after the load-time check is exactly what `SeedOnLoad` describes |
| LegacyBackground.HandleMessage | background.js:31-65 | "getPrompts" gets `GetPromptsReply` of one read: the list (or []) with no error, or an empty list with the failure's message; "copyToClipboard" gets success exactly when the copy command returned true; anything else no answer |
| LegacyBackground.HandleCommand | background.js:75-88 | "_execute_sidebar_action" toggles the sidebar; "toggle_spotlight" messages the first tab if and only if one was found, whatever its id; the side panel is never used and other commands do nothing |
| LegacyBackground.EmptyListNotReseeded | background.js:8 | an emptied list is kept by the load-time check, whereas the newer install handler would re-seed it |
| FirefoxSidebar.CheckedIndex | souffleur_firefox/sidebar/sidebar.js:123 | an index passes the guard if and only if it parsed and lies inside the list |
| FirefoxSidebar.ValidPrompts | souffleur_firefox/sidebar/sidebar.js:477 | every imported record has a string title and text, and the import is no longer than the file |
| FirefoxSidebar.ValidPromptsCounts | souffleur_firefox/sidebar/sidebar.js:477 | the import keeps each non-null record with string title and text exactly as often as the file holds it, and nothing else |
| FirefoxSidebar.ValidPromptsMembers | souffleur_firefox/sidebar/sidebar.js:477 | a record is imported if and only if the file holds it and its title and text are strings |
| FirefoxSidebar.ValidPromptsInOrder | souffleur_firefox/sidebar/sidebar.js:477 | the imported records keep their order in the file |
| FirefoxSidebar.ValidPromptsOfWellFormed | souffleur_firefox/sidebar/sidebar.js:477-482 | importing a list of valid records gives back the same list |
| FirefoxSidebar.ImportKeepsOnlyCompleteRecords | souffleur_firefox/sidebar/sidebar.js:477 | a record without text is dropped (so such a file imports as []); records with empty strings are kept; `null` entries are dropped |
| FirefoxSidebar.Edited | souffleur_firefox/sidebar/sidebar.js:187 | the saved record keeps its id and takes the new title and text |
| FirefoxSidebar.Reordered | souffleur_firefox/sidebar/sidebar.js:319-327 | a drop keeps the length and the multiset of the list |
| FirefoxSidebar.ReorderedIsMove | souffleur_firefox/sidebar/sidebar.js:319-344 | for indices inside the list a drop is the single-element move: the item lands at the target and the others keep their order |
| FirefoxSidebar.Sidebar.constructor | souffleur_firefox/sidebar/sidebar.js:2-3 | empty list, form closed, no drag |
| FirefoxSidebar.Sidebar.LoadPrompts | souffleur_firefox/sidebar/sidebar.js:8-23 | the list becomes the stored one, or [] when absent or when the read fails; drag state is fresh after a successful read |
| FirefoxSidebar.Sidebar.CopyText | souffleur_firefox/sidebar/sidebar.js:121-126 | something is copied if and only if the index passes the guard, and it is that record's text |
| FirefoxSidebar.Sidebar.SaveEdit | souffleur_firefox/sidebar/sidebar.js:149-201 | a guarded index replaces exactly that record with `Edited`, then the list is written; any other index changes nothing; valid lists stay valid |
| FirefoxSidebar.Sidebar.Delete | souffleur_firefox/sidebar/sidebar.js:215-233 | a guarded index removes exactly that record and writes the list; any other index changes nothing |
| FirefoxSidebar.Sidebar.DragStart | souffleur_firefox/sidebar/sidebar.js:247-264 | a drag on an item records it and its index; elsewhere nothing changes |
| FirefoxSidebar.Sidebar.DragEnd | souffleur_firefox/sidebar/sidebar.js:267-275 | the drag state is cleared |
| FirefoxSidebar.Sidebar.Drop | souffleur_firefox/sidebar/sidebar.js:293-358 | an accepted drop replaces the list by `Reordered` and writes it only when the indices differ; rejected drops leave list and store alone; the dragged item is always released |
| FirefoxSidebar.Sidebar.AddPromptToggle | souffleur_firefox/sidebar/sidebar.js:395-444 | the first click opens the form; a later one prepends the record with trimmed title and text when both are non-empty and writes the list; the form closes only after a successful write |
| FirefoxSidebar.Sidebar.Import | souffleur_firefox/sidebar/sidebar.js:464-511 | a parse error or a non-array changes neither list nor store; an array replaces the list with `ValidPrompts` and writes it; the alert tells which happened |
| FirefoxSidebar.Sidebar.ExportData | souffleur_firefox/sidebar/sidebar.js:517-538 | the exported array is the list itself, and importing it gives back the list whenever its records are valid |
| LegacySidebar.SpliceMove | sidebar/sidebar.js:192-201 | the two splices keep length and multiset, and give up exactly when the start resolves past the end |
| LegacySidebar.SpliceMoveIsMove | sidebar/sidebar.js:192-201 | for indices inside the list the two splices are the single-element move, and dropping in place changes nothing |
| LegacySidebar.RendersPrepended | sidebar/sidebar.js:14-27 | prepending a record with text leaves unchanged whether `renderPrompts` completes: the older records decide it |
| LegacySidebar.ImportAlert | sidebar/sidebar.js:279-291 | a syntax error gives the error alert; the success alert appears exactly when the write succeeds and the list renders, otherwise none |
| LegacySidebar.ExportReimports | sidebar/sidebar.js:283-285 | a list of valid records, exported and imported again, is reported as a success once the write succeeds |
| LegacySidebar.TextlessImportShowsNoAlert | sidebar/sidebar.js:283-286 | the file `[{"title":"X"}]` written successfully shows no alert, since the render before it throws |
| LegacySidebar.Sidebar.constructor | sidebar/sidebar.js:1-2 | empty list, form closed, no drag |
| LegacySidebar.Sidebar.LoadPrompts | sidebar/sidebar.js:5-11 | a successful read installs the stored list or []; the drag state is fresh only when that list renders; a failed read changes nothing |
| LegacySidebar.Sidebar.CopyText | sidebar/sidebar.js:56-58 | an index inside the list copies that record's text; past the end nothing is copied |
| LegacySidebar.Sidebar.SaveEdit | sidebar/sidebar.js:69-104 | an index inside the list replaces that record by `{title, text}` without id and writes the list; past the end nothing changes |
| LegacySidebar.Sidebar.Delete | sidebar/sidebar.js:113-121 | removes the record at an index inside the list, nothing otherwise, and writes the list in both cases |
| LegacySidebar.Sidebar.DragStart | sidebar/sidebar.js:130-139 | a drag on an item records it and its index; elsewhere the dragged item is cleared and the index kept |
| LegacySidebar.Sidebar.DragEnd | sidebar/sidebar.js:141-149 | the drag state is cleared |
| LegacySidebar.Sidebar.Drop | sidebar/sidebar.js:164-221 | an accepted drop replaces the list by `SpliceMove`, writes it (even for equal indices) and clears the drag; every early return leaves list, store and drag state unchanged |
| LegacySidebar.Sidebar.AddPromptToggle | sidebar/sidebar.js:245-268 | the first click opens the form; a later one prepends the untrimmed record when both inputs are non-empty and writes; the form closes only after a successful write whose render completes, i.e. when every record has a text |
| LegacySidebar.Sidebar.Import | sidebar/sidebar.js:275-295 | parsed JSON replaces the list unchecked and is written; a syntax error changes nothing; the alert is `ImportAlert` |
| LegacySidebar.Sidebar.ExportData | sidebar/sidebar.js:298-308 | the exported array is the list itself; importing it restores the list, with the success alert exactly when the list renders |
| FirefoxContent.CacheAfter | souffleur_firefox/content.js:142-164 | the cache becomes the reply's list when an answer arrives, and [] on `lastError`, a missing answer or a failed send |
| FirefoxContent.EnterCopies | souffleur_firefox/content.js:363-373 | Enter copies if and only if an item is highlighted and its stored text is non-empty, and then copies that text |
| FirefoxContent.EnterOnMissingTextCopiesUndefined | souffleur_firefox/content.js:369 | for a record without text the guard passes and "undefined" is copied |
| FirefoxContent.EnterNeedsSelection | souffleur_firefox/content.js:367-369 | with no highlight, or an empty text, nothing is copied |
| FirefoxContent.Spotlight.constructor | souffleur_firefox/content.js:2-8 | empty cache and results, nothing highlighted, hidden |
| FirefoxContent.Spotlight.RenderResults | souffleur_firefox/content.js:251-300 | the results become the given list and the highlight is cleared |
| FirefoxContent.Spotlight.FilterAndRender | souffleur_firefox/content.js:230-245 | the results become `FilterPrompts` of the cache and the highlight is cleared |
| FirefoxContent.Spotlight.Show | souffleur_firefox/content.js:108-141 | visible, search box cleared, focused element remembered; results untouched until the reply |
| FirefoxContent.Spotlight.ReceivePrompts | souffleur_firefox/content.js:142-164 | the cache becomes `CacheAfter` of the delivery and is rendered in full with nothing highlighted |
| FirefoxContent.Spotlight.Hide | souffleur_firefox/content.js:178-201 | hidden, nothing highlighted, the remembered element released |
| FirefoxContent.Spotlight.Toggle | souffleur_firefox/content.js:207-224 | visibility flips; hiding clears the highlight and releases the remembered element but keeps the query; showing remembers the focused element and clears the query but keeps the highlight; cache and results are untouched |
| FirefoxContent.Spotlight.OnInput | souffleur_firefox/content.js:70-72 | the results become the cache filtered by the new query, nothing highlighted |
| FirefoxContent.Spotlight.Navigate | souffleur_firefox/content.js:320-340 | no results: no change; otherwise the highlight moves as `Selection.Navigate` says and stays on an item |
| FirefoxContent.Spotlight.SelectResultItem | souffleur_firefox/content.js:346-358 | an index naming an item becomes the highlight; any other index changes nothing |
| FirefoxContent.Spotlight.SelectPrompt | souffleur_firefox/content.js:379-383 | the given text is copied and the overlay closes |
| FirefoxContent.Spotlight.SelectCurrentPrompt | souffleur_firefox/content.js:363-373 | copies exactly `EnterCopies` of the results and highlight and then closes; with nothing to copy nothing changes |
| FirefoxContent.Spotlight.ClickResult | souffleur_firefox/content.js:289-291 | the clicked item's text, even empty, is copied and the overlay closes |
| FirefoxContent.Spotlight.HandleBackgroundMessage | souffleur_firefox/content.js:446-456 | "toggleSpotlight" has exactly `Toggle`'s effect (hiding clears the highlight and the remembered element, showing remembers it and clears the query); any other action changes nothing |
| LegacyContent.CacheOnLoad | content.js:10-12 | the stored list, or [] when absent |
| LegacyContent.EnterCopies | content.js:258-264 | Enter copies if and only if an item is highlighted, whatever its text |
| LegacyContent.EnterCopiesRenderedText | content.js:185-211 | every rendered item is the cache's record at the same place and has a text, which is what Enter copies |
| LegacyContent.WellFormedCacheRendersFully | content.js:154-212 | on a cache of valid records every record is rendered and the original filter agrees with the newer one |
| LegacyContent.Spotlight.constructor | content.js:1-7 | empty cache and results, nothing highlighted, hidden |
| LegacyContent.Spotlight.LoadCache | content.js:10-12 | a successful read installs `CacheOnLoad`; a failed one keeps the cache |
| LegacyContent.Spotlight.RenderResults | content.js:173-212 | the results become `LegacyRendered` of the list and the highlight is cleared |
| LegacyContent.Spotlight.FilterAndRender | content.js:154-170 | a filter that succeeds is rendered with nothing highlighted; one that throws leaves results and highlight as they were |
| LegacyContent.Spotlight.Show | content.js:82-112 | visible, focused element remembered, the whole cache rendered as far as `LegacyRendered` goes |
| LegacyContent.Spotlight.Hide | content.js:115-131 | hidden and nothing highlighted; the remembered element is kept |
| LegacyContent.Spotlight.Toggle | content.js:134-151 | visibility flips and the highlight is cleared both ways; showing remembers the focused element and re-renders the cache, hiding keeps the results and the element |
| LegacyContent.Spotlight.OnInput | content.js:53-55 | as `FilterAndRender` with the new query |
| LegacyContent.Spotlight.Navigate | content.js:223-242 | no results: no change; otherwise the highlight moves as `Selection.Navigate` says |
| LegacyContent.Spotlight.SelectResultItem | content.js:245-255 | the hovered rendered item becomes the highlight; the index bound is the one the mouse-over call site (content.js:206-208) guarantees, not a check of the function's |
| LegacyContent.Spotlight.SelectPrompt | content.js:267-271 | the given text is copied and the overlay closes |
| LegacyContent.Spotlight.SelectCurrentPrompt | content.js:258-264 | copies exactly `EnterCopies` of the results and highlight and closes; otherwise nothing changes |
| LegacyContent.Spotlight.ClickResult | content.js:202-204 | the clicked item's text is copied and the overlay closes |
| LegacyContent.Spotlight.HandleMessage | content.js:322-330 | "toggleSpotlight" has exactly `Toggle`'s effect (highlight cleared; showing re-renders the cache and remembers the element); every message is answered with success |

## Left out

- DOM construction and rendering: markup, CSS injection, "Copied!" labels
  and messages, recreating a removed overlay, the "already editing" guard.
  These concern presentation, not the list or the overlay's state.
- Timers: the delays before showing, focusing, restoring focus and
  hiding. The model applies each delayed step at once, so interleavings
  within those delays are not modelled. This includes the newer overlay
  releasing the remembered element only after focus has gone back to it.
- The one-shot mousedown guard and the click-outside-to-close listener.
  They are DOM event plumbing; the close they trigger is `Hide`.
- Concurrency between the sidebar, the overlays and the background script
  racing on one stored list. Each operation is modelled as atomic.
- FirefoxSidebar.Sidebar.SaveEdit, LegacySidebar.Sidebar.SaveEdit: the
  edit click and the Save click are one step, and the index is checked
  when Save runs. In the source the index is checked only when the edit
  form opens. Save then writes `promptList[index]` unchecked. If the list
  shrinks in between without a re-render, Save writes past the end and
  extends the array; the model changes nothing for that index. Two cases
  shrink the list this way: a newer import whose write fails, and an
  original-sidebar delete whose write fails.
- Clipboard, file reading, JSON text, download links: the text handed to
  the clipboard and the parsed import value are inputs and outputs; whether
  the clipboard write succeeds is not modelled.
- The legacy overlay's fallback that asks the background script to copy.
  The background side of it is `LegacyBackground.HandleMessage`.
- `getDragAfterElement` and the dragover re-positioning: pointer
  geometry. The drop's resulting DOM index is an input.
- Generated ids (`Date.now()` and `Math.random()`): an input `freshId`.
- Field values other than a string or missing (numbers, `null`, objects),
  and a legacy import of JSON that is not an array of records: the model's
  records have string-or-missing fields only.
- Because storage always holds an array in the model, the newer export's
  `Array.isArray` fallback to [] is unreachable and not modelled.
- After a legacy render throws, it also fails to attach the sidebar's
  button listeners and the drag listeners. The model tracks what the
  throw skips in the list, the form, the alert and the drag state, not
  which listeners exist.
- Text.Lower: lower-cases ASCII letters only, whereas JavaScript's
  `toLowerCase` maps all of Unicode.
- Text.Truncate, Text.TruncateValue: lengths and prefixes are counted in
  characters of `string`, whereas JavaScript's `length` and `substring`
  count UTF-16 code units; the two differ on text outside the Basic
  Multilingual Plane.
- The action-icon click listeners (souffleur_firefox/background.js:149-158,
  background.js:72) and Chrome's `setPanelBehavior` on install
  (souffleur_chrome/background.js:41-53). Each is a single browser call
  with no state of the extension involved.
- Logging, and build configuration such as `web-ext.config.js`.
