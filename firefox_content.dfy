/** The newer in-page overlay (souffleur_firefox/content.js): a search box
    over a cache of prompts that is fetched from the background script each
    time the overlay opens, a result list with a highlighted entry, and
    copy-on-select. */
module FirefoxContent {
  import opened Values
  import opened Text
  import opened Search
  import opened Selection
  import Background

  /** How the `getPrompts` request sent by `showSpotlight` ends: an answer
      (`None` when the background sent nothing), an answer with
      `runtime.lastError` set, or a rejected `sendMessage`. */
  datatype Delivery = Answered(reply: Option<Background.Reply>) | LastError | SendFailed

  /** The cache after a delivery: the reply's list when there is one, []
      otherwise. An error reported inside the reply is not looked at. */
  function CacheAfter(d: Delivery): (r: seq<Prompt>)
    ensures d.Answered? && d.reply.Some? ==> r == d.reply.value.prompts
    ensures !(d.Answered? && d.reply.Some?) ==> r == []
  {
    if d.Answered? && d.reply.Some? then d.reply.value.prompts else []
  }

  /** The value of the highlighted item's `data-text` attribute when Enter
      copies it: an item must be highlighted and the attribute, the text
      as `setAttribute` stringifies it, must be non-empty. */
  function EnterCopies(results: seq<Prompt>, sel: int): (r: Option<string>)
    ensures r.Some? <==> 0 <= sel < |results| && JsString(results[sel].text) != ""
    ensures r.Some? ==> r.value == JsString(results[sel].text)
    ensures r.Some? && results[sel].text.Str? ==> r.value == results[sel].text.s
  {
    if 0 <= sel < |results| && JsString(results[sel].text) != "" then Some(JsString(results[sel].text))
    else None
  }

  /** The `if (text)` guard only rules out an empty text: a record without
      text is stored as the attribute "undefined", which Enter copies. */
  lemma EnterOnMissingTextCopiesUndefined(results: seq<Prompt>, sel: nat)
    requires sel < |results| && results[sel].text.Absent?
    ensures EnterCopies(results, sel) == Some("undefined")
  {
  }

  /** Enter copies nothing while no item is highlighted or the highlighted
      text is empty. */
  lemma EnterNeedsSelection(results: seq<Prompt>, sel: int)
    requires sel < 0 || sel >= |results| || results[sel].text == Str("")
    ensures EnterCopies(results, sel).None?
  {
  }

  class Spotlight {
    /** `promptList`, the in-memory cache. */
    var promptList: seq<Prompt>
    /** The prompts currently rendered as result items, in order. */
    var results: seq<Prompt>
    var selectedIndex: int
    var isSpotlightVisible: bool
    var previousActiveElement: Option<ElementRef>
    /** The search box's value. */
    var query: string

    /** The highlighted index is -1 or names a rendered item. */
    predicate Valid()
      reads this
    {
      -1 <= selectedIndex < |results|
    }

    constructor ()
      ensures Valid()
      ensures promptList == [] && results == [] && selectedIndex == -1
      ensures !isSpotlightVisible && previousActiveElement.None? && query == ""
    {
      promptList, results, selectedIndex := [], [], -1;
      isSpotlightVisible, previousActiveElement, query := false, None, "";
    }

    /** `renderResults(prompts)`: the list becomes the result items and the
        highlight is cleared. */
    method RenderResults(prompts: seq<Prompt>)
      modifies this
      ensures Valid()
      ensures results == prompts && selectedIndex == -1
      ensures promptList == old(promptList) && isSpotlightVisible == old(isSpotlightVisible)
      ensures previousActiveElement == old(previousActiveElement) && query == old(query)
    {
      results, selectedIndex := prompts, -1;
    }

    /** `filterPrompts(q)`: renders the cache filtered by `q`. */
    method FilterAndRender(q: string)
      modifies this
      ensures Valid()
      ensures results == FilterPrompts(promptList, q) && selectedIndex == -1
      ensures promptList == old(promptList) && isSpotlightVisible == old(isSpotlightVisible)
      ensures previousActiveElement == old(previousActiveElement) && query == old(query)
    {
      RenderResults(FilterPrompts(promptList, q));
    }

    /** `showSpotlight()` up to sending `getPrompts`: remembers the focused
        element, clears the search box and marks the overlay visible. The
        cache and the results change when the reply arrives. */
    method Show(active: Option<ElementRef>)
      modifies this
      requires Valid()
      ensures Valid()
      ensures isSpotlightVisible && previousActiveElement == active && query == ""
      ensures promptList == old(promptList) && results == old(results) && selectedIndex == old(selectedIndex)
    {
      previousActiveElement := active;
      query := "";
      isSpotlightVisible := true;
    }

    /** The `then`/`catch` of the `getPrompts` request: the cache is
        replaced and rendered in full, whatever the search box holds. */
    method ReceivePrompts(d: Delivery)
      modifies this
      ensures Valid()
      ensures promptList == CacheAfter(d) && results == promptList && selectedIndex == -1
      ensures isSpotlightVisible == old(isSpotlightVisible)
      ensures previousActiveElement == old(previousActiveElement) && query == old(query)
    {
      promptList := CacheAfter(d);
      FilterAndRender("");
    }

    /** `hideSpotlight()`: hidden, nothing highlighted, and the remembered
        element released once focus goes back to it. */
    method Hide()
      modifies this
      ensures Valid()
      ensures !isSpotlightVisible && selectedIndex == -1 && previousActiveElement.None?
      ensures promptList == old(promptList) && results == old(results) && query == old(query)
    {
      isSpotlightVisible, selectedIndex, previousActiveElement := false, -1, None;
    }

    /** `toggleSpotlight()`: hides a visible overlay, shows a hidden one. */
    method Toggle(active: Option<ElementRef>)
      modifies this
      requires Valid()
      ensures Valid()
      ensures isSpotlightVisible == !old(isSpotlightVisible)
      ensures old(isSpotlightVisible) ==>
        selectedIndex == -1 && previousActiveElement.None? && query == old(query)
      ensures !old(isSpotlightVisible) ==>
        previousActiveElement == active && query == "" && selectedIndex == old(selectedIndex)
      ensures promptList == old(promptList) && results == old(results)
    {
      if isSpotlightVisible {
        Hide();
      } else {
        Show(active);
      }
    }

    /** The "input" listener. */
    method OnInput(q: string)
      modifies this
      ensures Valid()
      ensures query == q && results == FilterPrompts(promptList, q) && selectedIndex == -1
      ensures promptList == old(promptList) && isSpotlightVisible == old(isSpotlightVisible)
      ensures previousActiveElement == old(previousActiveElement)
    {
      query := q;
      FilterAndRender(q);
    }

    /** `navigateResults(direction)`: with no items nothing happens;
        otherwise the highlight moves by one, wrapping at both ends. */
    method Navigate(dir: Direction)
      modifies this
      requires Valid()
      ensures Valid()
      ensures |results| == 0 ==> selectedIndex == old(selectedIndex)
      ensures |results| > 0 ==> selectedIndex == Selection.Navigate(dir, old(selectedIndex), |results|)
      ensures |results| > 0 ==> 0 <= selectedIndex
      ensures promptList == old(promptList) && results == old(results)
      ensures isSpotlightVisible == old(isSpotlightVisible)
      ensures previousActiveElement == old(previousActiveElement) && query == old(query)
    {
      if |results| == 0 {
        return;
      }
      selectedIndex := Selection.Navigate(dir, selectedIndex, |results|);
    }

    /** `selectResultItem(index)`: an index outside the items leaves the
        highlight alone. */
    method SelectResultItem(index: int)
      modifies this
      requires Valid()
      ensures Valid()
      ensures selectedIndex == if 0 <= index < |results| then index else old(selectedIndex)
      ensures promptList == old(promptList) && results == old(results)
      ensures isSpotlightVisible == old(isSpotlightVisible)
      ensures previousActiveElement == old(previousActiveElement) && query == old(query)
    {
      if |results| == 0 || index < 0 || index >= |results| {
        return;
      }
      selectedIndex := index;
    }

    /** `selectPrompt(text)`: the text goes to the clipboard and the
        overlay closes. */
    method SelectPrompt(text: string) returns (copied: string)
      modifies this
      ensures Valid()
      ensures copied == text
      ensures !isSpotlightVisible && selectedIndex == -1 && previousActiveElement.None?
      ensures promptList == old(promptList) && results == old(results) && query == old(query)
    {
      copied := text;
      Hide();
    }

    /** The "Enter" key, `selectCurrentPrompt()`: copies the highlighted
        item's text and closes the overlay; with nothing to copy nothing
        happens. */
    method SelectCurrentPrompt() returns (copied: Option<string>)
      modifies this
      requires Valid()
      ensures Valid()
      ensures copied == EnterCopies(old(results), old(selectedIndex))
      ensures copied.Some? ==> !isSpotlightVisible && selectedIndex == -1 && previousActiveElement.None?
      ensures copied.None? ==> isSpotlightVisible == old(isSpotlightVisible) && selectedIndex == old(selectedIndex) &&
                               previousActiveElement == old(previousActiveElement)
      ensures promptList == old(promptList) && results == old(results) && query == old(query)
    {
      copied := EnterCopies(results, selectedIndex);
      if copied.Some? {
        var _ := SelectPrompt(copied.value);
      }
    }

    /** A click on the result item at `index`: its text is copied even when
        it is empty, and the overlay closes. */
    method ClickResult(index: nat) returns (copied: string)
      modifies this
      requires index < |results|
      ensures Valid()
      ensures copied == JsString(old(results)[index].text)
      ensures !isSpotlightVisible && selectedIndex == -1 && previousActiveElement.None?
      ensures promptList == old(promptList) && results == old(results) && query == old(query)
    {
      copied := SelectPrompt(JsString(results[index].text));
    }

    /** `handleBackgroundMessage`: "toggleSpotlight" toggles the overlay,
        any other action is ignored; no response is sent. */
    method HandleBackgroundMessage(action: string, active: Option<ElementRef>)
      modifies this
      requires Valid()
      ensures Valid()
      ensures action == "toggleSpotlight" ==> isSpotlightVisible == !old(isSpotlightVisible)
      ensures action == "toggleSpotlight" && old(isSpotlightVisible) ==>
        selectedIndex == -1 && previousActiveElement.None? && query == old(query)
      ensures action == "toggleSpotlight" && !old(isSpotlightVisible) ==>
        previousActiveElement == active && query == "" && selectedIndex == old(selectedIndex)
      ensures action != "toggleSpotlight" ==>
        (isSpotlightVisible == old(isSpotlightVisible) && selectedIndex == old(selectedIndex) &&
         previousActiveElement == old(previousActiveElement) && query == old(query))
      ensures promptList == old(promptList) && results == old(results)
    {
      if action == "toggleSpotlight" {
        Toggle(active);
      }
    }
  }
}
