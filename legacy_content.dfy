/** The original in-page overlay (content.js): the cache is read from
    storage once, when the script loads; the filter and the renderer assume
    every record has a string title and text, and stop with a TypeError
    where one does not. */
module LegacyContent {
  import opened Values
  import opened Search
  import opened Selection
  import opened Storage

  /** The cache after the load-time read: the stored list or [] when the
      read succeeds; a failed read is not handled and leaves the initial
      []. */
  function CacheOnLoad(read: ReadResult): (r: seq<Prompt>)
    ensures read.ReadOk? && read.stored.Some? ==> r == read.stored.value
    ensures !(read.ReadOk? && read.stored.Some?) ==> r == []
  {
    if read.ReadOk? && read.stored.Some? then read.stored.value else []
  }

  /** What Enter copies: the highlighted item's text, empty or not. */
  function EnterCopies(results: seq<Prompt>, sel: int): (r: Option<string>)
    ensures r.Some? <==> 0 <= sel < |results|
    ensures r.Some? ==> r.value == JsString(results[sel].text)
  {
    if 0 <= sel < |results| then Some(JsString(results[sel].text)) else None
  }

  /** The rendered items always carry a string text, so what Enter copies
      from them is that text itself. */
  lemma EnterCopiesRenderedText(ps: seq<Prompt>, sel: nat)
    requires sel < |LegacyRendered(ps)|
    ensures EnterCopies(LegacyRendered(ps), sel) == Some(LegacyRendered(ps)[sel].text.s)
    ensures LegacyRendered(ps)[sel] == ps[sel]
  {
  }

  /** On a cache written by the sidebar every record is rendered and the
      filter agrees with the newer one. */
  lemma {:induction false} WellFormedCacheRendersFully(ps: seq<Prompt>, query: string)
    requires forall p :: p in ps ==> WellFormed(p)
    ensures LegacyRendered(ps) == ps
    ensures LegacyFilterPrompts(ps, query) == Some(FilterPrompts(ps, query))
  {
    forall k | 0 <= k < |ps| ensures ps[k].text.Str? {
      assert ps[k] in ps;
    }
    assert |LegacyRendered(ps)| == |ps|;
    assert ps[..|ps|] == ps;
    LegacyFilterAgrees(ps, query);
  }

  class Spotlight {
    /** `promptList`, the in-memory cache. */
    var promptList: seq<Prompt>
    /** The prompts rendered as result items, in order. */
    var results: seq<Prompt>
    var selectedIndex: int
    var isSpotlightVisible: bool
    var previousActiveElement: Option<ElementRef>

    /** The highlighted index is -1 or names a rendered item. */
    predicate Valid()
      reads this
    {
      -1 <= selectedIndex < |results|
    }

    constructor ()
      ensures Valid()
      ensures promptList == [] && results == [] && selectedIndex == -1
      ensures !isSpotlightVisible && previousActiveElement.None?
    {
      promptList, results, selectedIndex := [], [], -1;
      isSpotlightVisible, previousActiveElement := false, None;
    }

    /** The `then` of the load-time read. */
    method LoadCache(read: ReadResult)
      modifies this
      requires Valid()
      ensures Valid()
      ensures read.ReadOk? ==> promptList == CacheOnLoad(read)
      ensures read.ReadFailed? ==> promptList == old(promptList)
      ensures results == old(results) && selectedIndex == old(selectedIndex)
      ensures isSpotlightVisible == old(isSpotlightVisible) && previousActiveElement == old(previousActiveElement)
    {
      if read.ReadOk? {
        promptList := CacheOnLoad(read);
      }
    }

    /** `renderResults(prompts)`: the highlight is cleared and items are
        created in order until the first record without text, where
        `truncateText` throws. */
    method RenderResults(prompts: seq<Prompt>)
      modifies this
      ensures Valid()
      ensures results == LegacyRendered(prompts) && selectedIndex == -1
      ensures promptList == old(promptList) && isSpotlightVisible == old(isSpotlightVisible)
      ensures previousActiveElement == old(previousActiveElement)
    {
      results, selectedIndex := LegacyRendered(prompts), -1;
    }

    /** `filterPrompts(q)`: a filter that throws leaves the rendered items
        and the highlight untouched. */
    method FilterAndRender(q: string)
      modifies this
      requires Valid()
      ensures Valid()
      ensures var f := LegacyFilterPrompts(promptList, q);
        (f.Some? ==> results == LegacyRendered(f.value) && selectedIndex == -1) &&
        (f.None? ==> results == old(results) && selectedIndex == old(selectedIndex))
      ensures promptList == old(promptList) && isSpotlightVisible == old(isSpotlightVisible)
      ensures previousActiveElement == old(previousActiveElement)
    {
      var filtered := LegacyFilterPrompts(promptList, q);
      if filtered.Some? {
        RenderResults(filtered.value);
      }
    }

    /** `showSpotlight()`: remembers the focused element, becomes visible
        and renders the whole cache. */
    method Show(active: Option<ElementRef>)
      modifies this
      ensures Valid()
      ensures isSpotlightVisible && previousActiveElement == active
      ensures results == LegacyRendered(promptList) && selectedIndex == -1
      ensures promptList == old(promptList)
    {
      previousActiveElement := active;
      isSpotlightVisible := true;
      RenderResults(promptList);
    }

    /** `hideSpotlight()`: hidden and nothing highlighted; the remembered
        element is kept. */
    method Hide()
      modifies this
      ensures Valid()
      ensures !isSpotlightVisible && selectedIndex == -1
      ensures previousActiveElement == old(previousActiveElement)
      ensures promptList == old(promptList) && results == old(results)
    {
      isSpotlightVisible, selectedIndex := false, -1;
    }

    /** `toggleSpotlight()`. */
    method Toggle(active: Option<ElementRef>)
      modifies this
      ensures Valid()
      ensures isSpotlightVisible == !old(isSpotlightVisible)
      ensures selectedIndex == -1
      ensures old(isSpotlightVisible) ==> results == old(results) && previousActiveElement == old(previousActiveElement)
      ensures !old(isSpotlightVisible) ==> results == LegacyRendered(promptList) && previousActiveElement == active
      ensures promptList == old(promptList)
    {
      if isSpotlightVisible {
        Hide();
      } else {
        Show(active);
      }
    }

    /** The "input" listener. */
    method OnInput(q: string)
      modifies this
      requires Valid()
      ensures Valid()
      ensures var f := LegacyFilterPrompts(promptList, q);
        (f.Some? ==> results == LegacyRendered(f.value) && selectedIndex == -1) &&
        (f.None? ==> results == old(results) && selectedIndex == old(selectedIndex))
      ensures promptList == old(promptList) && isSpotlightVisible == old(isSpotlightVisible)
      ensures previousActiveElement == old(previousActiveElement)
    {
      FilterAndRender(q);
    }

    /** `navigateResults(direction)`, as in the newer overlay. */
    method Navigate(dir: Direction)
      modifies this
      requires Valid()
      ensures Valid()
      ensures |results| == 0 ==> selectedIndex == old(selectedIndex)
      ensures |results| > 0 ==> selectedIndex == Selection.Navigate(dir, old(selectedIndex), |results|)
      ensures promptList == old(promptList) && results == old(results)
      ensures isSpotlightVisible == old(isSpotlightVisible) && previousActiveElement == old(previousActiveElement)
    {
      if |results| == 0 {
        return;
      }
      selectedIndex := Selection.Navigate(dir, selectedIndex, |results|);
    }

    /** `selectResultItem(index)`, called only from the mouse-over listener
        of the item at `index`. The function itself checks no more than that
        some item exists; `index < |results|` stands for the bound that this
        one call site guarantees and the function does not check. */
    method SelectResultItem(index: nat)
      modifies this
      requires Valid() && index < |results|
      ensures Valid()
      ensures selectedIndex == index
      ensures promptList == old(promptList) && results == old(results)
      ensures isSpotlightVisible == old(isSpotlightVisible) && previousActiveElement == old(previousActiveElement)
    {
      selectedIndex := index;
    }

    /** `selectPrompt(text)`: the text goes to the clipboard and the
        overlay closes. */
    method SelectPrompt(text: string) returns (copied: string)
      modifies this
      ensures Valid()
      ensures copied == text
      ensures !isSpotlightVisible && selectedIndex == -1
      ensures previousActiveElement == old(previousActiveElement)
      ensures promptList == old(promptList) && results == old(results)
    {
      copied := text;
      Hide();
    }

    /** The "Enter" key: copies the highlighted item's text, if an item is
        highlighted, and closes the overlay. */
    method SelectCurrentPrompt() returns (copied: Option<string>)
      modifies this
      requires Valid()
      ensures Valid()
      ensures copied == EnterCopies(old(results), old(selectedIndex))
      ensures copied.Some? ==> !isSpotlightVisible && selectedIndex == -1
      ensures copied.None? ==> isSpotlightVisible == old(isSpotlightVisible) && selectedIndex == old(selectedIndex)
      ensures promptList == old(promptList) && results == old(results)
      ensures previousActiveElement == old(previousActiveElement)
    {
      copied := EnterCopies(results, selectedIndex);
      if copied.Some? {
        var _ := SelectPrompt(copied.value);
      }
    }

    /** A click on the result item at `index`. */
    method ClickResult(index: nat) returns (copied: string)
      modifies this
      requires index < |results|
      ensures Valid()
      ensures copied == JsString(old(results)[index].text)
      ensures !isSpotlightVisible && selectedIndex == -1
      ensures promptList == old(promptList) && results == old(results)
      ensures previousActiveElement == old(previousActiveElement)
    {
      copied := SelectPrompt(JsString(results[index].text));
    }

    /** The `runtime.onMessage` listener: "toggleSpotlight" toggles the
        overlay; every message is answered `{success: true}`. */
    method HandleMessage(action: string, active: Option<ElementRef>) returns (success: bool)
      modifies this
      requires Valid()
      ensures Valid()
      ensures success
      ensures action == "toggleSpotlight" ==> isSpotlightVisible == !old(isSpotlightVisible) && selectedIndex == -1
      ensures action == "toggleSpotlight" && old(isSpotlightVisible) ==>
        results == old(results) && previousActiveElement == old(previousActiveElement)
      ensures action == "toggleSpotlight" && !old(isSpotlightVisible) ==>
        results == LegacyRendered(promptList) && previousActiveElement == active
      ensures action != "toggleSpotlight" ==>
        (isSpotlightVisible == old(isSpotlightVisible) && selectedIndex == old(selectedIndex) &&
         results == old(results) && previousActiveElement == old(previousActiveElement))
      ensures promptList == old(promptList)
    {
      if action == "toggleSpotlight" {
        Toggle(active);
      }
      success := true;
    }
  }
}
