/** The original sidebar page (sidebar/sidebar.js): the same editor as the
    newer one with fewer guards. Indices come from the rendered buttons,
    records are stored without an id, inputs are not trimmed and an import
    is installed without any validation. */
module LegacySidebar {
  import opened Values
  import opened Lists
  import opened Storage

  /** The list after `promptList.splice(from, 1)` and, when that removed an
      element, `promptList.splice(to, 0, item)`; `None` when nothing was
      removed (the handler then gives up). */
  function SpliceMove(s: seq<Prompt>, from: int, to: int): (r: Option<seq<Prompt>>)
    ensures r.None? <==> SpliceStart(from, |s|) == |s|
    ensures r.Some? ==> |r.value| == |s| && multiset(r.value) == multiset(s)
  {
    var removed := SpliceRemoveOne(s, from);
    match removed.0
    case None => None
    case Some(item) => Some(SpliceInsert(removed.1, to, item))
  }

  /** For indices inside the list the two splices are a single-element
      move, and dropping an item where it started changes nothing. */
  lemma SpliceMoveIsMove(s: seq<Prompt>, from: nat, to: nat)
    requires from < |s| && to < |s|
    ensures SpliceMove(s, from, to) == Some(Move(s, from, to))
    ensures from == to ==> SpliceMove(s, from, to) == Some(s)
  {
    if from == to { MoveToSelf(s, from); }
  }

  /** `renderPrompts()` runs to its end: `truncateText(prompt.text)` reads
      `text.length`, which throws on the first record without text. The
      steps after a render in the same callback run only when it does. */
  predicate Renders(ps: seq<Prompt>) {
    forall k :: 0 <= k < |ps| ==> ps[k].text.Str?
  }

  /** Prepending a record with text does not change whether the list
      renders. */
  lemma RendersPrepended(p: Prompt, ps: seq<Prompt>)
    requires p.text.Str?
    ensures Renders([p] + ps) <==> Renders(ps)
  {
    if Renders(ps) {
      forall k | 0 <= k < |[p] + ps| ensures ([p] + ps)[k].text.Str? {
        if k > 0 { assert ([p] + ps)[k] == ps[k - 1]; }
      }
    }
    if Renders([p] + ps) {
      forall k | 0 <= k < |ps| ensures ps[k].text.Str? {
        assert ps[k] == ([p] + ps)[k + 1];
      }
    }
  }

  /** What the import handler shows the user. */
  datatype Alert = NoAlert | ImportSucceeded | ImportParseFailed

  /** The alert after an import: a syntax error is reported; the success
      alert follows the write and then `renderPrompts()`, so it appears
      only when the write succeeds and the list renders. */
  function ImportAlert(parsed: Option<seq<Prompt>>, writeOk: bool): (a: Alert)
    ensures a == ImportParseFailed <==> parsed.None?
    ensures a == ImportSucceeded <==> parsed.Some? && writeOk && Renders(parsed.value)
  {
    if parsed.None? then ImportParseFailed
    else if writeOk && Renders(parsed.value) then ImportSucceeded
    else NoAlert
  }

  /** A list the sidebar itself wrote, exported and imported again, is
      reported as a success once the write succeeds. */
  lemma ExportReimports(ps: seq<Prompt>)
    requires forall p :: p in ps ==> WellFormed(p)
    ensures ImportAlert(Some(ps), true) == ImportSucceeded
  {
    forall k | 0 <= k < |ps| ensures ps[k].text.Str? {
      assert ps[k] in ps;
    }
  }

  /** A file whose record has no text is written, but the render that
      precedes the alert throws, so no alert appears. */
  lemma TextlessImportShowsNoAlert()
    ensures ImportAlert(Some([Prompt(Absent, Str("X"), Absent)]), true) == NoAlert
  {
    assert ![Prompt(Absent, Str("X"), Absent)][0].text.Str?;
  }

  class Sidebar {
    var promptList: seq<Prompt>
    var isAddingPrompt: bool
    /** `draggedItem !== null` and `dragStartIndex`, the drag listeners'
        state. */
    var hasDraggedItem: bool
    var dragStartIndex: int

    constructor ()
      ensures promptList == [] && !isAddingPrompt
      ensures !hasDraggedItem && dragStartIndex == -1
    {
      promptList, isAddingPrompt := [], false;
      hasDraggedItem, dragStartIndex := false, -1;
    }

    /** `loadPrompts()`: the stored list or [] after a successful read;
        fresh drag listeners are attached after the render, so only when
        the list renders. A failed read is not handled and changes
        nothing. */
    method LoadPrompts(read: ReadResult)
      modifies this
      ensures read.ReadOk? ==> promptList == (if read.stored.Some? then read.stored.value else [])
      ensures read.ReadOk? && Renders(promptList) ==> !hasDraggedItem && dragStartIndex == -1
      ensures read.ReadFailed? ==> promptList == old(promptList)
      ensures read.ReadFailed? || !Renders(promptList) ==>
        hasDraggedItem == old(hasDraggedItem) && dragStartIndex == old(dragStartIndex)
      ensures isAddingPrompt == old(isAddingPrompt)
    {
      if read.ReadOk? {
        promptList := if read.stored.Some? then read.stored.value else [];
        if Renders(promptList) {
          hasDraggedItem, dragStartIndex := false, -1;
        }
      }
    }

    /** The copy button: `promptList[index].text` handed to the clipboard;
        `None` for an index past the end, where reading `.text` throws. */
    function CopyText(index: nat): (r: Option<string>)
      reads this
      ensures r.Some? <==> index < |promptList|
      ensures r.Some? ==> r.value == JsString(promptList[index].text)
    {
      if index < |promptList| then Some(JsString(promptList[index].text)) else None
    }

    /** The edit button followed by Save: the entry at `index` is replaced
        by `{title, text}` (its id is dropped) and the list is written. An
        index past the end makes the form throw before it opens. */
    method SaveEdit(index: nat, newTitle: string, newText: string, store: Store, writeOk: bool)
      modifies this, store
      ensures index < |old(promptList)| ==>
        promptList == old(promptList)[index := Prompt(Absent, Str(newTitle), Str(newText))] &&
        store.prompts == if writeOk then Some(promptList) else old(store.prompts)
      ensures index >= |old(promptList)| ==> promptList == old(promptList) && store.prompts == old(store.prompts)
      ensures isAddingPrompt == old(isAddingPrompt)
      ensures hasDraggedItem == old(hasDraggedItem) && dragStartIndex == old(dragStartIndex)
    {
      if index < |promptList| {
        promptList := promptList[index := Prompt(Absent, Str(newTitle), Str(newText))];
        store.Set(promptList, writeOk);
      }
    }

    /** The delete button: `promptList.splice(index, 1)`, then the list is
        written even when nothing was removed. */
    method Delete(index: nat, store: Store, writeOk: bool)
      modifies this, store
      ensures index < |old(promptList)| ==> promptList == RemoveAt(old(promptList), index)
      ensures index >= |old(promptList)| ==> promptList == old(promptList)
      ensures store.prompts == if writeOk then Some(promptList) else old(store.prompts)
      ensures isAddingPrompt == old(isAddingPrompt)
      ensures hasDraggedItem == old(hasDraggedItem) && dragStartIndex == old(dragStartIndex)
    {
      promptList := SpliceRemoveOne(promptList, index).1;
      store.Set(promptList, writeOk);
    }

    /** The "dragstart" listener: `draggedItem` is set first, so a drag that
        did not start on an item (`None`) clears it and then throws before
        the index is read. */
    method DragStart(index: Option<nat>)
      modifies this
      ensures hasDraggedItem == index.Some?
      ensures dragStartIndex == if index.Some? then index.value else old(dragStartIndex)
      ensures promptList == old(promptList) && isAddingPrompt == old(isAddingPrompt)
    {
      hasDraggedItem := index.Some?;
      if index.Some? {
        dragStartIndex := index.value;
      }
    }

    /** The "dragend" listener. */
    method DragEnd()
      modifies this
      ensures !hasDraggedItem && dragStartIndex == -1
      ensures promptList == old(promptList) && isAddingPrompt == old(isAddingPrompt)
    {
      hasDraggedItem, dragStartIndex := false, -1;
    }

    /** The "drop" listener; `newIndex` is the dragged element's position
        among the list's children, -1 when absent. Without a drag in
        progress, with `newIndex == -1`, or when the first splice removes
        nothing, the handler returns with its state as it was; otherwise
        the moved list is written and the drag state reset, even when the
        indices are equal. */
    method Drop(newIndex: int, store: Store, writeOk: bool)
      modifies this, store
      ensures var moved := SpliceMove(old(promptList), old(dragStartIndex), newIndex);
        var accepted := old(dragStartIndex) != -1 && old(hasDraggedItem) && newIndex != -1 && moved.Some?;
        promptList == (if accepted then moved.value else old(promptList)) &&
        store.prompts == (if accepted && writeOk then Some(promptList) else old(store.prompts)) &&
        (accepted ==> !hasDraggedItem && dragStartIndex == -1) &&
        (!accepted ==> hasDraggedItem == old(hasDraggedItem) && dragStartIndex == old(dragStartIndex))
      ensures isAddingPrompt == old(isAddingPrompt)
      ensures multiset(promptList) == multiset(old(promptList))
    {
      if dragStartIndex == -1 || !hasDraggedItem {
        return;
      }
      if newIndex == -1 {
        return;
      }
      var moved := SpliceMove(promptList, dragStartIndex, newIndex);
      if moved.None? {
        return;
      }
      promptList := moved.value;
      store.Set(promptList, writeOk);
      hasDraggedItem, dragStartIndex := false, -1;
    }

    /** The add button: the first click opens the form; a later click with
        both inputs non-empty (untrimmed) prepends `{title, text}` and
        writes the list. The form closes after the write's render, so only
        when the write succeeds and every record of the new list has a
        text; `RendersPrepended` says the older records decide that. */
    method AddPromptToggle(title: string, text: string, store: Store, writeOk: bool)
      modifies this, store
      ensures var saves := old(isAddingPrompt) && title != "" && text != "";
        promptList == (if saves then [Prompt(Absent, Str(title), Str(text))] + old(promptList) else old(promptList)) &&
        store.prompts == (if saves && writeOk then Some(promptList) else old(store.prompts)) &&
        isAddingPrompt == !(saves && writeOk && Renders(promptList))
      ensures hasDraggedItem == old(hasDraggedItem) && dragStartIndex == old(dragStartIndex)
    {
      if !isAddingPrompt {
        isAddingPrompt := true;
      } else if title != "" && text != "" {
        promptList := [Prompt(Absent, Str(title), Str(text))] + promptList;
        store.Set(promptList, writeOk);
        if writeOk && Renders(promptList) {
          isAddingPrompt := false;
        }
      }
    }

    /** The `reader.onload` of the import: the parsed array replaces the
        list as it is and is written; `None` (a JSON syntax error) changes
        nothing. The alert is `ImportAlert`. */
    method Import(parsed: Option<seq<Prompt>>, store: Store, writeOk: bool) returns (alert: Alert)
      modifies this, store
      ensures parsed.Some? ==> promptList == parsed.value
      ensures parsed.Some? ==> store.prompts == if writeOk then Some(parsed.value) else old(store.prompts)
      ensures parsed.None? ==> promptList == old(promptList) && store.prompts == old(store.prompts)
      ensures alert == ImportAlert(parsed, writeOk)
      ensures isAddingPrompt == old(isAddingPrompt)
      ensures hasDraggedItem == old(hasDraggedItem) && dragStartIndex == old(dragStartIndex)
    {
      if parsed.None? {
        alert := ImportParseFailed;
        return;
      }
      promptList := parsed.value;
      store.Set(promptList, writeOk);
      alert := if writeOk && Renders(promptList) then ImportSucceeded else NoAlert;
    }

    /** The export button: `JSON.stringify(promptList)`, the list itself,
        so importing the file sets the list back to what it was. */
    function ExportData(): (r: seq<Prompt>)
      reads this
      ensures r == promptList
      ensures ImportAlert(Some(r), true) == ImportSucceeded <==> Renders(promptList)
    {
      promptList
    }
  }
}
