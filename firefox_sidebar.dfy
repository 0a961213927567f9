/** The newer sidebar page (souffleur_firefox/sidebar/sidebar.js): an
    editor over the in-memory `promptList` that writes the whole list back
    to storage after every change. */
module FirefoxSidebar {
  import opened Values
  import opened Text
  import opened Lists
  import opened Storage

  /** The guard `isNaN(index) || index < 0 || index >= promptList.length`
      of the copy, edit and delete handlers, passed; `None` for an index
      that did not parse. */
  function CheckedIndex(index: Option<int>, n: nat): (r: Option<nat>)
    ensures r.Some? <==> index.Some? && 0 <= index.value < n
    ensures r.Some? ==> r.value == index.value
  {
    if index.Some? && 0 <= index.value < n then Some(index.value as nat) else None
  }

  /** The import filter `p && typeof p.title === 'string' && typeof p.text === 'string'`. */
  predicate ImportKeeps(item: Item) {
    item.Record? && WellFormed(item.prompt)
  }

  /** `importedPrompts.filter(...)`: the records with string title and
      text, in their original order; empty strings are kept. Which records
      and how often is `ValidPromptsCounts`, the order `ValidPromptsInOrder`. */
  function ValidPrompts(items: seq<Item>): (r: seq<Prompt>)
    ensures |r| <= |items|
    ensures forall p :: p in r ==> WellFormed(p)
  {
    if items == [] then []
    else
      var rest := ValidPrompts(items[1..]);
      if ImportKeeps(items[0]) then [items[0].prompt] + rest else rest
  }

  /** Each record with string title and text is kept as often as the file
      holds it, and nothing else is. */
  lemma {:induction false} ValidPromptsCounts(items: seq<Item>)
    ensures forall p :: multiset(ValidPrompts(items))[p] == if WellFormed(p) then multiset(items)[Record(p)] else 0
  {
    if items != [] {
      ValidPromptsCounts(items[1..]);
      assert items == [items[0]] + items[1..];
      var rest := ValidPrompts(items[1..]);
      forall p ensures multiset(ValidPrompts(items))[p] == if WellFormed(p) then multiset(items)[Record(p)] else 0 {
        assert multiset(items)[Record(p)] == multiset{items[0]}[Record(p)] + multiset(items[1..])[Record(p)];
        if ImportKeeps(items[0]) {
          assert multiset(ValidPrompts(items))[p] == multiset{items[0].prompt}[p] + multiset(rest)[p];
        }
      }
    }
  }

  /** The same, as membership: a record is imported exactly when the file
      holds it and its title and text are strings. */
  lemma ValidPromptsMembers(items: seq<Item>)
    ensures forall p :: p in ValidPrompts(items) <==> Record(p) in items && WellFormed(p)
  {
    ValidPromptsCounts(items);
    forall p ensures p in ValidPrompts(items) <==> Record(p) in items && WellFormed(p) {
      assert p in ValidPrompts(items) <==> multiset(ValidPrompts(items))[p] > 0;
      assert Record(p) in items <==> multiset(items)[Record(p)] > 0;
    }
  }

  /** The imported records keep the order they have in the file. */
  lemma {:induction false} ValidPromptsInOrder(items: seq<Item>)
    ensures IsSubsequence(AsItems(ValidPrompts(items)), items)
  {
    if items != [] {
      ValidPromptsInOrder(items[1..]);
      var rest := ValidPrompts(items[1..]);
      if ImportKeeps(items[0]) {
        assert AsItems([items[0].prompt] + rest)[1..] == AsItems(rest);
      }
    }
  }

  /** Filtering a list that is already valid gives it back unchanged; in
      particular importing an exported list restores it. */
  lemma {:induction false} ValidPromptsOfWellFormed(ps: seq<Prompt>)
    requires forall p :: p in ps ==> WellFormed(p)
    ensures ValidPrompts(AsItems(ps)) == ps
  {
    if ps != [] {
      assert AsItems(ps)[1..] == AsItems(ps[1..]);
      assert ps[0] in ps;
      ValidPromptsOfWellFormed(ps[1..]);
      assert ps == [ps[0]] + ps[1..];
    }
  }

  /** A file holding `[{"title": ...}]` imports as the empty list (which
      the handler then writes), and records with empty strings are kept. */
  lemma ImportKeepsOnlyCompleteRecords(title: string)
    ensures ValidPrompts([Record(Prompt(Absent, Str(title), Absent))]) == []
    ensures ValidPrompts([Null, Record(Prompt(Absent, Str(""), Str("")))]) == [Prompt(Absent, Str(""), Str(""))]
  {
  }

  /** The record a save of the edit form stores:
      `{...promptList[index], title: newTitle, text: newText}`. */
  function Edited(p: Prompt, newTitle: string, newText: string): (r: Prompt)
    ensures r.id == p.id && r.title == Str(newTitle) && r.text == Str(newText)
  {
    p.(title := Str(newTitle), text := Str(newText))
  }

  /** The list after a drop of the item dragged from `from` at DOM position
      `to`, for indices the drop handler accepts: unchanged when they are
      equal, otherwise `splice(from, 1)` then `splice(to, 0, item)`. */
  function Reordered(s: seq<Prompt>, from: nat, to: int): (r: seq<Prompt>)
    requires from < |s|
    ensures |r| == |s| && multiset(r) == multiset(s)
  {
    if from == to then s
    else SpliceInsert(RemoveAt(s, from), to, s[from])
  }

  /** For a target inside the list the drop is exactly a single-element
      move: the moved item lands at `to` and the others keep their order. */
  lemma ReorderedIsMove(s: seq<Prompt>, from: nat, to: nat)
    requires from < |s| && to < |s|
    ensures Reordered(s, from, to) == Move(s, from, to)
    ensures Reordered(s, from, to)[to] == s[from]
    ensures RemoveAt(Reordered(s, from, to), to) == RemoveAt(s, from)
  {
    MoveSpec(s, from, to);
    if from == to { MoveToSelf(s, from); }
  }

  /** What the import handler shows the user. */
  datatype Alert = ImportSucceeded | ImportSaveFailed | ImportParseFailed

  class Sidebar {
    var promptList: seq<Prompt>
    var isAddingPrompt: bool
    /** `draggedItem !== null` and `dragStartIndex`, the drag listeners'
        state. */
    var hasDraggedItem: bool
    var dragStartIndex: int

    predicate AllWellFormed()
      reads this
    {
      forall p :: p in promptList ==> WellFormed(p)
    }

    constructor ()
      ensures promptList == [] && !isAddingPrompt
      ensures !hasDraggedItem && dragStartIndex == -1
    {
      promptList, isAddingPrompt := [], false;
      hasDraggedItem, dragStartIndex := false, -1;
    }

    /** `loadPrompts()`: the stored list, or [] when the key is absent or
        the read fails. A successful read also attaches fresh drag
        listeners, whose state starts empty. */
    method LoadPrompts(read: ReadResult)
      modifies this
      ensures promptList == if read.ReadOk? && read.stored.Some? then read.stored.value else []
      ensures isAddingPrompt == old(isAddingPrompt)
      ensures read.ReadOk? ==> !hasDraggedItem && dragStartIndex == -1
      ensures read.ReadFailed? ==> hasDraggedItem == old(hasDraggedItem) && dragStartIndex == old(dragStartIndex)
    {
      match read
      case ReadOk(stored) =>
        promptList := if stored.Some? then stored.value else [];
        hasDraggedItem, dragStartIndex := false, -1;
      case ReadFailed(_) =>
        promptList := [];
    }

    /** `handleCopyClick`: the text handed to the clipboard, or `None` when
        the index fails the guard. */
    function CopyText(index: Option<int>): (r: Option<string>)
      reads this
      ensures r.Some? <==> index.Some? && 0 <= index.value < |promptList|
      ensures r.Some? ==> r.value == JsString(promptList[index.value].text)
    {
      match CheckedIndex(index, |promptList|)
      case None => None
      case Some(i) => Some(JsString(promptList[i].text))
    }

    /** `handleEditClick` followed by Save: an index that fails the guard
        opens no form; otherwise the entry at `index` gets the new title and
        text, keeps its other fields, and the list is written. */
    method SaveEdit(index: Option<int>, newTitle: string, newText: string, store: Store, writeOk: bool)
      modifies this, store
      ensures var i := CheckedIndex(index, |old(promptList)|);
        promptList == if i.Some? then old(promptList)[i.value := Edited(old(promptList)[i.value], newTitle, newText)]
                      else old(promptList)
      ensures store.prompts == if CheckedIndex(index, |old(promptList)|).Some? && writeOk then Some(promptList)
                               else old(store.prompts)
      ensures old(AllWellFormed()) ==> AllWellFormed()
      ensures isAddingPrompt == old(isAddingPrompt)
      ensures hasDraggedItem == old(hasDraggedItem) && dragStartIndex == old(dragStartIndex)
    {
      var checked := CheckedIndex(index, |promptList|);
      if checked.Some? {
        var i := checked.value;
        promptList := promptList[i := Edited(promptList[i], newTitle, newText)];
        store.Set(promptList, writeOk);
      }
    }

    /** `handleDeleteClick`: removes exactly the entry at a valid index and
        writes the list; any other index changes nothing. */
    method Delete(index: Option<int>, store: Store, writeOk: bool)
      modifies this, store
      ensures var i := CheckedIndex(index, |old(promptList)|);
        promptList == if i.Some? then RemoveAt(old(promptList), i.value) else old(promptList)
      ensures store.prompts == if CheckedIndex(index, |old(promptList)|).Some? && writeOk then Some(promptList)
                               else old(store.prompts)
      ensures old(AllWellFormed()) ==> AllWellFormed()
      ensures isAddingPrompt == old(isAddingPrompt)
      ensures hasDraggedItem == old(hasDraggedItem) && dragStartIndex == old(dragStartIndex)
    {
      var checked := CheckedIndex(index, |promptList|);
      if checked.Some? {
        promptList := RemoveAt(promptList, checked.value);
        store.Set(promptList, writeOk);
      }
    }

    /** The "dragstart" listener: `index` is the rendered position of the
        item the drag began on, `None` when the target is not an item. */
    method DragStart(index: Option<int>)
      modifies this
      ensures index.Some? ==> hasDraggedItem && dragStartIndex == index.value
      ensures index.None? ==> hasDraggedItem == old(hasDraggedItem) && dragStartIndex == old(dragStartIndex)
      ensures promptList == old(promptList) && isAddingPrompt == old(isAddingPrompt)
    {
      if index.Some? {
        hasDraggedItem, dragStartIndex := true, index.value;
      }
    }

    /** The "dragend" listener. */
    method DragEnd()
      modifies this
      ensures !hasDraggedItem && dragStartIndex == -1
      ensures promptList == old(promptList) && isAddingPrompt == old(isAddingPrompt)
    {
      hasDraggedItem, dragStartIndex := false, -1;
    }

    /** The "drop" listener; `newIndex` is the dragged element's position
        among the list's children (-1 when it is not among them). Without a
        drag in progress, with `newIndex == -1` or with a start index
        outside the list nothing changes; equal indices change nothing
        either; otherwise the item is moved and the list written. */
    method Drop(newIndex: int, store: Store, writeOk: bool)
      modifies this, store
      ensures var from := old(dragStartIndex);
        var accepted := from != -1 && old(hasDraggedItem) && newIndex != -1 && 0 <= from < |old(promptList)|;
        promptList == (if accepted then Reordered(old(promptList), from, newIndex) else old(promptList)) &&
        store.prompts == (if accepted && from != newIndex && writeOk then Some(promptList) else old(store.prompts))
      ensures !hasDraggedItem
      ensures dragStartIndex == if old(dragStartIndex) == -1 || old(hasDraggedItem) then -1 else old(dragStartIndex)
      ensures old(AllWellFormed()) ==> AllWellFormed()
      ensures isAddingPrompt == old(isAddingPrompt)
    {
      if dragStartIndex == -1 || !hasDraggedItem {
        hasDraggedItem := false;
        return;
      }
      if newIndex == -1 || dragStartIndex < 0 || dragStartIndex >= |promptList| {
        hasDraggedItem, dragStartIndex := false, -1;
        return;
      }
      if dragStartIndex != newIndex {
        var removed := SpliceRemoveOne(promptList, dragStartIndex);
        promptList := SpliceInsert(removed.1, newIndex, removed.0.value);
        store.Set(promptList, writeOk);
      }
      hasDraggedItem, dragStartIndex := false, -1;
    }

    /** `handleAddPromptToggle`: the first click opens the form; a later
        click prepends `{id, title, text}` with the trimmed inputs when both
        are non-empty, writes the list, and closes the form only when the
        write succeeds. `freshId` stands for the generated id. */
    method AddPromptToggle(titleValue: string, textValue: string, freshId: string, store: Store, writeOk: bool)
      modifies this, store
      ensures var title, text := Trim(titleValue), Trim(textValue);
        var saves := old(isAddingPrompt) && title != "" && text != "";
        promptList == (if saves then [Prompt(Str(freshId), Str(title), Str(text))] + old(promptList) else old(promptList)) &&
        store.prompts == (if saves && writeOk then Some(promptList) else old(store.prompts)) &&
        isAddingPrompt == !(saves && writeOk)
      ensures old(AllWellFormed()) ==> AllWellFormed()
      ensures hasDraggedItem == old(hasDraggedItem) && dragStartIndex == old(dragStartIndex)
    {
      if !isAddingPrompt {
        isAddingPrompt := true;
      } else {
        var title, text := Trim(titleValue), Trim(textValue);
        if title != "" && text != "" {
          promptList := [Prompt(Str(freshId), Str(title), Str(text))] + promptList;
          store.Set(promptList, writeOk);
          if writeOk {
            isAddingPrompt := false;
          }
        }
      }
    }

    /** The `reader.onload` of `handleFileImport`: a parse error or a value
        that is not an array leaves list and store alone; an array replaces
        the list with its valid records, which is then written. */
    method Import(parsed: Parsed, store: Store, writeOk: bool) returns (alert: Alert)
      modifies this, store
      ensures parsed.Array? ==> promptList == ValidPrompts(parsed.items) && AllWellFormed()
      ensures !parsed.Array? ==> promptList == old(promptList) && store.prompts == old(store.prompts)
      ensures parsed.Array? ==> store.prompts == if writeOk then Some(promptList) else old(store.prompts)
      ensures alert == if !parsed.Array? then ImportParseFailed else if writeOk then ImportSucceeded else ImportSaveFailed
      ensures isAddingPrompt == old(isAddingPrompt)
      ensures hasDraggedItem == old(hasDraggedItem) && dragStartIndex == old(dragStartIndex)
    {
      if !parsed.Array? {
        alert := ImportParseFailed;
        return;
      }
      promptList := ValidPrompts(parsed.items);
      store.Set(promptList, writeOk);
      alert := if writeOk then ImportSucceeded else ImportSaveFailed;
    }

    /** `handleExportClick`: the array serialised to the file is the list
        itself. Importing it again gives back the list whenever its records
        are valid. */
    function ExportData(): (r: seq<Prompt>)
      reads this
      ensures r == promptList
      ensures AllWellFormed() ==> ValidPrompts(AsItems(r)) == promptList
    {
      if AllWellFormed() then ValidPromptsOfWellFormed(promptList); promptList
      else promptList
    }
  }
}
