/** The extension's local storage area, reduced to its one key "prompts".
    Reads and writes are asynchronous calls into the browser; each call's
    outcome (success, or failure with a message) is an input here. A failed
    write leaves the stored value as it was. */
module Storage {
  import opened Values

  /** Outcome of `storage.local.get("prompts")`. */
  datatype ReadResult = ReadOk(stored: Option<seq<Prompt>>) | ReadFailed(message: string)

  class Store {
    /** The value under "prompts"; `None` when the key is absent. */
    var prompts: Option<seq<Prompt>>

    constructor (initial: Option<seq<Prompt>>)
      ensures prompts == initial
    {
      prompts := initial;
    }

    /** `storage.local.get("prompts")`, succeeding when `ok`. */
    method Get(ok: bool, failure: string) returns (r: ReadResult)
      ensures r == if ok then ReadOk(prompts) else ReadFailed(failure)
    {
      r := if ok then ReadOk(prompts) else ReadFailed(failure);
    }

    /** `storage.local.set({prompts: list})`: replaces the whole list when
      the write succeeds, changes nothing when it fails. */
    method Set(list: seq<Prompt>, ok: bool)
      modifies this
      ensures prompts == if ok then Some(list) else old(prompts)
    {
      if ok { prompts := Some(list); }
    }
  }
}
