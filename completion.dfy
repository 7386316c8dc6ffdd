/** The completion items the providers push and the buffer they share. */
module Completion {
  import opened Wrappers
  import opened Syntax

  datatype ItemData =
    | Argument(name: string, image: Option<string>)
    | Acronym(name: string)
    | Color(name: string)

  /** `InternalCompletionItem`: the range the accepted item replaces, and what it suggests. */
  datatype InternalCompletionItem = InternalCompletionItem(range: TextRange, data: ItemData)

  /** All items replace the same range. */
  predicate SameRange(items: seq<InternalCompletionItem>, range: TextRange) {
    forall i :: 0 <= i < |items| ==> items[i].range == range
  }

  /** The `&mut Vec<InternalCompletionItem>` the providers append to. */
  class ItemBuffer {
    var items: seq<InternalCompletionItem>

    constructor ()
      ensures items == []
    {
      items := [];
    }

    /** `Vec::push`. */
    method Push(item: InternalCompletionItem)
      modifies this
      ensures items == old(items) + [item]
    {
      items := items + [item];
    }
  }
}
