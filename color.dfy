/**
 * Completion of colour names (src/features/completion/color.rs): inside the
 * curly group of a colour reference, suggest every colour of the language
 * data, in order.
 */
module Colors {
  import opened Syntax
  import opened Cursor
  import opened Completion

  function ColorItem(range: TextRange, name: string): InternalCompletionItem {
    InternalCompletionItem(range, Color(name))
  }

  /** The items pushed for the colours of the language data. */
  function ColorItems(range: TextRange, colors: seq<string>): seq<InternalCompletionItem> {
    if colors == [] then [] else ColorItems(range, colors[..|colors| - 1]) + [ColorItem(range, colors[|colors| - 1])]
  }

  /** One item per colour, in the order of the language data, all replacing the word's range. */
  lemma {:induction false} ColorItemsAreColors(range: TextRange, colors: seq<string>)
    ensures |ColorItems(range, colors)| == |colors|
    ensures forall i :: 0 <= i < |colors| ==> ColorItems(range, colors)[i] == ColorItem(range, colors[i])
  {
    if colors != [] {
      ColorItemsAreColors(range, colors[..|colors| - 1]);
    }
  }

  /**
   * `complete_colors`: nothing when cancelled or when the cursor is not in the
   * curly-group word of a colour reference; otherwise every colour name.
   */
  method CompleteColors(ctx: CursorContext, colors: seq<string>, items: ItemBuffer, cancelled: bool)
    returns (completed: bool)
    modifies items
    ensures completed <==> !cancelled && GroupWordUnder(ctx, ColorReference).Some?
    ensures !completed ==> items.items == old(items.items)
    ensures completed ==>
      items.items == old(items.items) + ColorItems(GroupWordUnder(ctx, ColorReference).value, colors)
  {
    if cancelled {
      return false;
    }
    var found := GroupWordUnder(ctx, ColorReference);
    if found.None? {
      return false;
    }
    var range := found.value;
    var i := 0;
    while i < |colors|
      invariant 0 <= i <= |colors|
      invariant items.items == old(items.items) + ColorItems(range, colors[..i])
    {
      assert colors[..i + 1][..i] == colors[..i];
      items.Push(ColorItem(range, colors[i]));
      i := i + 1;
    }
    assert colors[..i] == colors;
    return true;
  }
}
