/**
 * The request-scoped cursor context the providers share. Its resolution
 * (`CursorContext::new`, the finders behind it) is not part of this model:
 * a context holds the answers of its accessors at the request offset.
 */
module Cursor {
  import opened Wrappers
  import opened Syntax

  /** The result of `find_curly_group_word`: the word, its replacement range and the group. */
  datatype GroupWord = GroupWord(word: string, range: TextRange, group: NodeView)

  datatype CursorContext = CursorContext(
    offset: nat,
    /** `cursor.as_latex()`: the LaTeX token at the offset, none in a BibTeX document. */
    latexToken: Option<LatexToken>,
    /** `find_curly_group_word()`. */
    curlyGroupWord: Option<GroupWord>,
    /** `is_inside_latex_curly(group)`. */
    insideCurly: NodeView -> bool,
    /** `cursor.command_range(offset)`: the command name at the offset without its escape. */
    commandRange: Option<TextRange>,
    /** `request.subset.documents`: the related documents, in order. */
    subset: seq<Document>)

  /**
   * The guard shared by the acronym and colour providers:
   * `let (_, range, group) = find_curly_group_word()?; <Kind>::cast(group.parent()?)?`.
   * It yields the replacement range when the group's parent has `kind`.
   */
  function GroupWordUnder(ctx: CursorContext, kind: NodeKind): (r: Option<TextRange>)
    ensures r.Some? <==>
      ctx.curlyGroupWord.Some? && Parent(ctx.curlyGroupWord.value.group).Some?
      && IsNode(Parent(ctx.curlyGroupWord.value.group).value, kind)
    ensures r.Some? ==> r.value == ctx.curlyGroupWord.value.range
  {
    match ctx.curlyGroupWord
    case None => None
    case Some(GroupWord(_, range, group)) =>
      match Parent(group)
      case None => None
      case Some(parent) => if IsNode(parent, kind) then Some(range) else None
  }
}
