/**
 * The LaTeX/BibTeX concrete syntax tree as the completion and rename
 * features see it: kinded nodes and tokens with byte ranges, and the
 * cursor's view of a token or node with its chain of ancestors.
 *
 * The parser that builds the tree is not part of this model; a cast such as
 * `CurlyGroup::cast` is a test of the node's kind.
 */
module Syntax {
  import opened Wrappers

  /** `cstree::TextRange`: a byte range from `start` to `end`. */
  datatype TextRange = TextRange(start: nat, end: nat)

  /** `TextRange::empty(offset)`. */
  function EmptyRange(offset: nat): TextRange {
    TextRange(offset, offset)
  }

  datatype NodeKind =
    | Root
    | CurlyGroup
    | CurlyGroupWord
    | Key
    | GenericCommand
    | AcronymDefinition
    | AcronymReference
    | ColorReference
    | OtherNode

  datatype TokenKind =
    | Word
    | Whitespace
    | LCurly
    | RCurly
    | GenericCommandName
    | OtherCommandName
    | OtherToken

  /** `SyntaxKind::is_command_name`: the name token of any kind of command. */
  predicate IsCommandName(kind: TokenKind) {
    kind == GenericCommandName || kind == OtherCommandName
  }

  datatype Element =
    | Node(kind: NodeKind, range: TextRange, children: seq<Element>)
    | Token(tokenKind: TokenKind, range: TextRange, text: string)

  /** `<Kind>::cast(element)` succeeds. */
  predicate IsNode(e: Element, kind: NodeKind) {
    e.Node? && e.kind == kind
  }

  /** `descendants()`: the nodes of the subtree in preorder, `e` first. */
  function Descendants(e: Element): seq<Element>
    decreases e, 1
  {
    if e.Node? then [e] + DescendantsOfAll(e.children) else []
  }

  function DescendantsOfAll(elements: seq<Element>): seq<Element>
    decreases elements, 0
  {
    if elements == [] then [] else Descendants(elements[0]) + DescendantsOfAll(elements[1..])
  }

  /** `descendants_with_tokens()`: every node and token of the subtree in preorder, `e` first. */
  function DescendantsWithTokens(e: Element): seq<Element>
    decreases e, 1
  {
    if e.Node? then [e] + DescendantsWithTokensOfAll(e.children) else [e]
  }

  function DescendantsWithTokensOfAll(elements: seq<Element>): seq<Element>
    decreases elements, 0
  {
    if elements == [] then []
    else DescendantsWithTokens(elements[0]) + DescendantsWithTokensOfAll(elements[1..])
  }

  /**
   * A token with its ancestors, innermost first. A token of a tree always
   * has a parent (`token.parent()` is not optional).
   */
  datatype TokenView = TokenView(token: Element, ancestors: seq<Element>)

  type LatexToken = v: TokenView | v.token.Token? && |v.ancestors| > 0
    witness TokenView(Token(OtherToken, TextRange(0, 0), ""), [Node(Root, TextRange(0, 0), [])])

  /** A node with its ancestors, innermost first; the root has none. */
  datatype NodeView = NodeView(node: Element, ancestors: seq<Element>)

  /** `node.parent()`. */
  function Parent(v: NodeView): Option<Element> {
    if v.ancestors == [] then None else Some(v.ancestors[0])
  }

  datatype DocumentData = LatexData(root: Element) | BibtexData(root: Element)

  /** A document of the workspace: its URI and its parsed tree. */
  datatype Document = Document(uri: string, data: DocumentData)
}
