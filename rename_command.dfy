/**
 * Renaming of a command (src/features/rename/command.rs): every command-name
 * token of the related LaTeX documents whose text is that of the token under
 * the cursor is replaced, after its backslash, by the new name.
 *
 * Ranges stay byte ranges here; their conversion to line/column ranges
 * (`line_col_lsp_range`) is not part of this model.
 */
module RenameCommand {
  import opened Wrappers
  import opened Syntax
  import opened Cursor

  /** `TextEdit`: replace `range` by `newText`. */
  datatype TextEdit = TextEdit(range: TextRange, newText: string)

  /** The edits of a `WorkspaceEdit`, by document URI. */
  type Changes = map<string, seq<TextEdit>>

  /** A command-name token (of any command kind) spelled `name`. */
  predicate Matches(e: Element, name: string) {
    e.Token? && IsCommandName(e.tokenKind) && e.text == name
  }

  /** `filter_map(into_token).filter(|t| t.kind().is_command_name() && t.text() == name)`. */
  function MatchingTokens(elements: seq<Element>, name: string): (r: seq<Element>)
    ensures forall t :: t in r ==> Matches(t, name)
  {
    if elements == [] then []
    else
      var last := elements[|elements| - 1];
      MatchingTokens(elements[..|elements| - 1], name) + (if Matches(last, name) then [last] else [])
  }

  /** The edit for one token: its range without the leading backslash, replaced by the new name. */
  function EditFor(token: Element, newName: string): TextEdit {
    TextEdit(TextRange(token.range.start + 1, token.range.end), newName)
  }

  /** `.map(..).collect()`: one edit per token, in order. */
  function Edits(tokens: seq<Element>, newName: string): (r: seq<TextEdit>)
    ensures |r| == |tokens|
    ensures forall k :: 0 <= k < |r| ==> r[k] == EditFor(tokens[k], newName)
  {
    if tokens == [] then [] else Edits(tokens[..|tokens| - 1], newName) + [EditFor(tokens[|tokens| - 1], newName)]
  }

  /** The edits of one LaTeX document, in tree order. */
  function DocumentEdits(root: Element, name: string, newName: string): seq<TextEdit> {
    Edits(MatchingTokens(DescendantsWithTokens(root), name), newName)
  }

  /** Exactly the matching tokens of the tree are edited. */
  lemma {:induction false} MatchingTokensMembers(elements: seq<Element>, name: string, t: Element)
    ensures t in MatchingTokens(elements, name) <==> t in elements && Matches(t, name)
  {
    if elements != [] {
      var init, last := elements[..|elements| - 1], elements[|elements| - 1];
      MatchingTokensMembers(init, name, t);
      assert elements == init + [last];
    }
  }

  /** Each edit of a document replaces a matching token, one byte past its start, by the new name. */
  lemma DocumentEditsShape(root: Element, name: string, newName: string)
    ensures var tokens := MatchingTokens(DescendantsWithTokens(root), name);
      && |DocumentEdits(root, name, newName)| == |tokens|
      && forall k :: 0 <= k < |tokens| ==>
        && tokens[k] in DescendantsWithTokens(root) && Matches(tokens[k], name)
        && DocumentEdits(root, name, newName)[k].range == TextRange(tokens[k].range.start + 1, tokens[k].range.end)
        && DocumentEdits(root, name, newName)[k].newText == newName
  {
    var tokens := MatchingTokens(DescendantsWithTokens(root), name);
    forall k | 0 <= k < |tokens|
      ensures tokens[k] in DescendantsWithTokens(root)
    {
      MatchingTokensMembers(DescendantsWithTokens(root), name, tokens[k]);
    }
  }

  /** The change map the loop builds when no check trips: later documents overwrite earlier ones of the same URI. */
  function RenameChanges(docs: seq<Document>, name: string, newName: string): Changes {
    if docs == [] then map[]
    else
      var last := docs[|docs| - 1];
      var m := RenameChanges(docs[..|docs| - 1], name, newName);
      if last.data.LatexData? then m[last.uri := DocumentEdits(last.data.root, name, newName)] else m
  }

  /**
   * The loop of `rename_command` over the first `k` documents, with the
   * cancellation check before document `j` being check number `j + 1`.
   */
  function RenameLoop(docs: seq<Document>, k: nat, name: string, newName: string, tripped: nat -> bool): (r: Option<Changes>)
    requires k <= |docs|
    ensures r.Some? ==> forall j :: 1 <= j <= k ==> !tripped(j)
  {
    if k == 0 then Some(map[])
    else match RenameLoop(docs, k - 1, name, newName, tripped)
      case None => None
      case Some(m) =>
        if tripped(k) then None
        else if docs[k - 1].data.LatexData? then Some(m[docs[k - 1].uri := DocumentEdits(docs[k - 1].data.root, name, newName)])
        else Some(m)
  }

  /**
   * `rename_command`, with `tripped(i)` the outcome of the i-th cancellation
   * check: nothing when cancelled at entry, when `prepare_command_rename`
   * finds no command name at the offset (`commandRange` is none) or
   * when the cursor is not on a LaTeX token; otherwise the result of the
   * document loop.
   */
  function RenameResult(ctx: CursorContext, newName: string, tripped: nat -> bool): (r: Option<Changes>)
    ensures r.Some? ==> !tripped(0) && ctx.commandRange.Some? && ctx.latexToken.Some?
  {
    if tripped(0) || ctx.commandRange.None? || ctx.latexToken.None? then None
    else RenameLoop(ctx.subset, |ctx.subset|, ctx.latexToken.value.token.text, newName, tripped)
  }

  /** All or nothing: the loop gives a result exactly when no check trips, and then it is the full change map. */
  lemma {:induction false} RenameLoopAllOrNothing(docs: seq<Document>, k: nat, name: string, newName: string, tripped: nat -> bool)
    requires k <= |docs|
    ensures RenameLoop(docs, k, name, newName, tripped).Some? <==> forall j :: 1 <= j <= k ==> !tripped(j)
    ensures RenameLoop(docs, k, name, newName, tripped).Some? ==>
      RenameLoop(docs, k, name, newName, tripped).value == RenameChanges(docs[..k], name, newName)
  {
    if k > 0 {
      RenameLoopAllOrNothing(docs, k - 1, name, newName, tripped);
      assert docs[..k][..k - 1] == docs[..k - 1];
    }
  }

  /** `rename_command` yields edits exactly when every guard passes and no cancellation check trips. */
  lemma RenameAllOrNothing(ctx: CursorContext, newName: string, tripped: nat -> bool)
    ensures RenameResult(ctx, newName, tripped).Some? <==>
      && !tripped(0) && ctx.commandRange.Some? && ctx.latexToken.Some?
      && forall j :: 1 <= j <= |ctx.subset| ==> !tripped(j)
    ensures RenameResult(ctx, newName, tripped).Some? ==>
      RenameResult(ctx, newName, tripped).value
        == RenameChanges(ctx.subset, ctx.latexToken.value.token.text, newName)
  {
    if !tripped(0) && ctx.commandRange.Some? && ctx.latexToken.Some? {
      RenameLoopAllOrNothing(ctx.subset, |ctx.subset|, ctx.latexToken.value.token.text, newName, tripped);
      assert ctx.subset[..|ctx.subset|] == ctx.subset;
    }
  }

  /** Every LaTeX document gets an entry, possibly empty, and no other URI does. */
  lemma {:induction false} RenameChangesKeys(docs: seq<Document>, name: string, newName: string)
    ensures RenameChanges(docs, name, newName).Keys == set d | d in docs && d.data.LatexData? :: d.uri
  {
    if docs != [] {
      var init, last := docs[..|docs| - 1], docs[|docs| - 1];
      RenameChangesKeys(init, name, newName);
      assert docs == init + [last];
    }
  }

  /** With distinct URIs, each LaTeX document's entry holds exactly that document's edits. */
  lemma {:induction false} RenameChangesValues(docs: seq<Document>, name: string, newName: string, i: nat)
    requires i < |docs| && docs[i].data.LatexData?
    requires forall a, b :: 0 <= a < b < |docs| ==> docs[a].uri != docs[b].uri
    ensures docs[i].uri in RenameChanges(docs, name, newName)
    ensures RenameChanges(docs, name, newName)[docs[i].uri] == DocumentEdits(docs[i].data.root, name, newName)
  {
    var init := docs[..|docs| - 1];
    if i < |docs| - 1 {
      RenameChangesValues(init, name, newName, i);
    }
  }

  /**
   * The method form of `rename_command`: the loop inserts each LaTeX
   * document's edits into the map and returns nothing as soon as a check
   * trips.
   */
  method Rename(ctx: CursorContext, newName: string, tripped: nat -> bool) returns (r: Option<Changes>)
    ensures r == RenameResult(ctx, newName, tripped)
  {
    if tripped(0) {
      return None;
    }
    if ctx.commandRange.None? {
      return None;
    }
    if ctx.latexToken.None? {
      return None;
    }
    var name := ctx.latexToken.value.token.text;
    var docs := ctx.subset;
    var changes: Changes := map[];
    var i := 0;
    while i < |docs|
      invariant 0 <= i <= |docs|
      invariant RenameLoop(docs, i, name, newName, tripped) == Some(changes)
    {
      if tripped(i + 1) {
        RenameLoopAllOrNothing(docs, |docs|, name, newName, tripped);
        return None;
      }
      if docs[i].data.LatexData? {
        var edits := DocumentEdits(docs[i].data.root, name, newName);
        changes := changes[docs[i].uri := edits];
      }
      i := i + 1;
    }
    return Some(changes);
  }

  /** One element is kept exactly once when it matches, and dropped otherwise. */
  lemma MatchingTokensSingle(e: Element, name: string)
    ensures MatchingTokens([e], name) == if Matches(e, name) then [e] else []
  {
    assert [e][..0] == [];
  }

  lemma {:induction false} MatchingTokensAppend(a: seq<Element>, b: seq<Element>, name: string)
    ensures MatchingTokens(a + b, name) == MatchingTokens(a, name) + MatchingTokens(b, name)
  {
    if b == [] {
      assert a + b == a;
    } else {
      assert (a + b)[..|a + b| - 1] == a + b[..|b| - 1];
      MatchingTokensAppend(a, b[..|b| - 1], name);
    }
  }

  lemma NoMatches(elements: seq<Element>, name: string)
    requires forall e :: e in elements ==> !Matches(e, name)
    ensures MatchingTokens(elements, name) == []
  {
    var r := MatchingTokens(elements, name);
    if r != [] {
      MatchingTokensMembers(elements, name, r[0]);
    }
  }

  lemma SingleDescendants(e: Element)
    ensures DescendantsWithTokensOfAll([e]) == DescendantsWithTokens(e)
  {
    assert [e][1..] == [];
  }

  lemma PairDescendants(a: Element, b: Element)
    ensures DescendantsWithTokensOfAll([a, b]) == DescendantsWithTokens(a) + DescendantsWithTokens(b)
  {
    assert [a, b][1..] == [b];
    SingleDescendants(b);
  }

  /** The tree of `\baz\include{bar.tex}`. */
  function FooTree(): Element {
    Node(Root, TextRange(0, 21), [
      Node(GenericCommand, TextRange(0, 4), [Token(GenericCommandName, TextRange(0, 4), "\\baz")]),
      Node(OtherNode, TextRange(4, 21), [
        Token(OtherCommandName, TextRange(4, 12), "\\include"),
        Node(CurlyGroup, TextRange(12, 21), [Token(Word, TextRange(13, 20), "bar.tex")])])])
  }

  /** The tree of `\baz`. */
  function BarTree(): Element {
    Node(Root, TextRange(0, 4), [
      Node(GenericCommand, TextRange(0, 4), [Token(GenericCommandName, TextRange(0, 4), "\\baz")])])
  }

  /** In `before + [t] + after`, only `t` is a `\\baz` command name. */
  lemma ScenarioMatches(before: seq<Element>, t: Element, after: seq<Element>)
    requires forall e :: e in before ==> !Matches(e, "\\baz")
    requires forall e :: e in after ==> !Matches(e, "\\baz")
    requires Matches(t, "\\baz")
    ensures MatchingTokens(before + [t] + after, "\\baz") == [t]
  {
    NoMatches(before, "\\baz");
    NoMatches(after, "\\baz");
    MatchingTokensAppend(before, [t], "\\baz");
    MatchingTokensAppend(before + [t], after, "\\baz");
    assert [t][..0] == [];
  }

  lemma ScenarioEdits(t: Element)
    requires t.Token? && t.range == TextRange(0, 4)
    ensures Edits([t], "qux") == [TextEdit(TextRange(1, 4), "qux")]
  {
  }

  lemma FooEdits()
    ensures DocumentEdits(FooTree(), "\\baz", "qux") == [TextEdit(TextRange(1, 4), "qux")]
  {
    var baz1 := Token(GenericCommandName, TextRange(0, 4), "\\baz");
    var includeName := Token(OtherCommandName, TextRange(4, 12), "\\include");
    var word := Token(Word, TextRange(13, 20), "bar.tex");
    var group := Node(CurlyGroup, TextRange(12, 21), [word]);
    var cmd := Node(GenericCommand, TextRange(0, 4), [baz1]);
    var other := Node(OtherNode, TextRange(4, 21), [includeName, group]);
    var foo := FooTree();
    PairDescendants(includeName, group);
    PairDescendants(cmd, other);
    assert DescendantsWithTokens(group) == [group, word] by { SingleDescendants(word); }
    assert DescendantsWithTokens(cmd) == [cmd, baz1] by { SingleDescendants(baz1); }
    assert DescendantsWithTokens(other) == [other, includeName, group, word];
    assert DescendantsWithTokens(foo) == [foo, cmd] + [baz1] + [other, includeName, group, word];
    ScenarioMatches([foo, cmd], baz1, [other, includeName, group, word]);
    ScenarioEdits(baz1);
  }

  lemma BarEdits()
    ensures DocumentEdits(BarTree(), "\\baz", "qux") == [TextEdit(TextRange(1, 4), "qux")]
  {
    var baz1 := Token(GenericCommandName, TextRange(0, 4), "\\baz");
    var cmd := Node(GenericCommand, TextRange(0, 4), [baz1]);
    var bar := BarTree();
    assert DescendantsWithTokens(cmd) == [cmd, baz1] by { SingleDescendants(baz1); }
    assert DescendantsWithTokens(bar) == [bar, cmd] + [baz1] + [] by { SingleDescendants(cmd); }
    ScenarioMatches([bar, cmd], baz1, []);
    ScenarioEdits(baz1);
  }

  /**
   * Two documents, `\baz\include{bar.tex}` and `\baz`, with the cursor on the
   * first `\baz` and the new name `qux`: each document gets the single edit
   * of bytes 1 to 4.
   */
  lemma TwoDocumentRename()
    ensures RenameChanges([Document("foo.tex", LatexData(FooTree())), Document("bar.tex", LatexData(BarTree()))], "\\baz", "qux")
         == map["foo.tex" := [TextEdit(TextRange(1, 4), "qux")], "bar.tex" := [TextEdit(TextRange(1, 4), "qux")]]
  {
    var docs := [Document("foo.tex", LatexData(FooTree())), Document("bar.tex", LatexData(BarTree()))];
    FooEdits();
    BarEdits();
    assert docs[..1][..0] == [];
    assert docs[..1] == [docs[0]];
  }
}
