/**
 * Completion of acronym references (src/features/completion/acronym_ref.rs):
 * inside the curly group of an acronym reference, suggest the name of every
 * acronym defined in a LaTeX document of the related subset.
 */
module AcronymRef {
  import opened Wrappers
  import opened Syntax
  import opened Cursor
  import opened Completion

  /** The first child of `kind` among `children`. */
  function FirstChild(children: seq<Element>, kind: NodeKind): Option<Element> {
    if children == [] then None
    else if IsNode(children[0], kind) then Some(children[0])
    else FirstChild(children[1..], kind)
  }

  /** `FirstChild` finds a child of the kind, before which there is none, or reports that there is none. */
  lemma {:induction false} FirstChildFound(children: seq<Element>, kind: NodeKind)
    ensures FirstChild(children, kind).Some? ==>
      exists i :: 0 <= i < |children| && children[i] == FirstChild(children, kind).value
        && IsNode(children[i], kind) && forall j :: 0 <= j < i ==> !IsNode(children[j], kind)
    ensures FirstChild(children, kind).None? ==> forall e :: e in children ==> !IsNode(e, kind)
  {
    if children != [] && !IsNode(children[0], kind) {
      FirstChildFound(children[1..], kind);
      if FirstChild(children, kind).Some? {
        var i :| 0 <= i < |children[1..]| && children[1..][i] == FirstChild(children, kind).value
          && IsNode(children[1..][i], kind) && forall j :: 0 <= j < i ==> !IsNode(children[1..][j], kind);
        assert children[i + 1] == children[1..][i];
        forall j | 0 <= j < i + 1
          ensures !IsNode(children[j], kind)
        {
          if j > 0 {
            assert children[j] == children[1..][j - 1];
          }
        }
      }
    }
  }

  /** The words of a key, in order. */
  function KeyWords(children: seq<Element>): seq<string> {
    if children == [] then []
    else
      (if children[0].Token? && children[0].tokenKind == Word then [children[0].text] else [])
      + KeyWords(children[1..])
  }

  /** Words joined by single spaces. */
  function JoinWords(words: seq<string>): string {
    if words == [] then "" else if |words| == 1 then words[0] else words[0] + " " + JoinWords(words[1..])
  }

  /** `Key::to_string`: the key's words separated by single spaces. */
  function KeyText(key: Element): (r: string)
    ensures key.Token? ==> r == ""
    ensures key.Node? && |KeyWords(key.children)| == 1 ==> r == KeyWords(key.children)[0]
  {
    if key.Node? then JoinWords(KeyWords(key.children)) else ""
  }

  /** `AcronymDefinition::name().key()`: the key in the definition's first curly-group word. */
  function AcronymKey(definition: Element): Option<Element> {
    if definition.Token? then None
    else match FirstChild(definition.children, CurlyGroupWord)
      case None => None
      case Some(group) => if group.Node? then FirstChild(group.children, Key) else None
  }

  /** The name a definition contributes: the key of its name, for a definition that has one. */
  function DefinitionName(n: Element): Option<string> {
    if IsNode(n, AcronymDefinition) then
      match AcronymKey(n)
      case None => None
      case Some(key) => Some(KeyText(key))
    else None
  }

  /** A definition's name is a key node found in its first curly-group word. */
  lemma AcronymKeyIsKey(definition: Element)
    requires definition.Node?
    ensures AcronymKey(definition).Some? ==>
      var group := FirstChild(definition.children, CurlyGroupWord);
      && group.Some? && group.value in definition.children && IsNode(group.value, CurlyGroupWord)
      && AcronymKey(definition).value in group.value.children && IsNode(AcronymKey(definition).value, Key)
  {
    FirstChildFound(definition.children, CurlyGroupWord);
    var group := FirstChild(definition.children, CurlyGroupWord);
    if group.Some? && group.value.Node? {
      FirstChildFound(group.value.children, Key);
    }
  }

  /** The names the acronym definitions among `nodes` contribute, in order. */
  function DefinedNames(nodes: seq<Element>): (r: seq<string>)
    ensures |r| <= |nodes|
  {
    if nodes == [] then []
    else
      DefinedNames(nodes[..|nodes| - 1])
      + match DefinitionName(nodes[|nodes| - 1]) case None => [] case Some(name) => [name]
  }

  /** The names keep the order of the nodes they come from. */
  lemma {:induction false} DefinedNamesAppend(a: seq<Element>, b: seq<Element>)
    ensures DefinedNames(a + b) == DefinedNames(a) + DefinedNames(b)
  {
    if b == [] {
      assert a + b == a;
    } else {
      assert (a + b)[..|a + b| - 1] == a + b[..|b| - 1];
      DefinedNamesAppend(a, b[..|b| - 1]);
    }
  }

  /** One node gives exactly one name when it is a definition with a key, and none otherwise. */
  lemma DefinedNamesSingle(n: Element)
    ensures |DefinedNames([n])| == if DefinitionName(n).Some? then 1 else 0
    ensures DefinitionName(n).Some? ==> DefinedNames([n]) == [DefinitionName(n).value]
  {
    assert [n][..0] == [];
  }

  /** The names a document contributes: those of its acronym definitions; a BibTeX document gives none. */
  function DocumentNames(doc: Document): seq<string> {
    if doc.data.LatexData? then DefinedNames(Descendants(doc.data.root)) else []
  }

  function AcronymItem(range: TextRange, name: string): InternalCompletionItem {
    InternalCompletionItem(range, Acronym(name))
  }

  /** The items pushed for some names. */
  function NameItems(range: TextRange, names: seq<string>): seq<InternalCompletionItem> {
    if names == [] then [] else NameItems(range, names[..|names| - 1]) + [AcronymItem(range, names[|names| - 1])]
  }

  /** One acronym item per name, in order. */
  lemma {:induction false} NameItemsAt(range: TextRange, names: seq<string>)
    ensures |NameItems(range, names)| == |names|
    ensures forall i :: 0 <= i < |names| ==> NameItems(range, names)[i] == AcronymItem(range, names[i])
  {
    if names != [] {
      NameItemsAt(range, names[..|names| - 1]);
    }
  }

  /** The items pushed for the documents of the subset, document by document. */
  function AcronymItems(range: TextRange, docs: seq<Document>): seq<InternalCompletionItem> {
    if docs == [] then []
    else AcronymItems(range, docs[..|docs| - 1]) + NameItems(range, DocumentNames(docs[|docs| - 1]))
  }

  /** `n` is an acronym definition whose key reads `name`. */
  predicate DefinesName(n: Element, name: string) {
    DefinitionName(n) == Some(name)
  }

  /** A LaTeX document defines `name` when one of its nodes does. */
  ghost predicate DocumentDefines(d: Document, name: string) {
    d.data.LatexData? && exists n :: n in Descendants(d.data.root) && DefinesName(n, name)
  }

  /** A name is defined when some LaTeX document of the subset defines it. */
  ghost predicate Defined(docs: seq<Document>, name: string) {
    exists d :: d in docs && DocumentDefines(d, name)
  }

  lemma {:induction false} DefinedNamesMembers(nodes: seq<Element>, name: string)
    ensures name in DefinedNames(nodes) <==> exists n :: n in nodes && DefinesName(n, name)
  {
    if nodes != [] {
      var init, last := nodes[..|nodes| - 1], nodes[|nodes| - 1];
      DefinedNamesMembers(init, name);
      assert nodes == init + [last];
      if DefinesName(last, name) {
        assert last in nodes;
      }
      if n :| n in nodes && DefinesName(n, name) && n !in init {
        assert n == last;
      }
    }
  }

  lemma DocumentNamesMembers(d: Document, name: string)
    ensures name in DocumentNames(d) <==> DocumentDefines(d, name)
  {
    if d.data.LatexData? {
      DefinedNamesMembers(Descendants(d.data.root), name);
    }
  }

  lemma NameItemsMembers(range: TextRange, names: seq<string>, item: InternalCompletionItem)
    ensures item in NameItems(range, names) <==> exists n :: n in names && item == AcronymItem(range, n)
  {
    var r := NameItems(range, names);
    NameItemsAt(range, names);
    if item in r {
      var i :| 0 <= i < |r| && r[i] == item;
      assert names[i] in names;
    }
    if n :| n in names && item == AcronymItem(range, n) {
      var i :| 0 <= i < |names| && names[i] == n;
      assert r[i] == item;
    }
  }

  /**
   * An item is pushed exactly for each defined name: the suggestions are the
   * acronym names of the subset's LaTeX documents and nothing else.
   */
  lemma {:induction false} AcronymItemsMembers(range: TextRange, docs: seq<Document>, name: string)
    ensures AcronymItem(range, name) in AcronymItems(range, docs) <==> Defined(docs, name)
  {
    if docs != [] {
      var init, last := docs[..|docs| - 1], docs[|docs| - 1];
      AcronymItemsMembers(range, init, name);
      NameItemsMembers(range, DocumentNames(last), AcronymItem(range, name));
      DocumentNamesMembers(last, name);
      assert docs == init + [last];
      if Defined(docs, name) && !Defined(init, name) {
        var d :| d in docs && DocumentDefines(d, name);
        assert d == last;
      }
    }
  }

  /** Every item replaces `range` and suggests an acronym. */
  predicate AcronymShaped(items: seq<InternalCompletionItem>, range: TextRange) {
    forall i :: 0 <= i < |items| ==> items[i].range == range && items[i].data.Acronym?
  }

  lemma ShapedAppend(a: seq<InternalCompletionItem>, b: seq<InternalCompletionItem>, range: TextRange)
    requires AcronymShaped(a, range) && AcronymShaped(b, range)
    ensures AcronymShaped(a + b, range)
  {
    forall i | 0 <= i < |a + b|
      ensures (a + b)[i].range == range && (a + b)[i].data.Acronym?
    {
      if i < |a| {
        assert (a + b)[i] == a[i];
      } else {
        assert (a + b)[i] == b[i - |a|];
      }
    }
  }

  lemma NamesShaped(range: TextRange, names: seq<string>)
    ensures AcronymShaped(NameItems(range, names), range)
  {
    NameItemsAt(range, names);
  }

  lemma {:induction false} DocumentsShaped(range: TextRange, docs: seq<Document>)
    ensures AcronymShaped(AcronymItems(range, docs), range)
  {
    if docs != [] {
      DocumentsShaped(range, docs[..|docs| - 1]);
      NamesShaped(range, DocumentNames(docs[|docs| - 1]));
      ShapedAppend(AcronymItems(range, docs[..|docs| - 1]), NameItems(range, DocumentNames(docs[|docs| - 1])), range);
    }
  }

  /** Every item suggests an acronym and replaces the range of the word under the cursor. */
  lemma AcronymItemsShape(range: TextRange, docs: seq<Document>)
    ensures SameRange(AcronymItems(range, docs), range)
    ensures forall i :: 0 <= i < |AcronymItems(range, docs)| ==> AcronymItems(range, docs)[i].data.Acronym?
  {
    DocumentsShaped(range, docs);
  }

  /** Documents of the other grammar contribute nothing. */
  lemma {:induction false} BibtexDocumentsContributeNothing(range: TextRange, docs: seq<Document>)
    requires forall i :: 0 <= i < |docs| ==> docs[i].data.BibtexData?
    ensures AcronymItems(range, docs) == []
  {
    if docs != [] {
      BibtexDocumentsContributeNothing(range, docs[..|docs| - 1]);
    }
  }

  /** `for name in ... { items.push(..) }` for one document. */
  method PushNames(range: TextRange, names: seq<string>, items: ItemBuffer)
    modifies items
    ensures items.items == old(items.items) + NameItems(range, names)
  {
    var i := 0;
    while i < |names|
      invariant 0 <= i <= |names|
      invariant items.items == old(items.items) + NameItems(range, names[..i])
    {
      assert names[..i + 1][..i] == names[..i];
      items.Push(AcronymItem(range, names[i]));
      i := i + 1;
    }
    assert names[..i] == names;
  }

  /** One step of the document loop: the items of one more document are appended. */
  lemma PushStep(range: TextRange, docs: seq<Document>, i: nat, start: seq<InternalCompletionItem>,
                 before: seq<InternalCompletionItem>, after: seq<InternalCompletionItem>)
    requires i < |docs|
    requires before == start + AcronymItems(range, docs[..i])
    requires after == before + NameItems(range, DocumentNames(docs[i]))
    ensures after == start + AcronymItems(range, docs[..i + 1])
  {
    AcronymItemsSnoc(range, docs, i);
    Regroup(start, AcronymItems(range, docs[..i]), NameItems(range, DocumentNames(docs[i])));
  }

  /** Associativity of concatenation, as a separate step so that `PushStep` does not unfold `AcronymItems`. */
  lemma Regroup(a: seq<InternalCompletionItem>, b: seq<InternalCompletionItem>, c: seq<InternalCompletionItem>)
    ensures (a + b) + c == a + (b + c)
  {
  }

  lemma AcronymItemsSnoc(range: TextRange, docs: seq<Document>, i: nat)
    requires i < |docs|
    ensures AcronymItems(range, docs[..i + 1])
         == AcronymItems(range, docs[..i]) + NameItems(range, DocumentNames(docs[i]))
  {
    assert docs[..i + 1][..i] == docs[..i];
  }

  /** `if let Some(data) = document.data.as_latex() { .. }`: the names of a LaTeX document. */
  method PushDocument(range: TextRange, doc: Document, items: ItemBuffer)
    modifies items
    ensures items.items == old(items.items) + NameItems(range, DocumentNames(doc))
  {
    if doc.data.LatexData? {
      PushNames(range, DocumentNames(doc), items);
    } else {
      assert items.items + [] == items.items;
    }
  }

  /** The loop over the subset's documents. */
  method PushDocuments(range: TextRange, docs: seq<Document>, items: ItemBuffer)
    modifies items
    ensures items.items == old(items.items) + AcronymItems(range, docs)
  {
    var i := 0;
    while i < |docs|
      invariant 0 <= i <= |docs|
      invariant items.items == old(items.items) + AcronymItems(range, docs[..i])
    {
      ghost var before := items.items;
      PushDocument(range, docs[i], items);
      PushStep(range, docs, i, old(items.items), before, items.items);
      i := i + 1;
    }
    assert AcronymItems(range, docs[..i]) == AcronymItems(range, docs) by {
      assert docs[..i] == docs;
    }
  }

  /**
   * `complete_acronyms`: nothing when cancelled or when the cursor is not in
   * the curly-group word of an acronym reference; otherwise one item per
   * acronym definition of the subset's LaTeX documents.
   */
  method CompleteAcronyms(ctx: CursorContext, items: ItemBuffer, cancelled: bool) returns (completed: bool)
    modifies items
    ensures completed <==> !cancelled && GroupWordUnder(ctx, AcronymReference).Some?
    ensures !completed ==> items.items == old(items.items)
    ensures completed ==>
      items.items == old(items.items) + AcronymItems(GroupWordUnder(ctx, AcronymReference).value, ctx.subset)
  {
    if cancelled {
      return false;
    }
    var found := GroupWordUnder(ctx, AcronymReference);
    if found.None? {
      return false;
    }
    PushDocuments(found.value, ctx.subset, items);
    return true;
  }
}
