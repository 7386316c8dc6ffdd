/**
 * Citation completion of the Kotlin implementation
 * (src/main/kotlin/texlab/completion/latex/LatexCitationProvider.kt): every
 * named entry at the top level of a related BibTeX document becomes a
 * citation item.
 */
module Citations {
  import opened Wrappers

  /** The BibTeX syntax tree of that implementation: entries, possibly unnamed, and other nodes. */
  datatype BibtexSyntax =
    | BibtexEntrySyntax(name: Option<string>, children: seq<BibtexSyntax>)
    | BibtexOtherSyntax(children: seq<BibtexSyntax>)

  /** A related document: a BibTeX document with its root's children, or a LaTeX document. */
  datatype RelatedDocument = LatexDocument | BibtexDocument(rootChildren: seq<BibtexSyntax>)

  /** What `CompletionItemFactory.createCitation` is given: the entry itself. */
  datatype CitationItem = CitationItem(entry: BibtexSyntax)

  /** `filterIsInstance<BibtexEntrySyntax>().filter { it.name != null }.map { createCitation(it) }`. */
  function EntryItems(children: seq<BibtexSyntax>): (r: seq<CitationItem>)
    ensures |r| <= |children|
    ensures forall i :: 0 <= i < |r| ==> r[i].entry.BibtexEntrySyntax? && r[i].entry.name.Some?
  {
    if children == [] then []
    else
      (if children[0].BibtexEntrySyntax? && children[0].name.Some? then [CitationItem(children[0])] else [])
      + EntryItems(children[1..])
  }

  /** `complete`: the pipeline over the related documents. */
  function Complete(docs: seq<RelatedDocument>): (r: seq<CitationItem>)
    ensures forall i :: 0 <= i < |r| ==> r[i].entry.BibtexEntrySyntax? && r[i].entry.name.Some?
  {
    if docs == [] then []
    else (if docs[0].BibtexDocument? then EntryItems(docs[0].rootChildren) else []) + Complete(docs[1..])
  }

  /** A top-level named entry of a BibTeX document. */
  ghost predicate Cited(docs: seq<RelatedDocument>, e: BibtexSyntax) {
    exists d :: d in docs && d.BibtexDocument? && e in d.rootChildren && e.BibtexEntrySyntax? && e.name.Some?
  }

  lemma {:induction false} EntryItemsMembers(children: seq<BibtexSyntax>, item: CitationItem)
    ensures item in EntryItems(children) <==>
      item.entry in children && item.entry.BibtexEntrySyntax? && item.entry.name.Some?
  {
    if children != [] {
      EntryItemsMembers(children[1..], item);
      assert children == [children[0]] + children[1..];
    }
  }

  /** An item is produced exactly for the named entries at the top level of related BibTeX documents. */
  lemma {:induction false} CompleteMembers(docs: seq<RelatedDocument>, item: CitationItem)
    ensures item in Complete(docs) <==> Cited(docs, item.entry)
  {
    if docs != [] {
      CompleteMembers(docs[1..], item);
      if docs[0].BibtexDocument? {
        EntryItemsMembers(docs[0].rootChildren, item);
      }
      assert docs == [docs[0]] + docs[1..];
      if Cited(docs, item.entry) && !Cited(docs[1..], item.entry) {
        var d :| d in docs && d.BibtexDocument? && item.entry in d.rootChildren
          && item.entry.BibtexEntrySyntax? && item.entry.name.Some?;
        assert d == docs[0];
      }
    }
  }

  /** The number of named top-level entries. */
  function NamedEntryCount(children: seq<BibtexSyntax>): nat {
    if children == [] then 0
    else (if children[0].BibtexEntrySyntax? && children[0].name.Some? then 1 else 0) + NamedEntryCount(children[1..])
  }

  function CitationCount(docs: seq<RelatedDocument>): nat {
    if docs == [] then 0
    else (if docs[0].BibtexDocument? then NamedEntryCount(docs[0].rootChildren) else 0) + CitationCount(docs[1..])
  }

  /** Inside one document the items follow the order of the root's children. */
  lemma {:induction false} EntryItemsAppend(a: seq<BibtexSyntax>, b: seq<BibtexSyntax>)
    ensures EntryItems(a + b) == EntryItems(a) + EntryItems(b)
  {
    if a == [] {
      assert a + b == b;
    } else {
      assert (a + b)[1..] == a[1..] + b;
      EntryItemsAppend(a[1..], b);
    }
  }

  /** One child gives an item exactly when it is a named entry. */
  lemma EntryItemsSingle(c: BibtexSyntax)
    ensures EntryItems([c]) == if c.BibtexEntrySyntax? && c.name.Some? then [CitationItem(c)] else []
  {
    assert [c][1..] == [];
  }

  lemma {:induction false} EntryItemsLength(children: seq<BibtexSyntax>)
    ensures |EntryItems(children)| == NamedEntryCount(children)
  {
    if children != [] {
      EntryItemsLength(children[1..]);
    }
  }

  /** Exactly one item per named top-level entry, so duplicates are kept. */
  lemma {:induction false} CompleteLength(docs: seq<RelatedDocument>)
    ensures |Complete(docs)| == CitationCount(docs)
  {
    if docs != [] {
      CompleteLength(docs[1..]);
      if docs[0].BibtexDocument? {
        EntryItemsLength(docs[0].rootChildren);
      }
    }
  }

  /** Items follow document order: a document list split in two gives the items of each half, in turn. */
  lemma {:induction false} CompleteAppend(a: seq<RelatedDocument>, b: seq<RelatedDocument>)
    ensures Complete(a + b) == Complete(a) + Complete(b)
  {
    if a != [] {
      assert (a + b)[1..] == a[1..] + b;
      CompleteAppend(a[1..], b);
    } else {
      assert a + b == b;
    }
  }

  /**
   * Nested entries are not considered: an entry that is no root child of any
   * related BibTeX document, such as one below another node, gives no item.
   */
  lemma NestedEntriesIgnored(docs: seq<RelatedDocument>, e: BibtexSyntax)
    requires forall d :: d in docs && d.BibtexDocument? ==> e !in d.rootChildren
    ensures CitationItem(e) !in Complete(docs)
  {
    CompleteMembers(docs, CitationItem(e));
  }

  /** The simplest such document: one entry inside another node gives no item at all. */
  lemma NestedEntryExample(name: string)
    ensures Complete([BibtexDocument([BibtexOtherSyntax([BibtexEntrySyntax(Some(name), [])])])]) == []
  {
    var children := [BibtexOtherSyntax([BibtexEntrySyntax(Some(name), [])])];
    assert children[1..] == [];
    assert EntryItems(children) == [];
    var docs := [BibtexDocument(children)];
    assert docs[1..] == [];
  }
}
