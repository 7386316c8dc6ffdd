# texlab completion and rename core, modelled in Dafny

This project models the completion and rename core of texlab, a language
server for LaTeX and BibTeX, and the character stream its lexer uses:

- `CharStream` (`text.dfy`) walks UTF-8 text while tracking a byte index and
  a line/character position, and cuts spans out of the text;
- completion ranking (`quality.dfy`) scores labels against the query at the
  cursor on eight levels and re-sorts the items stably by descending score;
- the completion providers for command arguments (`argument.dfy`), acronym
  references (`acronym_ref.dfy`), colours (`color.dfy`), command symbols
  (`command_symbol.dfy`) and citations (`citation.dfy`, from the Kotlin
  implementation) compute their items from the cursor context: the argument,
  acronym and colour providers append to a shared list items that all replace
  the one range at the cursor, while the command-symbol and citation providers
  build and return a fresh list whose items carry no range;
- command rename (`rename_command.dfy`) collects one edit per matching
  command-name token across the related LaTeX documents, or nothing at all
  when the request is cancelled.

The shared concrete syntax tree, the cursor context and the item buffer are
in `syntax.dfy`, `cursor.dfy` and `completion.dfy`; `text_scenarios.dfy`
states what the unit tests of `src/syntax/text.rs` expect of a stream.

The mutable parts of the program stay mutable in the model. `CharStream` is
a class whose methods update its fields. The `&mut Vec` the providers push
into is the `ItemBuffer` class. `execute` sorts an array in place. Each
method is proved against a specification function, and the properties the
code promises are lemmas about those functions.

## Model

| member | source | states |
|---|---|---|
| Text.Utf8Len | src/syntax/text.rs:103 | a character takes 1 to 4 bytes, and exactly 1 when it is ASCII |
| Text.Advance | src/syntax/text.rs:88-95 | reading a character always moves the position strictly forward |
| Text.RestOfLineEnd | src/syntax/text.rs:54-69 | where skipping the rest of the line stops: after the first newline at or after `k`, else at the end; it moves exactly when input remains |
| Text.CharIndicesAt | src/syntax/text.rs:38 | the k-th pair of `char_indices` is the k-th character with the byte length of the characters before it |
| Text.ByteLengthAppend | src/syntax/text.rs:101-105 | the byte length of consumed text adds up over concatenation |
| Text.ByteSliceOfBoundaries | src/syntax/text.rs:76-80 | slicing the text between the byte offsets of two character boundaries gives exactly the characters between them |
| Text.PositionAfterCounts | src/syntax/text.rs:88-95 | the position after a prefix is (number of newlines, characters since the last newline), so an emoji counts as one column |
| Text.PositionAfterMonotone | src/syntax/text.rs:82-86 | consuming more characters gives a strictly later position |
| Text.CharStream.constructor | src/syntax/text.rs:35-44 | a new stream has consumed nothing and sits at index 0, position (0, 0) |
| Text.CharStream.Peek | src/syntax/text.rs:46-48 | returns the next unconsumed character, or none at the end, and changes nothing |
| Text.CharStream.Satisfies | src/syntax/text.rs:50-52 | true exactly when there is a next character and the test holds of it; changes nothing |
| Text.CharStream.UpdatePosition | src/syntax/text.rs:88-95 | a newline moves to the next line at column 0; any other character adds one column |
| Text.CharStream.Next | src/syntax/text.rs:101-109 | returns the next character, moves the index by its UTF-8 length and the position by one step; at the end it returns none and changes nothing; the stream invariant is kept |
| Text.CharStream.SkipRestOfLine | src/syntax/text.rs:54-69 | consumes up to and including the next newline, or to the end; a no-op at the end |
| Text.CharStream.StartSpan | src/syntax/text.rs:71-74 | the span start becomes the current index and position |
| Text.CharStream.EndSpan | src/syntax/text.rs:76-80 | the span runs from the start position to the current one, which is not before it, and its text is exactly the characters consumed since the start |
| Text.CharStream.Seek | src/syntax/text.rs:82-86 | consumes characters while the position is before the target and stops at the first position not before it |
| TextScenarios.PeekThenNext | src/syntax/text.rs:118-130 | on "ab\nc", peek and next agree on a, b, newline, c, then both give none |
| TextScenarios.AsciiSpan | src/syntax/text.rs:132-143 | on "abc\ndef", the span over the second and third characters is "bc" from (0, 1) to (0, 3) |
| TextScenarios.EmojiSpan | src/syntax/text.rs:145-154 | on four emoji, the span over the second and third is those two emoji from (0, 1) to (0, 3) |
| TextScenarios.SatisfiesLowerCase | src/syntax/text.rs:156-162 | on "aBc", a lower-case test holds of the first character and not of the second |
| TextScenarios.SkipLines | src/syntax/text.rs:164-173 | on "abc\ndef", skipping a line leads to 'd', and skipping again at the end leaves nothing |
| TextScenarios.SeekTextPositions | src/syntax/text.rs:176-181 | the positions after the prefixes of "abc\ndefghi" that seeking (1, 2) passes |
| TextScenarios.SeekLineTwo | src/syntax/text.rs:176-181 | seeking (1, 2) in "abc\ndefghi" stops right before 'f' |
| Quality.Lower | src/completion/quality.rs:84 | lower-casing keeps the length and maps every character |
| Quality.GetQuality | src/completion/quality.rs:78-108 | the score lies in 0..7 and is 0 exactly when there is no query |
| Quality.QualityIsHighestCriterion | src/completion/quality.rs:80-104 | first match wins: the score is the highest level whose test the label passes, else 1 |
| Quality.LowerStartsWith | src/completion/quality.rs:88-93 | a prefix stays a prefix after lower-casing both sides |
| Quality.LowerContains | src/completion/quality.rs:96-102 | a substring stays a substring after lower-casing both sides |
| Quality.QualityAtLeastTwo | src/completion/quality.rs:80-104 | a label scores at least 2 exactly when the lower-cased query occurs in the lower-cased label |
| Quality.EmptyQuery | src/completion/quality.rs:80-90 | an empty query gives the empty label 7 and any other label 5 |
| Quality.LatexQuery | src/completion/quality.rs:30-44 | a command found at the cursor, or a command node reported last, gives its name without the backslash; root and group give ""; a text node gives its last word; no result or a text without words gives no query |
| Quality.KindQuery | src/completion/quality.rs:46-52 | the kind token's text without its first character when the position is on it, else "" |
| Quality.GetQuery | src/completion/quality.rs:28-76 | no query exactly when a LaTeX document has no command at the cursor and no node or a text node without words last, or a BibTeX document has no node at the position |
| Quality.BibtexQuery | src/completion/quality.rs:53-73 | no node gives no query; a field gives its name when the position is on it, else ""; comments and words give their text; commands drop the backslash; entry, string and preamble use the kind query; root and content nodes give "" |
| Quality.QualityKeyLeveled | src/completion/quality.rs:24 | the sort key takes only the eight values 0 to 7 |
| Quality.BucketLevel | src/completion/quality.rs:24 | the items of one level all have that score |
| Quality.RankedIsSorted | src/completion/quality.rs:24 | the ranking is ordered by non-increasing score |
| Quality.RankedPermutes | src/completion/quality.rs:24 | the ranking is a permutation of the items |
| Quality.RankedIsStable | src/completion/quality.rs:24 | items of equal score keep their original order |
| Quality.SortedIsRanked | src/completion/quality.rs:24 | items already ordered by score are left as they are |
| Quality.StableSortIsUnique | src/completion/quality.rs:24 | any stable ordering by non-increasing score equals the ranking, so the ranking is what `sort_by_key` produces |
| Quality.CollectLevel | src/completion/quality.rs:24 | collects the items of one score, in order |
| Quality.SortByDescendingKey | src/completion/quality.rs:24 | the array ends up holding the ranking of its old contents |
| Quality.Execute | src/completion/quality.rs:14-26 | the items are re-sorted in place by descending quality against the query at the position |
| Strings.DropEscape | src/features/completion/argument.rs:40 | removes exactly the first character |
| Cursor.GroupWordUnder | src/features/completion/acronym_ref.rs:18-19 | a range comes back exactly when the cursor is on a curly-group word whose group's parent has the wanted kind, and it is that word's range |
| Completion.ItemBuffer.Push | src/features/completion/argument.rs:62 | appends one item and keeps the ones before |
| Arguments.ReplacementRange | src/features/completion/argument.rs:22-26 | the word's own range when the token is a word, else the empty range at the offset |
| Arguments.EnclosingGroup | src/features/completion/argument.rs:28-29 | the token's parent when it is a curly group; otherwise the grandparent when that is one; none exactly when neither is |
| Arguments.CurlyGroups | src/features/completion/argument.rs:36-37 | exactly the curly-group children |
| Arguments.CurlyGroupsAppend | src/features/completion/argument.rs:36-37 | the groups keep the children's order: the groups of two runs of children are those of the first followed by those of the second |
| Arguments.CurlyGroupsSingle | src/features/completion/argument.rs:36-37 | one child is kept exactly when it is a curly group |
| Arguments.RangePosition | src/features/completion/argument.rs:38 | the index of the first group with the given range, or none when no group has it |
| Arguments.CommandName | src/features/completion/argument.rs:40 | a generic-command-name token among the children, or none when there is none |
| Arguments.CommandNameFirst | src/features/completion/argument.rs:40 | the token found is the first generic-command-name child: no child before it is one |
| Arguments.ArgumentSiteAt | src/features/completion/argument.rs:20-40 | a site exactly when all guards pass: a LaTeX token, an enclosing curly group the cursor is inside, a generic command as its parent, a curly group of the command with the group's range, and a command name; the index is the first such group, the command name is the name token's text without its backslash, and the range is the word's range or the empty range at the offset |
| Arguments.ParameterItemsAtIndex | src/features/completion/argument.rs:48-53 | the parameter filter picks exactly the parameter at the index, and nothing past the last one |
| Arguments.ArgumentsItemsMembers | src/features/completion/argument.rs:54-63 | an item is there exactly for an argument of the parameter |
| Arguments.ArgumentsItemsAt | src/features/completion/argument.rs:54-63 | one item per argument, in the parameter's order, so a repeated argument gives repeated items |
| Arguments.CommandItemsMembers | src/features/completion/argument.rs:43-64 | items come exactly from the commands of the wanted name that have a parameter at the index |
| Arguments.CommandItemsAppend | src/features/completion/argument.rs:43-47 | commands contribute in their order: the items of two runs of commands are those of the first, then those of the second |
| Arguments.CommandItemsSingle | src/features/completion/argument.rs:43-64 | one command gives the items of its parameter at the index when it has the wanted name, and nothing otherwise |
| Arguments.ArgumentItemsAppend | src/features/completion/argument.rs:42 | components contribute in their order, each with all its items, so an argument declared by two linked components is pushed twice |
| Arguments.ArgumentItemsSingle | src/features/completion/argument.rs:42-66 | one component gives the items of its commands |
| Arguments.ArgumentItemsMembers | src/features/completion/argument.rs:42-66 | an item is pushed exactly for each argument that a linked component declares for that command and index |
| Arguments.ArgumentItemsSameRange | src/features/completion/argument.rs:22-26 | every pushed item carries the one replacement range |
| Arguments.PastLastParameter | src/features/completion/argument.rs:174-188 | in a group past the last parameter of every such command, nothing is pushed |
| Arguments.PushArguments | src/features/completion/argument.rs:54-63 | appends the arguments' items in order |
| Arguments.PushParameters | src/features/completion/argument.rs:48-64 | appends the items of the parameter at the index |
| Arguments.PushCommands | src/features/completion/argument.rs:43-65 | appends the items of the commands with the wanted name |
| Arguments.PushComponents | src/features/completion/argument.rs:42-66 | appends the items of every linked component, component by component |
| Arguments.CompleteArguments | src/features/completion/argument.rs:13-69 | nothing changes when cancelled or when a guard fails; otherwise exactly the argument items are appended after the existing ones |
| AcronymRef.FirstChildFound | src/features/completion/acronym_ref.rs:27-28 | the child found has the kind and no earlier child has it; none is found only when no child has the kind |
| AcronymRef.AcronymKeyIsKey | src/features/completion/acronym_ref.rs:27-28 | the name found for a definition is a key node |
| AcronymRef.KeyText | src/features/completion/acronym_ref.rs:29 | a token gives the empty text; a key of one word gives that word |
| AcronymRef.DefinedNames | src/features/completion/acronym_ref.rs:23-29 | at most one name per node |
| AcronymRef.DefinedNamesAppend | src/features/completion/acronym_ref.rs:23-29 | the names follow the order of the nodes they come from |
| AcronymRef.DefinedNamesSingle | src/features/completion/acronym_ref.rs:26-29 | a node gives exactly one name, its key's text, when it is an acronym definition with a key, and none otherwise |
| AcronymRef.DefinedNamesMembers | src/features/completion/acronym_ref.rs:23-29 | the names are exactly those of the acronym definitions that have a key |
| AcronymRef.DocumentNamesMembers | src/features/completion/acronym_ref.rs:22-29 | a document contributes a name exactly when it is a LaTeX document with a definition of it |
| AcronymRef.NameItemsAt | src/features/completion/acronym_ref.rs:31-34 | one acronym item per name, in order |
| AcronymRef.NameItemsMembers | src/features/completion/acronym_ref.rs:31-34 | an item is there exactly for a listed name |
| AcronymRef.AcronymItemsMembers | src/features/completion/acronym_ref.rs:21-37 | an item is pushed for a name exactly when a LaTeX document of the subset defines it |
| AcronymRef.AcronymItemsShape | src/features/completion/acronym_ref.rs:31-34 | every item is an acronym with the found range |
| AcronymRef.BibtexDocumentsContributeNothing | src/features/completion/acronym_ref.rs:22 | BibTeX documents give no items |
| AcronymRef.PushNames | src/features/completion/acronym_ref.rs:23-35 | appends one item per name, in order |
| AcronymRef.PushDocument | src/features/completion/acronym_ref.rs:22-36 | appends the items of a LaTeX document's names, nothing for another document |
| AcronymRef.PushDocuments | src/features/completion/acronym_ref.rs:21-37 | appends the items of the documents of the subset, document by document |
| AcronymRef.CompleteAcronyms | src/features/completion/acronym_ref.rs:11-39 | nothing changes when cancelled or outside an acronym reference's group word; otherwise the acronym items of the subset are appended |
| Colors.ColorItemsAreColors | src/features/completion/color.rs:22-27 | one item per colour, in table order, all with the found range |
| Colors.CompleteColors | src/features/completion/color.rs:12-30 | nothing changes when cancelled or outside a colour reference's group word; otherwise the colour items are appended |
| CommandSymbols.Provides | src/completion/latex/command_symbol.rs:22 | true exactly when some related component lists the file |
| CommandSymbols.ItemOf | src/completion/latex/command_symbol.rs:20-38 | a kernel symbol always gives a kernel item; a component symbol gives a `User([component])` item exactly when a related component provides it |
| CommandSymbols.SymbolItemsSingle | src/completion/latex/command_symbol.rs:20-38 | one symbol contributes exactly the item `ItemOf` gives it and nothing else, so an unprovided component symbol contributes nothing |
| CommandSymbols.SymbolItemsAppend | src/completion/latex/command_symbol.rs:19-39 | the items follow database order |
| CommandSymbols.SymbolItems | src/completion/latex/command_symbol.rs:19-39 | at most one item per database symbol |
| CommandSymbols.KernelSymbolEmitted | src/completion/latex/command_symbol.rs:31-37 | every kernel symbol is offered, with the kernel id |
| CommandSymbols.ComponentSymbolItems | src/completion/latex/command_symbol.rs:21-29 | a component symbol is offered exactly when a related component provides it |
| CommandSymbols.CommandSymbolItems | src/completion/latex/command_symbol.rs:12-41 | the loop's items are the symbol items of the database |
| Citations.EntryItemsAppend | src/main/kotlin/texlab/completion/latex/LatexCitationProvider.kt:21-24 | inside one document the items follow the order of the root's children |
| Citations.EntryItemsSingle | src/main/kotlin/texlab/completion/latex/LatexCitationProvider.kt:22-24 | one child gives exactly one item when it is a named entry, and none otherwise |
| Citations.EntryItemsMembers | src/main/kotlin/texlab/completion/latex/LatexCitationProvider.kt:22-24 | items are exactly the named entries among the children |
| Citations.EntryItems | src/main/kotlin/texlab/completion/latex/LatexCitationProvider.kt:22-24 | at most one item per child, and every item is a named entry |
| Citations.Complete | src/main/kotlin/texlab/completion/latex/LatexCitationProvider.kt:17-25 | every item is a named entry |
| Citations.CompleteMembers | src/main/kotlin/texlab/completion/latex/LatexCitationProvider.kt:19-24 | an item exactly for each named top-level entry of a related BibTeX document |
| Citations.EntryItemsLength | src/main/kotlin/texlab/completion/latex/LatexCitationProvider.kt:22-24 | one item per named entry |
| Citations.CompleteLength | src/main/kotlin/texlab/completion/latex/LatexCitationProvider.kt:19-24 | one item per named top-level entry over all documents |
| Citations.CompleteAppend | src/main/kotlin/texlab/completion/latex/LatexCitationProvider.kt:19-21 | items follow document order |
| Citations.NestedEntriesIgnored | src/main/kotlin/texlab/completion/latex/LatexCitationProvider.kt:21-22 | an entry that is no root child of any related BibTeX document, such as one below another node, gives no item |
| Citations.NestedEntryExample | src/main/kotlin/texlab/completion/latex/LatexCitationProvider.kt:21-22 | a document whose only entry sits inside another node gives no items at all |
| RenameCommand.MatchingTokens | src/features/rename/command.rs:40-41 | keeps only command-name tokens spelled like the cursor's token |
| RenameCommand.Edits | src/features/rename/command.rs:42-50 | one edit per token, in order, from one byte past the token start to its end, with the new name |
| RenameCommand.MatchingTokensSingle | src/features/rename/command.rs:40-41 | one element is kept exactly once when it is a matching command-name token, and dropped otherwise |
| RenameCommand.MatchingTokensAppend | src/features/rename/command.rs:39-41 | the kept tokens follow tree order: those of two runs of elements are those of the first, then the second |
| RenameCommand.MatchingTokensMembers | src/features/rename/command.rs:37-41 | exactly the matching tokens of the tree are kept |
| RenameCommand.DocumentEditsShape | src/features/rename/command.rs:37-50 | each edit replaces a matching token of the tree, after its backslash, by the new name |
| RenameCommand.RenameLoop | src/features/rename/command.rs:33-54 | a result only when none of the first k document checks trips |
| RenameCommand.RenameResult | src/features/rename/command.rs:25-57 | a result only when not cancelled at entry, a command name is at the offset and the cursor is on a LaTeX token |
| RenameCommand.RenameLoopAllOrNothing | src/features/rename/command.rs:33-54 | the document loop gives a result exactly when no check trips, and then it is the full change map |
| RenameCommand.RenameAllOrNothing | src/features/rename/command.rs:25-57 | a result exactly when not cancelled anywhere, a command is at the offset and the token is LaTeX; it is then the full change map |
| RenameCommand.RenameChangesKeys | src/features/rename/command.rs:36-52 | every LaTeX document gets an entry and no other URI does |
| RenameCommand.RenameChangesValues | src/features/rename/command.rs:36-52 | with distinct URIs, each LaTeX document's entry holds that document's edits |
| RenameCommand.Rename | src/features/rename/command.rs:25-57 | the method returns the rename result |
| RenameCommand.FooEdits | src/features/rename/command.rs:65-97 | `\baz\include{bar.tex}` gets the single edit of bytes 1 to 4 |
| RenameCommand.BarEdits | src/features/rename/command.rs:65-97 | `\baz` gets the single edit of bytes 1 to 4 |
| RenameCommand.TwoDocumentRename | src/features/rename/command.rs:65-97 | renaming `\baz` to `qux` over both documents edits bytes 1 to 4 in each |

## Left out

- The concrete syntax tree is a plain datatype; the parsers that build it, and the casts other than a kind test, are not part of this model.
- `CursorContext` is a record holding the answers of `as_latex`, `find_curly_group_word`, `is_inside_latex_curly` and `command_range` at the request offset. Their computation is not part of this model.
- The finders behind `get_query` (`LatexCommandFinder`, `LatexFinder`, `BibtexFinder`) are represented by their results: the command found and the nodes visited, innermost last.
- The component database (`linked_components`, `related_components`), the symbol database and `LANGUAGE_DATA.colors` are parameters.
- The completion item factories are left out. An item records what the factory is given.
- `LatexCombinators::command`, which decides whether the command-symbol provider runs at all, is not part of this model. Only the symbol filter inside it is modelled.
- `prepare_command_rename` (src/features/rename/command.rs:12-23) reduces to `commandRange` of the context, since both `command_range` and `line_col_lsp_range` are not part of this model; no separate member models it, and the rename states its guard as `commandRange` being present.
- `line_col_lsp_range` (byte ranges to UTF-16 line/column) is not part of this model. Rename edits stay in byte ranges, which match line/column ranges on single-line ASCII text.
- `async`/`await!` are plain sequential calls. Cancellation is a boolean for the providers. For rename it is a function giving the outcome of each successive check.
- `HashMap` identity of URIs becomes a map keyed by URI string.
- The `sort_by_key` of the standard library is replaced by a stable counting sort over the eight levels. `Quality.StableSortIsUnique` shows that every stable sort by that key gives the same order.
- Quality.Lower: lower-cases ASCII letters only, because Unicode `to_lowercase` (which can change a string's length) is not modelled.
- Quality.KindQuery: `range::contains` is not part of this model and is taken to include both ends of the range.
- Quality.BibtexQuery: the field arm uses the same inclusive reading of `range::contains` for the field name (src/completion/quality.rs:62).
- Strings.DropEscape: on empty text it gives empty text, where the source's `[1..]` would panic. The lexer never produces an empty command name.
- AcronymRef.KeyText: `Key::to_string` is not part of this model. It is taken to join the key's words with single spaces.
- Text.CharStream.Seek: requires the target not to lie past the end of the text, because the source loop never ends there (`next` no longer moves at the end).
- Integer widths are left out: `u32` line/character (`Position`) and `usize` byte indices are unbounded naturals, since no texlab input approaches their bounds.
- `Span::new`, `start` and `end` are the `Span` datatype and its `Start`/`End` accessors.
- The Kotlin `LatexArgumentProvider` base class, which dispatches on command names and the argument index, is not part of this model, and so neither is the argument index 0 the citation provider declares (LatexCitationProvider.kt:15): the model starts once that dispatch has chosen the provider.
- The Kotlin `LatexComponentMetadataProvider`, `src/metadata/component.ts` (network requests and JSON), `TikzLibraryProvider` (a constant table), the `WorkspaceBuilder` test fixture and `src/lib.rs` (module declarations) are outside the core.

## Notes on the source

- In the BibTeX arm of `get_query`, the kind of an entry, string or preamble yields its text without its first character (`&kind.text()[1..]`, src/completion/quality.rs:48). The model follows this: the `@` is dropped, not kept.
