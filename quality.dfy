/**
 * Ranking of merged completion items (src/completion/quality.rs): the query
 * at the cursor, the eight-level quality of a label against it, and the
 * stable re-sort of the items by descending quality.
 */
module Quality {
  import opened Wrappers
  import opened Text
  import opened Strings

  // ---------------------------------------------------------------------
  // Labels against a query
  // ---------------------------------------------------------------------

  /** `to_lowercase`, on ASCII letters. */
  function LowerChar(c: char): char {
    if 'A' <= c <= 'Z' then (c as int + 32) as char else c
  }

  function Lower(s: string): (r: string)
    ensures |r| == |s|
    ensures forall i :: 0 <= i < |s| ==> r[i] == LowerChar(s[i])
  {
    if s == [] then [] else [LowerChar(s[0])] + Lower(s[1..])
  }

  /** `str::starts_with`. */
  predicate StartsWith(s: string, prefix: string) {
    |prefix| <= |s| && s[..|prefix|] == prefix
  }

  /** `str::contains`: `part` occurs in `s` at some offset. */
  predicate Contains(s: string, part: string)
    decreases |s|
  {
    StartsWith(s, part) || (s != [] && Contains(s[1..], part))
  }

  /** `get_quality`: first match wins, from an exact match (7) down to any label (1); no query scores 0. */
  function GetQuality(query: Option<string>, itemLabel: string): (q: int)
    ensures 0 <= q <= 7
    ensures q == 0 <==> query.None?
  {
    match query
    case None => 0
    case Some(query) =>
      if itemLabel == query then 7
      else if Lower(itemLabel) == Lower(query) then 6
      else if StartsWith(itemLabel, query) then 5
      else if StartsWith(Lower(itemLabel), Lower(query)) then 4
      else if Contains(itemLabel, query) then 3
      else if Contains(Lower(itemLabel), Lower(query)) then 2
      else 1
  }

  /** The test behind each quality level from 2 to 7. */
  predicate Criterion(level: int, query: string, itemLabel: string) {
    match level
    case 7 => itemLabel == query
    case 6 => Lower(itemLabel) == Lower(query)
    case 5 => StartsWith(itemLabel, query)
    case 4 => StartsWith(Lower(itemLabel), Lower(query))
    case 3 => Contains(itemLabel, query)
    case 2 => Contains(Lower(itemLabel), Lower(query))
    case _ => false
  }

  /** The quality of a label is the highest level whose test it passes, or 1 when it passes none. */
  lemma QualityIsHighestCriterion(query: string, itemLabel: string)
    ensures var q := GetQuality(Some(query), itemLabel);
      && 1 <= q
      && (q >= 2 ==> Criterion(q, query, itemLabel))
      && (forall m :: q < m <= 7 ==> !Criterion(m, query, itemLabel))
  {
  }

  lemma {:induction false} LowerPrefix(s: string, n: nat)
    requires n <= |s|
    ensures Lower(s)[..n] == Lower(s[..n])
  {
    assert |Lower(s[..n])| == n;
  }

  lemma {:induction false} LowerStartsWith(s: string, prefix: string)
    requires StartsWith(s, prefix)
    ensures StartsWith(Lower(s), Lower(prefix))
  {
    LowerPrefix(s, |prefix|);
  }

  lemma {:induction false} LowerContains(s: string, part: string)
    requires Contains(s, part)
    ensures Contains(Lower(s), Lower(part))
    decreases |s|
  {
    if StartsWith(s, part) {
      LowerStartsWith(s, part);
    } else {
      LowerContains(s[1..], part);
      assert Lower(s)[1..] == Lower(s[1..]);
    }
  }

  lemma StartsWithContains(s: string, part: string)
    requires StartsWith(s, part)
    ensures Contains(s, part)
  {
  }

  /**
   * Every level above 1 implies the weakest test, so a label scores at least
   * 2 exactly when the lower-cased query occurs in the lower-cased label.
   */
  lemma {:induction false} QualityAtLeastTwo(query: string, itemLabel: string)
    ensures GetQuality(Some(query), itemLabel) >= 2 <==> Contains(Lower(itemLabel), Lower(query))
  {
    var l, q := Lower(itemLabel), Lower(query);
    if itemLabel == query || l == q {
      assert StartsWith(l, q) by {
        assert l[..|q|] == l;
      }
      StartsWithContains(l, q);
    } else if StartsWith(itemLabel, query) {
      LowerStartsWith(itemLabel, query);
      StartsWithContains(l, q);
    } else if StartsWith(l, q) {
      StartsWithContains(l, q);
    } else if Contains(itemLabel, query) {
      LowerContains(itemLabel, query);
    }
  }

  /** An empty query is a prefix of every label: the empty label scores 7, every other one 5. */
  lemma EmptyQuery(itemLabel: string)
    ensures GetQuality(Some(""), itemLabel) == if itemLabel == "" then 7 else 5
  {
    assert itemLabel[..0] == "";
  }

  // ---------------------------------------------------------------------
  // The query at the cursor
  // ---------------------------------------------------------------------

  /** A token of the syntax trees the finders walk: its text and its range. */
  datatype Token = Token(text: string, range: Range)

  /** `range::contains`, inclusive at both ends. */
  predicate RangeContains(range: Range, position: Position) {
    !Before(position, range.start) && !Before(range.end, position)
  }

  datatype LatexNode =
    | LatexRoot
    | LatexGroup
    | LatexCommand(name: Token)
    | LatexText(words: seq<Token>)

  datatype BibtexNode =
    | BibtexRoot
    | BibtexPreamble(kind: Token)
    | BibtexString(kind: Token)
    | BibtexEntry(kind: Token)
    | BibtexComment(token: Token)
    | BibtexField(name: Token)
    | BibtexWord(token: Token)
    | BibtexCommand(token: Token)
    | BibtexQuotedContent
    | BibtexBracedContent
    | BibtexConcat

  /**
   * What the finders report at the request position: for LaTeX, the name of
   * the command `LatexCommandFinder` found and the nodes `LatexFinder`
   * visited; for BibTeX, the nodes `BibtexFinder` visited. Innermost last.
   */
  datatype DocumentTree =
    | LatexTree(command: Option<Token>, latexNodes: seq<LatexNode>)
    | BibtexTree(bibtexNodes: seq<BibtexNode>)

  /** The LaTeX arm of `get_query`. */
  function LatexQuery(command: Option<Token>, nodes: seq<LatexNode>): (r: Option<string>)
    ensures command.Some? && |command.value.text| > 0 ==>
      r.Some? && command.value.text == [command.value.text[0]] + r.value
    ensures r.None? <==>
      command.None? && (nodes == [] || nodes[|nodes| - 1] == LatexText([]))
    ensures command.None? && nodes != [] && (nodes[|nodes| - 1].LatexRoot? || nodes[|nodes| - 1].LatexGroup?) ==>
      r == Some("")
    ensures command.None? && nodes != [] && nodes[|nodes| - 1].LatexText? && r.Some? ==>
      var words := nodes[|nodes| - 1].words;
      words != [] && r.value == words[|words| - 1].text
    ensures command.None? && nodes != [] && nodes[|nodes| - 1].LatexCommand? && |nodes[|nodes| - 1].name.text| > 0 ==>
      var name := nodes[|nodes| - 1].name.text;
      r.Some? && name == [name[0]] + r.value
  {
    var node: Option<LatexNode> := if command.Some? then Some(LatexCommand(command.value))
                else if nodes == [] then None
                else Some(nodes[|nodes| - 1]);
    match node
    case None => None
    case Some(LatexRoot) => Some("")
    case Some(LatexGroup) => Some("")
    case Some(LatexCommand(name)) => Some(DropEscape(name.text))
    case Some(LatexText(words)) =>
      if words == [] then None else Some(words[|words| - 1].text)
  }

  /** `get_kind_query`: the kind without its `@` while the position is on it, else the empty query. */
  function KindQuery(kind: Token, position: Position): (r: Option<string>)
    ensures r.Some?
    ensures !RangeContains(kind.range, position) ==> r.value == ""
    ensures RangeContains(kind.range, position) && |kind.text| > 0 ==>
      kind.text == [kind.text[0]] + r.value
  {
    if RangeContains(kind.range, position) then Some(DropEscape(kind.text)) else Some("")
  }

  /** The BibTeX arm of `get_query`. */
  function BibtexQuery(nodes: seq<BibtexNode>, position: Position): (r: Option<string>)
    ensures r.None? <==> nodes == []
    ensures nodes != [] && nodes[|nodes| - 1].BibtexField? ==>
      r.value == if RangeContains(nodes[|nodes| - 1].name.range, position)
                 then nodes[|nodes| - 1].name.text else ""
    ensures nodes != [] && (nodes[|nodes| - 1].BibtexQuotedContent? || nodes[|nodes| - 1].BibtexBracedContent?
                            || nodes[|nodes| - 1].BibtexConcat? || nodes[|nodes| - 1].BibtexRoot?) ==>
      r.value == ""
    ensures nodes != [] && (nodes[|nodes| - 1].BibtexComment? || nodes[|nodes| - 1].BibtexWord?) ==>
      r.value == nodes[|nodes| - 1].token.text
    ensures nodes != [] && nodes[|nodes| - 1].BibtexCommand? && |nodes[|nodes| - 1].token.text| > 0 ==>
      nodes[|nodes| - 1].token.text == [nodes[|nodes| - 1].token.text[0]] + r.value
    ensures nodes != [] && (nodes[|nodes| - 1].BibtexPreamble? || nodes[|nodes| - 1].BibtexString?
                            || nodes[|nodes| - 1].BibtexEntry?) ==>
      r == KindQuery(nodes[|nodes| - 1].kind, position)
  {
    if nodes == [] then None
    else
      match nodes[|nodes| - 1]
      case BibtexRoot => Some("")
      case BibtexPreamble(kind) => KindQuery(kind, position)
      case BibtexString(kind) => KindQuery(kind, position)
      case BibtexEntry(kind) => KindQuery(kind, position)
      case BibtexComment(token) => Some(token.text)
      case BibtexField(name) =>
        if RangeContains(name.range, position) then Some(name.text) else Some("")
      case BibtexWord(token) => Some(token.text)
      case BibtexCommand(token) => Some(DropEscape(token.text))
      case BibtexQuotedContent => Some("")
      case BibtexBracedContent => Some("")
      case BibtexConcat => Some("")
  }

  /** `get_query`. */
  function GetQuery(tree: DocumentTree, position: Position): (r: Option<string>)
    ensures r.None? <==>
      || (tree.LatexTree? && tree.command.None?
          && (tree.latexNodes == [] || tree.latexNodes[|tree.latexNodes| - 1] == LatexText([])))
      || (tree.BibtexTree? && tree.bibtexNodes == [])
  {
    match tree
    case LatexTree(command, nodes) => LatexQuery(command, nodes)
    case BibtexTree(nodes) => BibtexQuery(nodes, position)
  }

  // ---------------------------------------------------------------------
  // Stable ordering by descending quality
  // ---------------------------------------------------------------------

  /** A merged completion item; only its label takes part in the ranking. */
  datatype CompletionItem = CompletionItem(itemLabel: string, detail: Option<string>)

  /** The sort key of `execute`, as a quality: `get_quality(query, &item.label)`. */
  function QualityKey(query: Option<string>): CompletionItem -> int {
    (item: CompletionItem) => GetQuality(query, item.itemLabel)
  }

  /** A key with the eight quality levels 0 to 7. */
  ghost predicate Leveled<T(!new)>(key: T -> int) {
    forall x :: 0 <= key(x) <= 7
  }

  lemma QualityKeyLeveled(query: Option<string>)
    ensures Leveled(QualityKey(query))
  {
  }

  /** The items of quality `level`, in their original order. */
  function Bucket<T>(items: seq<T>, key: T -> int, level: int): seq<T> {
    if items == [] then []
    else
      var last := items[|items| - 1];
      Bucket(items[..|items| - 1], key, level) + (if key(last) == level then [last] else [])
  }

  /** The items whose quality is above `level`, in their original order. */
  function Above<T>(items: seq<T>, key: T -> int, level: int): seq<T> {
    if items == [] then []
    else
      var last := items[|items| - 1];
      Above(items[..|items| - 1], key, level) + (if key(last) > level then [last] else [])
  }

  /** The levels above `level`, from 7 down, each level's items in their original order. */
  function RankedFrom<T>(items: seq<T>, key: T -> int, level: int): seq<T>
    decreases 7 - level
  {
    if level >= 7 then [] else RankedFrom(items, key, level + 1) + Bucket(items, key, level + 1)
  }

  /** The reference for `sort_by_key(|item| -quality)`: all levels from 7 down to 0. */
  function Ranked<T>(items: seq<T>, key: T -> int): seq<T> {
    RankedFrom(items, key, -1)
  }

  predicate SortedByKey<T>(items: seq<T>, key: T -> int) {
    forall i, j :: 0 <= i < j < |items| ==> key(items[i]) >= key(items[j])
  }

  lemma {:induction false} BucketLevel<T>(items: seq<T>, key: T -> int, level: int)
    ensures forall i :: 0 <= i < |Bucket(items, key, level)| ==> key(Bucket(items, key, level)[i]) == level
  {
    if items != [] {
      BucketLevel(items[..|items| - 1], key, level);
    }
  }

  lemma {:induction false} RankedFromAbove<T>(items: seq<T>, key: T -> int, level: int)
    ensures forall i :: 0 <= i < |RankedFrom(items, key, level)| ==>
      key(RankedFrom(items, key, level)[i]) > level
    decreases 7 - level
  {
    if level < 7 {
      RankedFromAbove(items, key, level + 1);
      BucketLevel(items, key, level + 1);
    }
  }

  lemma {:induction false} RankedFromSorted<T>(items: seq<T>, key: T -> int, level: int)
    ensures SortedByKey(RankedFrom(items, key, level), key)
    decreases 7 - level
  {
    if level < 7 {
      RankedFromSorted(items, key, level + 1);
      RankedFromAbove(items, key, level + 1);
      BucketLevel(items, key, level + 1);
    }
  }

  /** The ranking is ordered by non-increasing quality. */
  lemma RankedIsSorted<T>(items: seq<T>, key: T -> int)
    ensures SortedByKey(Ranked(items, key), key)
  {
    RankedFromSorted(items, key, -1);
  }

  lemma {:induction false} AboveSplit<T>(items: seq<T>, key: T -> int, level: int)
    ensures multiset(Above(items, key, level))
         == multiset(Above(items, key, level + 1)) + multiset(Bucket(items, key, level + 1))
  {
    if items != [] {
      AboveSplit(items[..|items| - 1], key, level);
    }
  }

  lemma {:induction false} AboveAll<T(!new)>(items: seq<T>, key: T -> int)
    requires Leveled(key)
    ensures Above(items, key, -1) == items
    ensures Above(items, key, 7) == []
  {
    if items != [] {
      AboveAll(items[..|items| - 1], key);
    }
  }

  lemma {:induction false} RankedFromPermutes<T(!new)>(items: seq<T>, key: T -> int, level: int)
    requires Leveled(key) && level <= 7
    ensures multiset(RankedFrom(items, key, level)) == multiset(Above(items, key, level))
    decreases 7 - level
  {
    if level == 7 {
      AboveAll(items, key);
    } else {
      RankedFromPermutes(items, key, level + 1);
      AboveSplit(items, key, level);
    }
  }

  /** The ranking is a permutation of the items. */
  lemma RankedPermutes<T(!new)>(items: seq<T>, key: T -> int)
    requires Leveled(key)
    ensures multiset(Ranked(items, key)) == multiset(items)
    ensures |Ranked(items, key)| == |items|
  {
    RankedFromPermutes(items, key, -1);
    AboveAll(items, key);
    assert |multiset(Ranked(items, key))| == |multiset(items)|;
  }

  lemma {:induction false} BucketAppend<T>(a: seq<T>, b: seq<T>, key: T -> int, level: int)
    ensures Bucket(a + b, key, level) == Bucket(a, key, level) + Bucket(b, key, level)
    decreases |b|
  {
    if b == [] {
      assert a + b == a;
    } else {
      assert (a + b)[..|a + b| - 1] == a + b[..|b| - 1];
      BucketAppend(a, b[..|b| - 1], key, level);
    }
  }

  lemma {:induction false} BucketOfBucket<T>(items: seq<T>, key: T -> int, level: int, other: int)
    ensures Bucket(Bucket(items, key, other), key, level)
         == if level == other then Bucket(items, key, other) else []
  {
    if items != [] {
      var init := items[..|items| - 1];
      var last := items[|items| - 1];
      BucketOfBucket(init, key, level, other);
      BucketAppend(Bucket(init, key, other), if key(last) == other then [last] else [], key, level);
      assert [last][..0] == [];
    }
  }

  lemma {:induction false} BucketNone<T>(items: seq<T>, key: T -> int, level: int)
    requires forall i :: 0 <= i < |items| ==> key(items[i]) != level
    ensures Bucket(items, key, level) == []
  {
    if items != [] {
      BucketNone(items[..|items| - 1], key, level);
    }
  }

  /** One level of `RankedFrom`: the bucket of `level` comes from the part above or from the new level. */
  lemma RankedFromStep<T>(items: seq<T>, key: T -> int, from: int, level: int)
    requires from < 7
    requires Bucket(RankedFrom(items, key, from + 1), key, level)
          == if from + 1 < level then Bucket(items, key, level) else []
    ensures Bucket(RankedFrom(items, key, from), key, level)
         == if from < level then Bucket(items, key, level) else []
  {
    BucketAppend(RankedFrom(items, key, from + 1), Bucket(items, key, from + 1), key, level);
    BucketOfBucket(items, key, level, from + 1);
  }

  lemma {:induction false} BucketOfRankedFrom<T(!new)>(items: seq<T>, key: T -> int, from: int, level: int)
    requires Leveled(key)
    ensures Bucket(RankedFrom(items, key, from), key, level)
         == if from < level then Bucket(items, key, level) else []
    decreases 7 - from
  {
    if from >= 7 {
      if from < level {
        BucketNone(items, key, level);
      }
    } else {
      BucketOfRankedFrom(items, key, from + 1, level);
      RankedFromStep(items, key, from, level);
    }
  }

  /**
   * Stability: the items of each quality appear in the ranking in the same
   * order as in the provider output.
   */
  lemma RankedIsStable<T(!new)>(items: seq<T>, key: T -> int, level: int)
    requires Leveled(key)
    ensures Bucket(Ranked(items, key), key, level) == Bucket(items, key, level)
  {
    BucketOfRankedFrom(items, key, -1, level);
    if level < 0 {
      BucketNone(items, key, level);
    }
  }

  lemma {:induction false} RankedFromOfSameBuckets<T>(a: seq<T>, b: seq<T>, key: T -> int, level: int)
    requires forall l :: Bucket(a, key, l) == Bucket(b, key, l)
    ensures RankedFrom(a, key, level) == RankedFrom(b, key, level)
    decreases 7 - level
  {
    if level < 7 {
      RankedFromOfSameBuckets(a, b, key, level + 1);
    }
  }

  /** Appending an item of the lowest quality so far puts it after everything else in the ranking. */
  lemma BucketSnoc<T>(items: seq<T>, x: T, key: T -> int, level: int)
    ensures Bucket(items + [x], key, level) == Bucket(items, key, level) + (if key(x) == level then [x] else [])
  {
    assert (items + [x])[..|items + [x]| - 1] == items;
  }

  lemma {:induction false} RankedFromSnoc<T>(items: seq<T>, x: T, key: T -> int, level: int)
    requires forall i :: 0 <= i < |items| ==> key(items[i]) >= key(x)
    requires level <= 7 && key(x) <= 7
    ensures RankedFrom(items + [x], key, level)
         == RankedFrom(items, key, level) + (if level < key(x) then [x] else [])
    decreases 7 - level
  {
    if level < 7 {
      var m := key(x);
      RankedFromSnoc(items, x, key, level + 1);
      BucketSnoc(items, x, key, level + 1);
      if level + 1 < m {
        BucketNone(items, key, level + 1);
      }
      SnocCombine(RankedFrom(items, key, level + 1), Bucket(items, key, level + 1), x, level + 1 < m, m == level + 1);
    }
  }

  /** One level of `RankedFromSnoc`: the new item lands above the level or in it, never in both. */
  lemma SnocCombine<T>(a: seq<T>, b: seq<T>, x: T, above: bool, at: bool)
    requires !(above && at)
    requires above ==> b == []
    ensures (a + (if above then [x] else [])) + (b + (if at then [x] else []))
         == (a + b) + (if above || at then [x] else [])
  {
    if above {
      assert b + [] == b;
    }
  }

  lemma {:induction false} SortedIsRanked<T(!new)>(items: seq<T>, key: T -> int)
    requires Leveled(key)
    requires SortedByKey(items, key)
    ensures Ranked(items, key) == items
    decreases |items|
  {
    if items == [] {
      RankedPermutes(items, key);
    } else {
      var init, x := items[..|items| - 1], items[|items| - 1];
      assert items == init + [x];
      SortedIsRanked(init, key);
      RankedFromSnoc(init, x, key, -1);
    }
  }

  /**
   * The ranking is THE stable sort: any ordering by non-increasing quality
   * that keeps each quality's items in their original order equals it.
   */
  lemma StableSortIsUnique<T(!new)>(items: seq<T>, sorted: seq<T>, key: T -> int)
    requires Leveled(key)
    requires SortedByKey(sorted, key)
    requires forall l :: Bucket(sorted, key, l) == Bucket(items, key, l)
    ensures sorted == Ranked(items, key)
  {
    SortedIsRanked(sorted, key);
    RankedFromOfSameBuckets(sorted, items, key, -1);
  }

  /** One pass of the sort over the items: those of quality `level`, in order. */
  method CollectLevel<T>(source: seq<T>, key: T -> int, level: int) returns (bucket: seq<T>)
    ensures bucket == Bucket(source, key, level)
  {
    bucket := [];
    var i := 0;
    while i < |source|
      invariant 0 <= i <= |source|
      invariant bucket == Bucket(source[..i], key, level)
    {
      assert source[..i + 1][..i] == source[..i];
      if key(source[i]) == level {
        bucket := bucket + [source[i]];
      }
      i := i + 1;
    }
    assert source[..i] == source;
  }

  /**
   * `sort_by_key` with the negated key, as `execute` calls it: the items of
   * `items` re-sorted in place by descending key, ties in their original order.
   */
  method SortByDescendingKey<T(!new)>(items: array<T>, key: T -> int)
    requires Leveled(key)
    modifies items
    ensures items[..] == Ranked(old(items[..]), key)
  {
    var source := items[..];
    var ranked: seq<T> := [];
    var level := 7;
    while level >= 0
      invariant -1 <= level <= 7
      invariant ranked == RankedFrom(source, key, level)
    {
      var bucket := CollectLevel(source, key, level);
      ranked := ranked + bucket;
      level := level - 1;
    }
    RankedPermutes(source, key);
    Overwrite(items, ranked);
  }

  /** Writes `values` over the elements of `items`. */
  method Overwrite<T>(items: array<T>, values: seq<T>)
    requires |values| == items.Length
    modifies items
    ensures items[..] == values
  {
    var k := 0;
    while k < items.Length
      invariant 0 <= k <= items.Length
      invariant items[..k] == values[..k]
    {
      items[k] := values[k];
      k := k + 1;
    }
  }

  /**
   * `execute`: the items the providers produced, re-sorted in place by
   * descending quality against the query at the request position.
   */
  method Execute(tree: DocumentTree, position: Position, items: array<CompletionItem>)
    modifies items
    ensures items[..] == Ranked(old(items[..]), QualityKey(GetQuery(tree, position)))
  {
    var query := GetQuery(tree, position);
    QualityKeyLeveled(query);
    SortByDescendingKey(items, QualityKey(query));
  }
}
