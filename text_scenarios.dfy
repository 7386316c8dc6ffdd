/**
 * The behaviour the unit tests of src/syntax/text.rs expect of `CharStream`,
 * stated as methods that drive a stream and promise the observed results.
 */
module TextScenarios {
  import opened Wrappers
  import opened Text

  /** `test_peek`: `peek` announces each character `next` returns, then both give none. */
  method PeekThenNext() returns (peeks: seq<Option<char>>, nexts: seq<Option<char>>)
    ensures peeks == nexts == [Some('a'), Some('b'), Some('\n'), Some('c'), None]
  {
    var stream := new CharStream("ab\nc");
    var p0 := stream.Peek();
    var n0 := stream.Next();
    var p1 := stream.Peek();
    var n1 := stream.Next();
    var p2 := stream.Peek();
    var n2 := stream.Next();
    var p3 := stream.Peek();
    var n3 := stream.Next();
    var p4 := stream.Peek();
    var n4 := stream.Next();
    peeks, nexts := [p0, p1, p2, p3, p4], [n0, n1, n2, n3, n4];
  }

  /** `test_span`: after one character, a span over the next two reads "bc" from (0, 1) to (0, 3). */
  method AsciiSpan() returns (span: Span)
    ensures span == Span(Range(Position(0, 1), Position(0, 3)), "bc")
  {
    var stream := new CharStream("abc\ndef");
    var _ := stream.Next();
    stream.StartSpan();
    var _ := stream.Next();
    var _ := stream.Next();
    span := stream.EndSpan();
    assert stream.text[..1] == "a" && stream.text[..3] == "abc";
  }

  /** `test_span_unicode`: each emoji moves the column by one, whatever its UTF-8 length. */
  method EmojiSpan() returns (span: Span)
    ensures span == Span(Range(Position(0, 1), Position(0, 3)), "\U{1F603}\U{1F604}")
  {
    var stream := new CharStream("\U{1F600}\U{1F603}\U{1F604}\U{1F601}");
    var _ := stream.Next();
    stream.StartSpan();
    var _ := stream.Next();
    var _ := stream.Next();
    span := stream.EndSpan();
    assert stream.text[..1] == "\U{1F600}" && stream.text[..3] == "\U{1F600}\U{1F603}\U{1F604}";
  }

  /** `test_satifies`: a lower-case test holds of `a` and, one character on, not of `B`. */
  method SatisfiesLowerCase() returns (first: bool, second: bool)
    ensures first && !second
  {
    var stream := new CharStream("aBc");
    first := stream.Satisfies(c => 'a' <= c <= 'z');
    var _ := stream.Next();
    second := stream.Satisfies(c => 'a' <= c <= 'z');
  }

  /** `test_skip_rest_of_line`: skipping moves to the next line, and at the end it does nothing. */
  method SkipLines() returns (a: Option<char>, b: Option<char>, c: Option<char>)
    ensures a == Some('d') && b == None && c == None
  {
    var stream := new CharStream("abc\ndef");
    stream.SkipRestOfLine();
    a := stream.Next();
    stream.SkipRestOfLine();
    b := stream.Next();
    stream.SkipRestOfLine();
    c := stream.Next();
  }

  /** The positions after the prefixes of "abc\ndefghi" that the seek below passes. */
  lemma SeekTextPositions(text: string)
    requires text == "abc\ndefghi"
    ensures PositionAfter(text) == Position(1, 6)
    ensures PositionAfter(text[..6]) == Position(1, 2)
    ensures PositionAfter(text[..5]) == Position(1, 1)
  {
    forall k | 0 <= k < |text|
      ensures text[..k + 1][..k] == text[..k]
    {
    }
    assert text[..0] == [];
    assert PositionAfter(text[..1]) == Position(0, 1);
    assert PositionAfter(text[..2]) == Position(0, 2);
    assert PositionAfter(text[..3]) == Position(0, 3);
    assert PositionAfter(text[..4]) == Position(1, 0);
    assert PositionAfter(text[..5]) == Position(1, 1);
    assert PositionAfter(text[..6]) == Position(1, 2);
    assert PositionAfter(text[..7]) == Position(1, 3);
    assert PositionAfter(text[..8]) == Position(1, 4);
    assert PositionAfter(text[..9]) == Position(1, 5);
    assert text[..10] == text;
  }

  /** `test_seek`: seeking (1, 2) in "abc\ndefghi" stops before 'f'. */
  method SeekLineTwo() returns (c: Option<char>)
    ensures c == Some('f')
  {
    var stream := new CharStream("abc\ndefghi");
    SeekTextPositions(stream.text);
    stream.Seek(Position(1, 2));
    ghost var k := stream.consumed;
    if k > 6 {
      assert false;
    }
    if k < 6 {
      assert !Before(PositionAfter(stream.text[..k]), Position(1, 2));
      if k < 5 {
        PositionAfterMonotone(stream.text, k, 5);
      }
      assert false;
    }
    c := stream.Peek();
  }
}
