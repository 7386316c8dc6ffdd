/**
 * The character stream the lexers build on (src/syntax/text.rs).
 *
 * A `CharStream` walks a text one Unicode scalar value at a time. It keeps
 * the byte index just past the consumed characters (their UTF-8 length) and
 * the line/character position reached, where a newline starts a new line and
 * every other character, whatever its encoded width, counts as one.
 */
module Text {
  import opened Wrappers

  datatype Position = Position(line: nat, character: nat)

  /** The derived `<` on positions: by line, then by character. */
  predicate Before(a: Position, b: Position) {
    a.line < b.line || (a.line == b.line && a.character < b.character)
  }

  datatype Range = Range(start: Position, end: Position)

  datatype Span = Span(range: Range, text: string) {
    function Start(): Position { range.start }
    function End(): Position { range.end }
  }

  /** `char::len_utf8`: the number of bytes UTF-8 uses for `c`. */
  function Utf8Len(c: char): (n: nat)
    ensures 1 <= n <= 4
    ensures n == 1 <==> c as int < 0x80
  {
    if c as int < 0x80 then 1
    else if c as int < 0x800 then 2
    else if c as int < 0x1_0000 then 3
    else 4
  }

  /** The UTF-8 length of a whole string. */
  function ByteLength(s: string): nat {
    if s == [] then 0 else ByteLength(s[..|s| - 1]) + Utf8Len(s[|s| - 1])
  }

  /** `update_position`: the position after reading `c` at `p`. */
  function Advance(p: Position, c: char): (q: Position)
    ensures Before(p, q)
  {
    if c == '\n' then Position(p.line + 1, 0) else Position(p.line, p.character + 1)
  }

  /** The position reached after consuming `s` from the start of the text. */
  function PositionAfter(s: string): Position {
    if s == [] then Position(0, 0) else Advance(PositionAfter(s[..|s| - 1]), s[|s| - 1])
  }

  /** `str::char_indices` of `s`, each byte index shifted by `offset`. */
  function CharIndicesFrom(s: string, offset: nat): (r: seq<(nat, char)>)
    ensures |r| == |s|
  {
    if s == [] then [] else [(offset, s[0])] + CharIndicesFrom(s[1..], offset + Utf8Len(s[0]))
  }

  function CharIndices(s: string): seq<(nat, char)> {
    CharIndicesFrom(s, 0)
  }

  /**
   * The byte slice `s[i..j]` of a `str`: the characters whose first byte lies
   * in `[i, j)`. (The source slices at character boundaries only.)
   */
  function ByteSlice(s: string, i: int, j: int): string {
    if s == [] then []
    else
      (if i <= 0 < j then [s[0]] else [])
      + ByteSlice(s[1..], i - Utf8Len(s[0]), j - Utf8Len(s[0]))
  }

  /** Reference definitions of the line and character of a position. */
  function NewlineCount(s: string): nat {
    if s == [] then 0 else NewlineCount(s[..|s| - 1]) + (if s[|s| - 1] == '\n' then 1 else 0)
  }

  /** The index just after the last newline of `s`, or 0 if it has none. */
  function LineStart(s: string): (k: nat)
    ensures k <= |s|
    ensures k > 0 ==> s[k - 1] == '\n'
    ensures forall i :: k <= i < |s| ==> s[i] != '\n'
  {
    if s == [] then 0 else if s[|s| - 1] == '\n' then |s| else LineStart(s[..|s| - 1])
  }

  /**
   * Where `skip_rest_of_line` stops when started before `s[k]`: just past the
   * first newline at or after `k`, or at the end of the text.
   */
  function RestOfLineEnd(s: string, k: nat): (e: nat)
    requires k <= |s|
    decreases |s| - k
    ensures k <= e <= |s|
    ensures e == k <==> k == |s|
    ensures forall i :: k <= i < e - 1 ==> s[i] != '\n'
    ensures e == |s| || s[e - 1] == '\n'
    ensures (exists i :: k <= i < |s| && s[i] == '\n') ==> e > k && s[e - 1] == '\n'
  {
    if k == |s| then k else if s[k] == '\n' then k + 1 else RestOfLineEnd(s, k + 1)
  }

  lemma {:induction false} ByteLengthAppend(a: string, b: string)
    ensures ByteLength(a + b) == ByteLength(a) + ByteLength(b)
    decreases |b|
  {
    if b == [] {
      assert a + b == a;
    } else {
      var b' := b[..|b| - 1];
      assert (a + b)[..|a + b| - 1] == a + b';
      ByteLengthAppend(a, b');
    }
  }

  /** The `k`-th pair of `char_indices` is the byte length of the first `k` characters and `s[k]`. */
  lemma {:induction false} CharIndicesAt(s: string, offset: nat, k: nat)
    requires k < |s|
    ensures CharIndicesFrom(s, offset)[k] == (offset + ByteLength(s[..k]), s[k])
    decreases |s|
  {
    if k > 0 {
      CharIndicesAt(s[1..], offset + Utf8Len(s[0]), k - 1);
      assert s[..k] == [s[0]] + s[1..][..k - 1];
      ByteLengthAppend([s[0]], s[1..][..k - 1]);
      assert ByteLength([s[0]]) == Utf8Len(s[0]) by {
        assert [s[0]][..0] == [];
      }
    }
  }

  /** Slicing by the byte offsets of two character boundaries gives the characters between them. */
  lemma {:induction false} ByteSliceOfBoundaries(s: string, a: nat, b: nat)
    requires a <= b <= |s|
    ensures ByteSlice(s, ByteLength(s[..a]), ByteLength(s[..b])) == s[a..b]
    decreases |s|
  {
    if a == 0 {
      assert s[..a] == [];
      ByteSlicePrefix(s, b, 0);
    } else {
      var t := s[1..];
      ByteLengthCons(s, a);
      ByteLengthCons(s, b);
      ByteSliceOfBoundaries(t, a - 1, b - 1);
      ByteSliceSkip(s, ByteLength(s[..a]), ByteLength(s[..b]));
      assert s[a..b] == t[a - 1..b - 1];
    }
  }

  /** Past the first character's bytes, the slice starts in the rest of the text. */
  lemma ByteSliceSkip(s: string, i: int, j: int)
    requires s != [] && i > 0
    ensures ByteSlice(s, i, j) == ByteSlice(s[1..], i - Utf8Len(s[0]), j - Utf8Len(s[0]))
  {
  }

  lemma ByteLengthCons(s: string, k: nat)
    requires 0 < k <= |s|
    ensures ByteLength(s[..k]) == Utf8Len(s[0]) + ByteLength(s[1..][..k - 1])
  {
    assert s[..k] == [s[0]] + s[1..][..k - 1];
    ByteLengthAppend([s[0]], s[1..][..k - 1]);
    assert [s[0]][..0] == [];
  }

  /** A slice that starts at or before the text and ends at a boundary is a prefix. */
  lemma {:induction false} ByteSlicePrefix(s: string, b: nat, i: int)
    requires b <= |s| && i <= 0
    ensures ByteSlice(s, i, ByteLength(s[..b])) == s[..b]
    decreases |s|
  {
    if s != [] {
      var w := Utf8Len(s[0]);
      var t := s[1..];
      if b == 0 {
        assert s[..b] == [];
        ByteSliceEmpty(t, i - w, 0 - w as int);
      } else {
        ByteLengthCons(s, b);
        assert s[..b] == [s[0]] + t[..b - 1];
        ByteSlicePrefix(t, b - 1, i - w);
      }
    }
  }

  lemma {:induction false} ByteSliceEmpty(s: string, i: int, j: int)
    requires j <= 0 || j <= i
    ensures ByteSlice(s, i, j) == []
    decreases |s|
  {
    if s != [] {
      ByteSliceEmpty(s[1..], i - Utf8Len(s[0]), j - Utf8Len(s[0]));
    }
  }

  /**
   * The position after `s` counts the newlines of `s` as lines and the
   * characters after the last newline as the character offset: one per
   * scalar value, however many bytes it takes.
   */
  lemma {:induction false} PositionAfterCounts(s: string)
    ensures PositionAfter(s) == Position(NewlineCount(s), |s| - LineStart(s))
    decreases |s|
  {
    if s != [] {
      PositionAfterCounts(s[..|s| - 1]);
    }
  }

  /** Consuming more of the text never moves the position back, and strictly advances it. */
  lemma {:induction false} PositionAfterMonotone(s: string, i: nat, j: nat)
    requires i < j <= |s|
    ensures Before(PositionAfter(s[..i]), PositionAfter(s[..j]))
    decreases j - i
  {
    assert s[..j][..j - 1] == s[..j - 1];
    if i < j - 1 {
      PositionAfterMonotone(s, i, j - 1);
      BeforeTransitive(PositionAfter(s[..i]), PositionAfter(s[..j - 1]), PositionAfter(s[..j]));
    }
  }

  lemma BeforeTransitive(a: Position, b: Position, c: Position)
    requires Before(a, b) && Before(b, c)
    ensures Before(a, c)
  {
  }

  /**
   * `CharStream`: the `chars` iterator is the rest of `char_indices(text)`
   * after `consumed` characters; the ghost fields name how many characters
   * were consumed in all and when the span was started.
   */
  class CharStream {
    const text: string
    var chars: seq<(nat, char)>
    var currentPosition: Position
    var currentIndex: nat
    var startPosition: Position
    var startIndex: nat
    ghost var consumed: nat
    ghost var startConsumed: nat

    ghost predicate Valid()
      reads this
    {
      && startConsumed <= consumed <= |text|
      && chars == CharIndices(text)[consumed..]
      && currentIndex == ByteLength(text[..consumed])
      && currentPosition == PositionAfter(text[..consumed])
      && startIndex == ByteLength(text[..startConsumed])
      && startPosition == PositionAfter(text[..startConsumed])
    }

    /** `CharStream::new`: nothing consumed, the span starts at the origin. */
    constructor (text: string)
      ensures Valid()
      ensures this.text == text && consumed == 0 && startConsumed == 0
      ensures currentPosition == Position(0, 0) && currentIndex == 0
    {
      this.text := text;
      chars := CharIndices(text);
      currentPosition := Position(0, 0);
      currentIndex := 0;
      startPosition := Position(0, 0);
      startIndex := 0;
      consumed := 0;
      startConsumed := 0;
      new;
      assert text[..0] == [];
    }

    /** `peek`: the character the next call of `Next` returns; the stream is left as it is. */
    method Peek() returns (c: Option<char>)
      requires Valid()
      ensures c == if consumed < |text| then Some(text[consumed]) else None
    {
      if chars == [] {
        c := None;
      } else {
        CharIndicesAt(text, 0, consumed);
        c := Some(chars[0].1);
      }
    }

    /** `satifies`: whether there is a next character and `test` holds of it. */
    method Satisfies(test: char -> bool) returns (b: bool)
      requires Valid()
      ensures b <==> consumed < |text| && test(text[consumed])
    {
      var c := Peek();
      b := c.Some? && test(c.value);
    }

    /** `update_position`. */
    method UpdatePosition(c: char)
      modifies this`currentPosition
      ensures currentPosition == Advance(old(currentPosition), c)
    {
      if c == '\n' {
        currentPosition := Position(currentPosition.line + 1, 0);
      } else {
        currentPosition := Position(currentPosition.line, currentPosition.character + 1);
      }
    }

    /**
     * `next`: consumes one character, moving the byte index by its UTF-8
     * length and the position by `Advance`; at the end of the text nothing changes.
     */
    method Next() returns (c: Option<char>)
      requires Valid()
      modifies this
      ensures Valid()
      ensures startConsumed == old(startConsumed)
      ensures startIndex == old(startIndex) && startPosition == old(startPosition)
      ensures old(consumed) < |text| ==>
        && c == Some(text[old(consumed)])
        && consumed == old(consumed) + 1
        && currentIndex == old(currentIndex) + Utf8Len(text[old(consumed)])
        && currentPosition == Advance(old(currentPosition), text[old(consumed)])
      ensures old(consumed) == |text| ==>
        c == None && consumed == old(consumed) && chars == old(chars)
        && currentIndex == old(currentIndex) && currentPosition == old(currentPosition)
    {
      if chars != [] {
        CharIndicesAt(text, 0, consumed);
        var (i, ch) := chars[0];
        chars := chars[1..];
        currentIndex := i + Utf8Len(ch);
        UpdatePosition(ch);
        assert text[..consumed + 1] == text[..consumed] + [ch];
        ByteLengthAppend(text[..consumed], [ch]);
        assert ByteLength([ch]) == Utf8Len(ch) by {
          assert [ch][..0] == [];
        }
        consumed := consumed + 1;
        c := Some(ch);
      } else {
        c := None;
      }
    }

    /** `skip_rest_of_line`: consumes up to and including the next newline, or to the end. */
    method SkipRestOfLine()
      requires Valid()
      modifies this
      ensures Valid()
      ensures startConsumed == old(startConsumed)
      ensures startIndex == old(startIndex) && startPosition == old(startPosition)
      ensures consumed == RestOfLineEnd(text, old(consumed))
    {
      while true
        invariant Valid()
        invariant startConsumed == old(startConsumed)
        invariant startIndex == old(startIndex) && startPosition == old(startPosition)
        invariant old(consumed) <= consumed <= |text|
        invariant RestOfLineEnd(text, consumed) == RestOfLineEnd(text, old(consumed))
        decreases |text| - consumed
      {
        var c := Peek();
        match c {
          case Some(ch) =>
            var _ := Next();
            if ch == '\n' {
              break;
            }
          case None =>
            break;
        }
      }
    }

    /** `start_span`: the span now starts at the current index and position. */
    method StartSpan()
      requires Valid()
      modifies this`startIndex, this`startPosition, this`startConsumed
      ensures Valid()
      ensures startConsumed == consumed
      ensures startIndex == currentIndex && startPosition == currentPosition
    {
      startIndex := currentIndex;
      startPosition := currentPosition;
      startConsumed := consumed;
    }

    /**
     * `end_span`: the range from the span's start to the current position,
     * with exactly the characters consumed since `StartSpan`.
     */
    method EndSpan() returns (span: Span)
      requires Valid()
      ensures span.Start() == startPosition && span.End() == currentPosition
      ensures span.text == text[startConsumed..consumed]
      ensures !Before(span.End(), span.Start())
    {
      ByteSliceOfBoundaries(text, startConsumed, consumed);
      if startConsumed < consumed {
        PositionAfterMonotone(text, startConsumed, consumed);
      }
      span := Span(Range(startPosition, currentPosition), ByteSlice(text, startIndex, currentIndex));
    }

    /**
     * `seek`: consumes characters while the position is before `position`,
     * so it stops at the first position not before it. The loop only ends
     * when `position` is not past the end of the text, since `Next` does not
     * move at the end.
     */
    method Seek(position: Position)
      requires Valid()
      requires !Before(PositionAfter(text), position)
      modifies this
      ensures Valid()
      ensures startConsumed == old(startConsumed)
      ensures startIndex == old(startIndex) && startPosition == old(startPosition)
      ensures old(consumed) <= consumed
      ensures !Before(currentPosition, position)
      ensures forall k :: old(consumed) <= k < consumed ==> Before(PositionAfter(text[..k]), position)
    {
      while Before(currentPosition, position)
        invariant Valid()
        invariant startConsumed == old(startConsumed)
        invariant startIndex == old(startIndex) && startPosition == old(startPosition)
        invariant old(consumed) <= consumed
        invariant forall k :: old(consumed) <= k < consumed ==> Before(PositionAfter(text[..k]), position)
        decreases |text| - consumed
      {
        assert text[..|text|] == text;
        var _ := Next();
      }
    }
  }
}
