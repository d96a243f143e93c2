/**
 * The `Cursor` of src/runtime/runtime.ts: a stream with a current position `i`,
 * and the line utilities of `Lines` re-exposed on it.  Its bounds check reports
 * the cursor's own position `this.i`, not the index it was asked about.
 */
module RuntimeCursor {
  import opened Common
  import opened Lines

  /** `nonPrintCharName`: the name of a space, newline or tab, `undefined` (None) for anything else. */
  function NonPrintCharName(c: Option<char>): (r: Option<string>)
    ensures r == Some("SPACE") <==> c == Some(' ')
    ensures r == Some("NEW LINE") <==> c == Some('\n')
    ensures r == Some("TAB") <==> c == Some('\t')
    ensures r.None? <==> c !in {Some(' '), Some('\n'), Some('\t')}
  {
    match c
    case Some(' ') => Some("SPACE")
    case Some('\n') => Some("NEW LINE")
    case Some('\t') => Some("TAB")
    case _ => None
  }

  /** An error of a line function, re-labelled with the index the bounds check of `Cursor` reports. */
  function Relabel<T>(r: Result<T, Error>, at: int, len: int): (q: Result<T, Error>)
    ensures q.Ok? <==> r.Ok?
    ensures q.Ok? ==> q == r
    ensures q.Err? ==> q.error == IndexOutOfBounds(at, len)
  {
    if r.Err? then Err(IndexOutOfBounds(at, len)) else r
  }

  class Cursor {
    const stream: string
    var i: int

    constructor(stream: string, i: int)
      ensures this.stream == stream && this.i == i
    {
      this.stream := stream;
      this.i := i;
    }

    /** `assertWithinBoundaries(k)`: accepts 0 <= k < length, and otherwise reports `this.i`. */
    function AssertWithinBoundaries(k: int): (r: Result<(), Error>)
      reads this
      ensures r.Ok? <==> 0 <= k < |stream|
      ensures r.Err? ==> r.error == IndexOutOfBounds(i, |stream|)
    {
      if 0 <= k < |stream| then Ok(()) else Err(IndexOutOfBounds(i, |stream|))
    }

    /** `update(k)` moves the cursor. */
    method Update(k: int)
      modifies this
      ensures i == k
    {
      i := k;
    }

    /** `currChar(k)`: the character at k, `undefined` outside the stream. */
    function CurrChar(k: int): (r: Option<char>)
      ensures r.Some? <==> 0 <= k < |stream|
      ensures r.Some? ==> r.value == stream[k]
    {
      At(stream, k)
    }

    /** `allBefore(k)`: `stream.slice(0, k)`. */
    function AllBefore(k: int): string
    {
      Slice(stream, 0, k)
    }

    /** `allAfter(k)`: `stream.slice(k, length)`. */
    function AllAfter(k: int): string
    {
      Slice(stream, k, |stream|)
    }

    /**
     * Whatever k is (negative and past-the-end ones included, under the
     * clamping of `slice`), the text before and the text after it make up the
     * stream.
     */
    lemma AllBeforeAfter(k: int)
      ensures AllBefore(k) + AllAfter(k) == stream
      ensures 0 <= k <= |stream| ==> |AllBefore(k)| == k
    {
      var p := Clip(k, |stream|);
      assert AllBefore(k) == stream[..p];
      assert AllAfter(k) == stream[p..];
      assert stream[..p] + stream[p..] == stream;
    }

    /** `linesBeforeString(k, n)`: `linesBefore` of the stream, out of range reported at `this.i`. */
    method LinesBeforeString(k: int, n: int) returns (r: Result<string, Error>)
      ensures r == Relabel(LinesBeforeSpec(stream, k, n), i, |stream|)
    {
      r := LinesBefore(stream, k, n);
      if r.Err? {
        r := Err(IndexOutOfBounds(i, |stream|));
      }
    }

    /** `linesAfterString(k, n)`: `linesAfter` of the stream, out of range reported at `this.i`. */
    method LinesAfterString(k: int, n: int) returns (r: Result<string, Error>)
      ensures r == Relabel(LinesAfterSpec(stream, k, n), i, |stream|)
    {
      r := LinesAfter(stream, k, n);
      if r.Err? {
        r := Err(IndexOutOfBounds(i, |stream|));
      }
    }

    /**
     * `lineAroundString(k)`: the line through k and the offset of k in it, so
     * that the character at the offset is the one at k.
     */
    method LineAroundString(k: int) returns (r: Result<(string, int), Error>)
      ensures r.Err? <==> |stream| > 0 && !(0 <= k < |stream|)
      ensures r.Err? ==> r.error == IndexOutOfBounds(i, |stream|)
      ensures r.Ok? && |stream| > 0 ==>
        var (line, pos) := r.value;
        0 <= k < |stream| && 0 <= pos < |line| && pos <= k && k - pos + |line| <= |stream| &&
        line == stream[k - pos..k - pos + |line|] && line[pos] == stream[k] &&
        '\n' !in line[..|line| - 1]
      ensures r.Ok? && |stream| > 0 ==>
        r.value == (BeforeText(stream, k, 1) + AfterText(stream, k, 1), |BeforeText(stream, k, 1)|)
      ensures r.Ok? && |stream| == 0 ==> r.value == ("", 0)
    {
      // linesBeforeString(k, 1) + linesAfterString(k, 1), and the length of the first
      var around := LinesAround(stream, k, 1, 1);
      r := Relabel(around, i, |stream|);
    }

    /**
     * `linesAfterArray(k, n)`: at most n lines from k on, none holding a newline,
     * all of them (joined with newlines) for n = -1.
     */
    method LinesAfterArrayOf(k: int, n: int) returns (r: Result<seq<string>, Error>)
      ensures r == Relabel(LinesAfterArraySpec(stream, k, n), i, |stream|)
    {
      r := LinesAfterArray(stream, k, n);
      if r.Err? {
        r := Err(IndexOutOfBounds(i, |stream|));
      }
    }
  }

  /** `prettyCharAt(k)` as written: "EOF" at the end, otherwise the name of the character at the cursor `pos`. */
  function PrettyCharAtAsWritten(stream: string, pos: int, k: int): (r: Option<string>)
    ensures k == |stream| ==> r == Some("EOF")
    ensures k != |stream| ==> r == NonPrintCharName(At(stream, pos))
  {
    if k == |stream| then Some("EOF") else NonPrintCharName(At(stream, pos))
  }

  /** `prettyCharAt(k)` naming the character at k, the position it was asked about. */
  function PrettyCharAt(stream: string, k: int): (r: Option<string>)
    ensures k == |stream| ==> r == Some("EOF")
    ensures 0 <= k < |stream| && stream[k] == ' ' ==> r == Some("SPACE")
    ensures 0 <= k < |stream| && stream[k] == '\n' ==> r == Some("NEW LINE")
    ensures 0 <= k < |stream| && stream[k] == '\t' ==> r == Some("TAB")
    ensures 0 <= k < |stream| && stream[k] !in {' ', '\n', '\t'} ==> r.None?
    ensures !(0 <= k <= |stream|) ==> r.None?
  {
    if k == |stream| then Some("EOF") else NonPrintCharName(At(stream, k))
  }

  /**
   * With the cursor at 1 on " a", `prettyCharAt(0)` names the character at 1
   * (it has no name) instead of the space at 0.
   */
  lemma PrettyCharAtIgnoresItsArgument()
    ensures PrettyCharAtAsWritten(" a", 1, 0).None?
    ensures PrettyCharAt(" a", 0) == Some("SPACE")
  {
  }
}
