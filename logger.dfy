/**
 * The column `Logger` of src/runtime.ts: a text buffer made of columns, each
 * with its own list of lines, width bounds, alignment, cut marker, filler,
 * prefix/postfix and indentation settings.  Text is written into the current
 * column; `Dump` lays the columns side by side, one output row per line.
 */
module HyperLogger {
  import opened Common
  import opened Lines

  /** `Number.MAX_SAFE_INTEGER`, the "no upper bound" width. */
  const MAX: int := 9007199254740991

  /** `colWidth`: a number, or an object with optional `min` and `max`. */
  datatype Width = Num(n: int) | MinMax(min: Option<int>, max: Option<int>)

  /** A column with every option present (what `defaultCol` and the merges produce). */
  datatype Column = Column(
    lines: seq<string>,
    colWidth: Width,
    colCut: bool,
    colCutWith: string,
    colAlign: string,
    colCenterShift: string,
    colFiller: string,
    colPost: string,
    colPre: string,
    tabDepth: int,
    tabSize: int,
    tabChar: string)

  /** The options a caller passes: any subset of the column fields. */
  datatype ColumnOptions = ColumnOptions(
    lines: Option<seq<string>>,
    colWidth: Option<Width>,
    colCut: Option<bool>,
    colCutWith: Option<string>,
    colAlign: Option<string>,
    colCenterShift: Option<string>,
    colFiller: Option<string>,
    colPost: Option<string>,
    colPre: Option<string>,
    tabDepth: Option<int>,
    tabSize: Option<int>,
    tabChar: Option<string>)

  const NoOptions := ColumnOptions(None, None, None, None, None, None, None, None, None, None, None, None)

  /** `Logger.defaultCol`: automatic fixed width (-1), cut with ".", left aligned, two-space tabs. */
  const DefaultCol := Column([], Num(-1), true, ".", "left", "left", " ", "", "", 0, 2, " ")

  /** Why `verifyCol` rejects a column (the message of `IllFormedColumnOption`). */
  datatype ColumnProblem =
    | WidthBelowMinusTwo
    | NegativeMin
    | NegativeMax
    | MinAboveMax
    | BadAlign
    | BadCenterShift
    | BadFiller
    | NegativeTabDepth
    | NegativeTabSize
    | BadTabChar

  datatype LoggerError =
    | IllFormedColumnOption(problem: ColumnProblem)
    | ColumnIdxOutOfBoundaries(index: int, length: int)
    | ColumnsEmpty
  {
    function Code(): int
    {
      match this
      case IllFormedColumnOption(_) => 2
      case ColumnIdxOutOfBoundaries(_, _) => 1
      case ColumnsEmpty => 2
    }
  }

  function Pick<T>(o: Option<T>, d: T): T
  {
    if o.Some? then o.value else d
  }

  /** `overrideCol`: every option that is given replaces the column's field. */
  function OverrideCol(c: Column, o: ColumnOptions): Column
  {
    Column(
      Pick(o.lines, c.lines), Pick(o.colWidth, c.colWidth), Pick(o.colCut, c.colCut),
      Pick(o.colCutWith, c.colCutWith), Pick(o.colAlign, c.colAlign),
      Pick(o.colCenterShift, c.colCenterShift), Pick(o.colFiller, c.colFiller),
      Pick(o.colPost, c.colPost), Pick(o.colPre, c.colPre), Pick(o.tabDepth, c.tabDepth),
      Pick(o.tabSize, c.tabSize), Pick(o.tabChar, c.tabChar))
  }

  // ---------------------------------------------------------------------------
  // verifyCol
  // ---------------------------------------------------------------------------

  /** A width after normalisation: both bounds present and ordered, or the automatic marker {-1, -1}. */
  predicate NormalWidth(w: Width)
  {
    w.MinMax? && w.min.Some? && w.max.Some? &&
    (0 <= w.min.value <= w.max.value || (w.min.value == -1 && w.max.value == -1))
  }

  /** The width part of `verifyCol`: a number n >= -2, or bounds that are absent or >= 0. */
  function NormalizeWidth(w: Width): (r: Result<Width, ColumnProblem>)
    ensures r.Ok? ==> NormalWidth(r.value)
    ensures w.Num? && w.n == -2 ==> r == Ok(MinMax(Some(0), Some(MAX)))
    ensures w.Num? && w.n >= -1 ==> r == Ok(MinMax(Some(w.n), Some(w.n)))
    ensures w.Num? && w.n < -2 ==> r == Err(WidthBelowMinusTwo)
    ensures w.MinMax? ==> (r.Ok? <==> (Pick(w.min, 0) <= Pick(w.max, MAX) &&
      (w.min.Some? ==> w.min.value >= 0) && (w.max.Some? ==> w.max.value >= 0)))
    ensures w.MinMax? && r.Ok? ==> r.value == MinMax(Some(Pick(w.min, 0)), Some(Pick(w.max, MAX)))
  {
    match w
    case Num(n) =>
      if n < -2 then Err(WidthBelowMinusTwo)
      else if n == -2 then Ok(MinMax(Some(0), Some(MAX)))
      // -1 stays for `Dump` to derive
      else Ok(MinMax(Some(n), Some(n)))
    case MinMax(mn, mx) =>
      if mn.Some? && mn.value < 0 then Err(NegativeMin)
      else
        var min := if mn.Some? then mn.value else 0;
        if mx.Some? && mx.value < 0 then Err(NegativeMax)
        else
          var max := if mx.Some? then mx.value else MAX;
          if min > max then Err(MinAboveMax)
          else Ok(MinMax(Some(min), Some(max)))
  }

  /** The checks `verifyCol` makes on the fields other than the width. */
  function CheckOptions(c: Column): Option<ColumnProblem>
  {
    if c.colAlign != "left" && c.colAlign != "right" && c.colAlign != "center" then Some(BadAlign)
    else if c.colCenterShift != "left" && c.colCenterShift != "right" then Some(BadCenterShift)
    else if |c.colFiller| != 1 then Some(BadFiller)
    else if c.tabDepth < 0 then Some(NegativeTabDepth)
    else if c.tabSize < 0 then Some(NegativeTabSize)
    else if |c.tabChar| != 1 then Some(BadTabChar)
    else None
  }

  /** A column whose fields `verifyCol` accepts, stated field by field. */
  predicate AcceptableFields(c: Column)
  {
    c.colAlign in {"left", "right", "center"} && c.colCenterShift in {"left", "right"} &&
    |c.colFiller| == 1 && c.tabDepth >= 0 && c.tabSize >= 0 && |c.tabChar| == 1
  }

  /** A column `Dump` can lay out: the unverified default (a plain number) or ordered bounds. */
  predicate Shaped(c: Column)
  {
    (c.colWidth.Num? || NormalWidth(c.colWidth)) && |c.colFiller| == 1 && |c.tabChar| == 1 && c.tabSize >= 0
  }

  /** `verifyCol` as written: normalises the width, then checks the other fields in order. */
  function VerifyCol(c: Column): (r: Result<Column, LoggerError>)
    ensures r.Ok? <==> NormalizeWidth(c.colWidth).Ok? && AcceptableFields(c)
    ensures r.Ok? ==> r.value == c.(colWidth := NormalizeWidth(c.colWidth).value) && Shaped(r.value)
  {
    match NormalizeWidth(c.colWidth)
    case Err(p) => Err(IllFormedColumnOption(p))
    case Ok(w) =>
      match CheckOptions(c)
      case Some(p) => Err(IllFormedColumnOption(p))
      case None => Ok(c.(colWidth := w))
  }

  /**
   * `verifyCol` turns the automatic width -1 into the bounds {-1, -1}, which it
   * then refuses when it sees them again: the default column cannot be verified
   * twice, so updating a column that kept the automatic width fails.
   */
  lemma VerifyColRejectsItsOwnOutput()
    ensures VerifyCol(DefaultCol).Ok?
    ensures VerifyCol(DefaultCol).value.colWidth == MinMax(Some(-1), Some(-1))
    ensures VerifyCol(VerifyCol(DefaultCol).value) == Err(IllFormedColumnOption(NegativeMin))
  {
    assert DefaultCol.colAlign in {"left", "right", "center"};
    assert DefaultCol.colCenterShift in {"left", "right"};
  }

  /** `verifyCol` with the automatic-width bounds {-1, -1} accepted as they are. */
  function VerifyColFixed(c: Column): (r: Result<Column, LoggerError>)
    ensures c.colWidth == MinMax(Some(-1), Some(-1)) ==> (r.Ok? <==> AcceptableFields(c)) && (r.Ok? ==> r.value == c)
    ensures c.colWidth != MinMax(Some(-1), Some(-1)) ==> r == VerifyCol(c)
    ensures r.Ok? ==> Shaped(r.value)
  {
    if c.colWidth == MinMax(Some(-1), Some(-1)) then
      match CheckOptions(c)
      case Some(p) => Err(IllFormedColumnOption(p))
      case None => Ok(c)
    else VerifyCol(c)
  }

  /** Verifying a verified column changes nothing and does not fail. */
  lemma VerifyColFixedIdempotent(c: Column)
    requires VerifyColFixed(c).Ok?
    ensures VerifyColFixed(VerifyColFixed(c).value) == VerifyColFixed(c)
  {
    var v := VerifyColFixed(c).value;
    if v.colWidth != MinMax(Some(-1), Some(-1)) {
      assert NormalizeWidth(v.colWidth) == Ok(v.colWidth);
      assert v.(colWidth := v.colWidth) == v;
    }
  }

  /** `mergeColWithDefault`: the default column overridden by the options, then verified. */
  function MergeColWithDefault(o: ColumnOptions): (r: Result<Column, LoggerError>)
    ensures r.Ok? ==> Shaped(r.value)
  {
    VerifyCol(OverrideCol(DefaultCol, o))
  }

  /**
   * The finding at the level of the logger: `new Logger({})` verifies its
   * column to the width {-1, -1}, and `updateCurrCol({})` then re-verifies it
   * and fails, where the corrected check keeps the column as it is.
   */
  lemma CreatedColumnRefusesUpdate()
    ensures MergeColWithDefault(NoOptions).Ok?
    ensures var c := OverrideCol(MergeColWithDefault(NoOptions).value, NoOptions);
      VerifyCol(c) == Err(IllFormedColumnOption(NegativeMin)) && VerifyColFixed(c) == Ok(c)
  {
    VerifyColRejectsItsOwnOutput();
    var c := MergeColWithDefault(NoOptions).value;
    assert OverrideCol(DefaultCol, NoOptions) == DefaultCol;
    assert OverrideCol(c, NoOptions) == c;
  }

  /** The values of a sequence of results, or the error of the first one that failed. */
  function Gather<T, E>(rs: seq<Result<T, E>>): Result<seq<T>, E>
  {
    if rs == [] then Ok([])
    else
      match Gather(rs[..|rs| - 1])
      case Err(e) => Err(e)
      case Ok(xs) =>
        match rs[|rs| - 1]
        case Err(e) => Err(e)
        case Ok(x) => Ok(xs + [x])
  }

  /**
   * Gathering succeeds iff every result does, and then yields their values in
   * order; otherwise it fails with the error of the first failed result.
   */
  lemma {:induction false} GatherMeaning<T, E>(rs: seq<Result<T, E>>)
    ensures Gather(rs).Ok? <==> forall k | 0 <= k < |rs| :: rs[k].Ok?
    ensures Gather(rs).Ok? ==> |Gather(rs).value| == |rs| && forall k | 0 <= k < |rs| :: Gather(rs).value[k] == rs[k].value
    ensures Gather(rs).Err? ==> exists k | 0 <= k < |rs| ::
      rs[k].Err? && Gather(rs).error == rs[k].error && forall j | 0 <= j < k :: rs[j].Ok?
  {
    if rs != [] {
      var init := rs[..|rs| - 1];
      GatherMeaning(init);
      assert forall k | 0 <= k < |init| :: init[k] == rs[k];
      if Gather(init).Err? {
        var k :| 0 <= k < |init| && init[k].Err? && Gather(init).error == init[k].error && forall j | 0 <= j < k :: init[j].Ok?;
        assert rs[k].Err? && Gather(rs).error == rs[k].error;
      } else if rs[|rs| - 1].Err? {
        assert Gather(rs).error == rs[|rs| - 1].error;
      } else {
        assert Gather(rs) == Ok(Gather(init).value + [rs[|rs| - 1].value]);
      }
    }
  }

  /** Each column's options merged with the default. */
  function Merges(options: seq<ColumnOptions>): (rs: seq<Result<Column, LoggerError>>)
    ensures |rs| == |options|
  {
    seq(|options|, k requires 0 <= k < |options| => MergeColWithDefault(options[k]))
  }

  /** The columns a new logger gets, or the first error. */
  function MergeAll(options: seq<ColumnOptions>): (r: Result<seq<Column>, LoggerError>)
    ensures r.Ok? ==> |r.value| == |options| && forall k | 0 <= k < |options| :: Shaped(r.value[k])
  {
    GatherMeaning(Merges(options));
    Gather(Merges(options))
  }

  /** `assertWithinBounds`. */
  function AssertWithinBounds(colIndex: int, colLen: int): (r: Option<LoggerError>)
    ensures r.None? <==> 0 <= colIndex < colLen
    ensures colLen == 0 ==> r == Some(ColumnsEmpty)
  {
    if colLen == 0 then Some(ColumnsEmpty)
    else if colIndex < 0 || colIndex > colLen - 1 then Some(ColumnIdxOutOfBoundaries(colIndex, colLen))
    else None
  }

  // ---------------------------------------------------------------------------
  // Tabs
  // ---------------------------------------------------------------------------

  /** `getTab(depth, size, char)`: `char` repeated size times, that repeated depth times. */
  function GetTab(depth: int, size: int, tabChar: string): (r: string)
    ensures (size <= 0 || depth <= 0 || tabChar == "") ==> r == ""
    ensures size > 0 && depth > 0 ==> |r| == |tabChar| * size * depth
    ensures forall k | 0 <= k < |r| :: r[k] in tabChar
  {
    if size <= 0 || depth <= 0 || tabChar == "" then ""
    else
      RepeatLength(tabChar, size);
      RepeatLength(Repeat(tabChar, size), depth);
      RepeatChars(tabChar, size);
      RepeatChars(Repeat(tabChar, size), depth);
      Repeat(Repeat(tabChar, size), depth)
  }

  lemma {:induction false} RepeatChars(s: string, n: nat)
    ensures forall k | 0 <= k < |Repeat(s, n)| :: Repeat(s, n)[k] in s
  {
    if n > 0 {
      RepeatChars(s, n - 1);
      forall k | 0 <= k < |Repeat(s, n)| ensures Repeat(s, n)[k] in s {
        if k >= |s| {
          assert Repeat(s, n)[k] == Repeat(s, n - 1)[k - |s|];
        }
      }
    }
  }

  // ---------------------------------------------------------------------------
  // Laying out a column
  // ---------------------------------------------------------------------------

  /** A column `Dump` renders: bounds with 0 <= min <= max (after the automatic width is derived). */
  predicate Renderable(c: Column)
  {
    c.colWidth.MinMax? && c.colWidth.min.Some? && c.colWidth.max.Some? &&
    0 <= c.colWidth.min.value <= c.colWidth.max.value && |c.colFiller| == 1
  }

  /** The widest line. */
  function MaxWidth(lines: seq<string>): (r: nat)
    ensures forall k | 0 <= k < |lines| :: |lines[k]| <= r
    ensures r == 0 || exists k | 0 <= k < |lines| :: |lines[k]| == r
  {
    if lines == [] then 0
    else
      var m := MaxWidth(lines[..|lines| - 1]);
      var last := |lines[|lines| - 1]|;
      assert forall k | 0 <= k < |lines| - 1 :: lines[k] == lines[..|lines| - 1][k];
      if last > m then last else m
  }

  /** The number of rows: the length of the longest line list. */
  function MaxLines(cols: seq<Column>): (r: nat)
    ensures forall k | 0 <= k < |cols| :: |cols[k].lines| <= r
    ensures r == 0 || exists k | 0 <= k < |cols| :: |cols[k].lines| == r
  {
    if cols == [] then 0
    else
      var m := MaxLines(cols[..|cols| - 1]);
      var last := |cols[|cols| - 1].lines|;
      assert forall k | 0 <= k < |cols| - 1 :: cols[k] == cols[..|cols| - 1][k];
      if last > m then last else m
  }

  /** The automatic width {-1, -1} becomes the width of the widest line. */
  function Derive(c: Column): (r: Column)
    ensures Shaped(c) ==> Shaped(r) && (r.colWidth.Num? || Renderable(r))
    ensures r.lines == c.lines
  {
    if c.colWidth.MinMax? && c.colWidth.min == Some(-1) then
      c.(colWidth := MinMax(Some(MaxWidth(c.lines)), Some(MaxWidth(c.lines))))
    else c
  }

  /** One line fitted between the bounds: cut when too long, padded when too short. */
  function Fit(c: Column, line: string, min: nat, max: nat): (r: string)
    requires min <= max
    ensures |line| > max && c.colCut ==> |r| == max
    ensures |line| > max && !c.colCut ==> r == line
    ensures |line| < min && |c.colFiller| == 1 ==> |r| == min
    ensures min <= |line| <= max ==> r == line
  {
    if |line| > max then
      if c.colCut then
        if c.colCutWith != "" then
          if |c.colCutWith| >= max then c.colCutWith[..max]
          else line[..max - |c.colCutWith|] + c.colCutWith
        else line[..max]
      else line
    else if |line| < min then
      var diff := min - |line|;
      var pad := Repeat(c.colFiller, diff);
      RepeatLength(c.colFiller, diff);
      if c.colAlign == "left" then line + pad
      else if c.colAlign == "right" then pad + line
      else
        // centre: the extra filler of an odd difference goes to the shifted side
        var lPad := Slice(pad, 0, (diff + 1) / 2);
        var rPad := Slice(pad, 0, diff / 2);
        if c.colCenterShift == "left" then rPad + line + lPad else lPad + line + rPad
    else line
  }

  /** Where a padded line sits inside its cell. */
  function PadOffset(c: Column, diff: nat): nat
  {
    if c.colAlign == "left" then 0
    else if c.colAlign == "right" then diff
    else if c.colCenterShift == "left" then diff / 2
    else (diff + 1) / 2
  }

  /**
   * A line shorter than min is kept whole at its alignment offset (left: 0,
   * right: all the padding, centre: half of it, rounded towards the shift),
   * and every other character of the cell is the filler.
   */
  lemma PaddedLine(c: Column, line: string, min: nat, max: nat)
    requires min <= max && |line| < min && |c.colFiller| == 1
    ensures var r, off := Fit(c, line, min, max), PadOffset(c, min - |line|);
      off + |line| <= |r| == min && r[off..off + |line|] == line &&
      forall k | 0 <= k < |r| && !(off <= k < off + |line|) :: r[k] == c.colFiller[0]
  {
    var diff := min - |line|;
    var pad := Repeat(c.colFiller, diff);
    RepeatLength(c.colFiller, diff);
    forall k | 0 <= k < diff ensures pad[k] == c.colFiller[0] {
      RepeatOf(c.colFiller, diff, k);
    }
    var r, f := Fit(c, line, min, max), c.colFiller[0];
    var a: string, b: string;
    if c.colAlign == "left" {
      a, b := [], pad;
    } else if c.colAlign == "right" {
      a, b := pad, [];
    } else {
      var lPad, rPad := pad[..(diff + 1) / 2], pad[..diff / 2];
      if c.colCenterShift == "left" {
        a, b := rPad, lPad;
      } else {
        a, b := lPad, rPad;
      }
    }
    assert r == a + line + b && |a| == PadOffset(c, diff);
    Framed(r, a, line, b, f);
  }

  /** A text framed by runs of one filler character holds the filler everywhere outside the frame. */
  lemma Framed(r: string, a: string, line: string, b: string, f: char)
    requires r == a + line + b
    requires forall k | 0 <= k < |a| :: a[k] == f
    requires forall k | 0 <= k < |b| :: b[k] == f
    ensures |a| + |line| <= |r| == |a| + |line| + |b| && r[|a|..|a| + |line|] == line
    ensures forall k | 0 <= k < |r| && !(|a| <= k < |a| + |line|) :: r[k] == f
  {
    forall k | 0 <= k < |r| && !(|a| <= k < |a| + |line|)
      ensures r[k] == f
    {
      if k < |a| {
        assert r[k] == a[k];
      } else {
        assert r[k] == b[k - |a| - |line|];
      }
    }
  }

  /** A cut line: the start of the line followed by the cut marker, the marker alone if it is too long. */
  lemma CutLine(c: Column, line: string, min: nat, max: nat)
    requires min <= max < |line| && c.colCut
    ensures var r := Fit(c, line, min, max);
      (|c.colCutWith| < max ==> r[..max - |c.colCutWith|] == line[..max - |c.colCutWith|] && r[max - |c.colCutWith|..] == c.colCutWith) &&
      (c.colCutWith != "" && |c.colCutWith| >= max ==> r == c.colCutWith[..max]) &&
      (c.colCutWith == "" ==> r == line[..max])
  {
  }

  /** What a column writes into row k, without its prefix and postfix. */
  function CellBody(c: Column, k: nat): (r: string)
    requires Renderable(c)
    ensures k >= |c.lines| ==>
      |r| == (if c.colWidth.max.value != MAX then c.colWidth.max.value else 0) &&
      forall j | 0 <= j < |r| :: r[j] == c.colFiller[0]
  {
    var min, max := c.colWidth.min.value, c.colWidth.max.value;
    if k >= |c.lines| then
      // the column ran out of lines: keep the other columns aligned
      if max != MAX then
        RepeatLength(c.colFiller, max);
        RepeatFiller(c.colFiller, max);
        Repeat(c.colFiller, max)
      else ""
    else Fit(c, c.lines[k], min, max)
  }

  lemma RepeatFiller(f: string, n: nat)
    requires |f| == 1
    ensures |Repeat(f, n)| == n && forall j | 0 <= j < n :: Repeat(f, n)[j] == f[0]
  {
    RepeatLength(f, n);
    forall j | 0 <= j < n ensures Repeat(f, n)[j] == f[0] {
      RepeatOf(f, n, j);
    }
  }

  /** What a column writes into row k: nothing for a column whose width is still a plain number. */
  function Cell(c: Column, k: nat): string
    requires c.colWidth.Num? || Renderable(c)
  {
    if c.colWidth.Num? then "" else c.colPre + CellBody(c, k) + c.colPost
  }

  predicate AllRenderable(cols: seq<Column>)
  {
    forall k | 0 <= k < |cols| :: cols[k].colWidth.Num? || Renderable(cols[k])
  }

  /** The cells of row k, column after column. */
  function RowCells(cols: seq<Column>, k: nat): string
    requires AllRenderable(cols)
  {
    if cols == [] then ""
    else RowCells(cols[..|cols| - 1], k) + Cell(cols[|cols| - 1], k)
  }

  /** The texts of the first n rows. */
  function Rows(cols: seq<Column>, n: nat): (r: seq<string>)
    requires AllRenderable(cols)
    ensures |r| == n && forall k | 0 <= k < n :: r[k] == RowCells(cols, k)
  {
    if n == 0 then [] else Rows(cols, n - 1) + [RowCells(cols, n - 1)]
  }

  /** Rows laid one under the other, each ended by a newline. */
  function Lay(rows: seq<string>): string
  {
    if rows == [] then "" else Lay(rows[..|rows| - 1]) + rows[|rows| - 1] + "\n"
  }

  /** When no row holds a newline, the lines of the laid-out text are exactly its rows. */
  lemma {:induction false} LayRows(rows: seq<string>, tail: string)
    requires forall k | 0 <= k < |rows| :: '\n' !in rows[k]
    ensures Split(Lay(rows) + tail) == rows + Split(tail)
    decreases |rows|
  {
    if rows != [] {
      var init, row := rows[..|rows| - 1], rows[|rows| - 1];
      LayRows(init, row + "\n" + tail);
      LayRowsStep(rows, tail);
    } else {
      assert Lay(rows) + tail == tail;
    }
  }

  /** The last row, laid before the tail, is one more line in front of the tail's. */
  lemma LayRowsStep(rows: seq<string>, tail: string)
    requires rows != [] && '\n' !in rows[|rows| - 1]
    requires var init, row := rows[..|rows| - 1], rows[|rows| - 1];
      Split(Lay(init) + (row + "\n" + tail)) == init + Split(row + "\n" + tail)
    ensures Split(Lay(rows) + tail) == rows + Split(tail)
  {
    var init, row := rows[..|rows| - 1], rows[|rows| - 1];
    LayLast(rows, tail);
    OneRowLines(row, tail);
    assert rows == init + [row];
    RegroupLines(Split(Lay(rows) + tail), init, row, Split(tail), rows);
  }

  /** The laid rows before a tail are the laid rows but the last, then the last row, a newline and the tail. */
  lemma LayLast(rows: seq<string>, tail: string)
    requires rows != []
    ensures Lay(rows) + tail == Lay(rows[..|rows| - 1]) + (rows[|rows| - 1] + "\n" + tail)
  {
    var front := Lay(rows[..|rows| - 1]);
    var row := rows[|rows| - 1];
    assert Lay(rows) == front + row + "\n";
    Regroup(front, row, "\n", tail);
  }

  lemma Regroup<T>(a: seq<T>, b: seq<T>, c: seq<T>, d: seq<T>)
    ensures a + b + c + d == a + (b + c + d)
  {
  }

  lemma RegroupLines(p: seq<string>, init: seq<string>, row: string, t: seq<string>, rows: seq<string>)
    requires p == init + ([row] + t) && rows == init + [row]
    ensures p == rows + t
  {
  }

  /** A row without a newline, ended by one, is a single line in front of what follows. */
  lemma OneRowLines(row: string, tail: string)
    requires '\n' !in row
    ensures Split(row + "\n" + tail) == [row] + Split(tail)
  {
    SplitAppend(row, tail);
    SplitSingle(row);
  }

  /** `Dump` writes exactly one output row per line of the longest column, each ending in a newline. */
  lemma DumpRows(cols: seq<Column>)
    requires AllRenderable(cols)
    requires forall k | 0 <= k < MaxLines(cols) :: '\n' !in RowCells(cols, k)
    ensures Split(Lay(Rows(cols, MaxLines(cols)))) == Rows(cols, MaxLines(cols)) + [""]
  {
    var rows := Rows(cols, MaxLines(cols));
    LayRows(rows, "");
    assert Lay(rows) + "" == Lay(rows);
  }

  // ---------------------------------------------------------------------------
  // The logger
  // ---------------------------------------------------------------------------

  class Logger {
    var cols: seq<Column>
    var cci: int
    /** The column `cc` designates; normally cci, but `UpdateCurrColIdx` moves it alone. */
    var cur: nat
    /** Whether the last line is closed, so that the next raw text opens a new one. */
    var lc: bool

    ghost predicate Valid()
      reads this
    {
      |cols| >= 1 && 0 <= cci < |cols| && cur < |cols| && forall k | 0 <= k < |cols| :: Shaped(cols[k])
    }

    constructor(cols: seq<Column>)
      requires |cols| >= 1 && forall k | 0 <= k < |cols| :: Shaped(cols[k])
      ensures Valid() && this.cols == cols && cci == 0 && cur == 0 && lc
    {
      this.cols := cols;
      cci := 0;
      cur := 0;
      lc := true;
    }

    /** `new Logger(...cols)`: the default column when none is given, otherwise each merged and verified. */
    static method Create(options: seq<ColumnOptions>) returns (r: Result<Logger, LoggerError>)
      ensures r.Err? <==> MergeAll(options).Err?
      ensures r.Err? ==> r.error == MergeAll(options).error
      ensures r.Ok? ==> fresh(r.value) && r.value.Valid() && r.value.cci == 0 && r.value.cur == 0 && r.value.lc
      ensures r.Ok? ==> r.value.cols == if options == [] then [DefaultCol] else MergeAll(options).value
    {
      if |options| == 0 {
        var l := new Logger([DefaultCol]);
        return Ok(l);
      }
      var merged := MergeColumns(options);
      if merged.Err? {
        return Err(merged.error);
      }
      var l := new Logger(merged.value);
      return Ok(l);
    }

    /** The line the current column ends with, if any. */
    function GetLastLine(): (r: Option<string>)
      requires Valid()
      reads this
      ensures r.Some? <==> |cols[cur].lines| > 0
      ensures r.Some? ==> r.value == cols[cur].lines[|cols[cur].lines| - 1]
    {
      var lines := cols[cur].lines;
      if |lines| == 0 then None else Some(lines[|lines| - 1])
    }

    /**
     * `updateOrResetCol`: the column at colIndex (or the default column when
     * resetting) overridden by the options and verified replaces the column
     * at colIndex; `cc` follows when colIndex is the current index.
     */
    method UpdateOrResetCol(colIndex: int, options: ColumnOptions, reset: bool) returns (r: Result<(), LoggerError>)
      requires Valid()
      modifies this
      ensures cci == old(cci) && lc == old(lc)
      ensures Valid()
      ensures AssertWithinBounds(colIndex, |old(cols)|).Some? ==> r == Err(AssertWithinBounds(colIndex, |old(cols)|).value)
      ensures r.Err? ==> cols == old(cols) && cur == old(cur)
      ensures r.Ok? <==> (0 <= colIndex < |old(cols)| &&
        VerifyCol(OverrideCol(if reset then DefaultCol else old(cols)[colIndex], options)).Ok?)
      ensures r.Ok? ==> cols == old(cols)[colIndex := VerifyCol(OverrideCol(if reset then DefaultCol else old(cols)[colIndex], options)).value]
      ensures r.Ok? ==> cur == if colIndex == cci then colIndex else old(cur)
    {
      var bad := AssertWithinBounds(colIndex, |cols|);
      if bad.Some? {
        return Err(bad.value);
      }
      var baseCol := if reset then DefaultCol else cols[colIndex];
      var updatedCol := VerifyCol(OverrideCol(baseCol, options));
      if updatedCol.Err? {
        return Err(updatedCol.error);
      }
      cols := cols[colIndex := updatedCol.value];
      if colIndex == cci {
        cur := colIndex;
      }
      return Ok(());
    }

    /** Points `cc` at another column; the current index `cci` does not move. */
    method UpdateCurrColIdx(colIndex: int) returns (r: Result<(), LoggerError>)
      requires Valid()
      modifies this
      ensures cols == old(cols) && cci == old(cci) && lc == old(lc)
      ensures Valid()
      ensures r.Ok? <==> 0 <= colIndex < |cols|
      ensures r.Ok? ==> cur == colIndex
      ensures r.Err? ==> cur == old(cur)
    {
      var bad := AssertWithinBounds(colIndex, |cols|);
      if bad.Some? {
        return Err(bad.value);
      }
      cur := colIndex;
      return Ok(());
    }

    method UpdateCurrCol(options: ColumnOptions) returns (r: Result<(), LoggerError>)
      requires Valid()
      modifies this
      ensures cci == old(cci) && lc == old(lc)
      ensures Valid()
      ensures r.Ok? <==> VerifyCol(OverrideCol(old(cols)[old(cci)], options)).Ok?
      ensures r.Ok? ==> cols == old(cols)[cci := VerifyCol(OverrideCol(old(cols)[cci], options)).value] && cur == cci
      ensures r.Err? ==> cols == old(cols) && cur == old(cur)
    {
      r := UpdateOrResetCol(cci, options, false);
    }

    method UpdateColAt(colIndex: int, options: ColumnOptions) returns (r: Result<(), LoggerError>)
      requires Valid()
      modifies this
      ensures cci == old(cci) && lc == old(lc)
      ensures Valid()
      ensures r.Ok? <==> 0 <= colIndex < |old(cols)| && VerifyCol(OverrideCol(old(cols)[colIndex], options)).Ok?
      ensures r.Ok? ==> cols == old(cols)[colIndex := VerifyCol(OverrideCol(old(cols)[colIndex], options)).value]
      ensures r.Err? ==> cols == old(cols) && cur == old(cur)
    {
      r := UpdateOrResetCol(colIndex, options, false);
    }

    method ResetCurrCol(options: ColumnOptions) returns (r: Result<(), LoggerError>)
      requires Valid()
      modifies this
      ensures cci == old(cci) && lc == old(lc)
      ensures Valid()
      ensures r.Ok? <==> VerifyCol(OverrideCol(DefaultCol, options)).Ok?
      ensures r.Ok? ==> cols == old(cols)[cci := VerifyCol(OverrideCol(DefaultCol, options)).value] && cur == cci
      ensures r.Err? ==> cols == old(cols) && cur == old(cur)
    {
      r := UpdateOrResetCol(cci, options, true);
    }

    method ResetColAt(colIndex: int, options: ColumnOptions) returns (r: Result<(), LoggerError>)
      requires Valid()
      modifies this
      ensures cci == old(cci) && lc == old(lc)
      ensures Valid()
      ensures r.Ok? <==> 0 <= colIndex < |old(cols)| && VerifyCol(OverrideCol(DefaultCol, options)).Ok?
      ensures r.Ok? ==> cols == old(cols)[colIndex := VerifyCol(OverrideCol(DefaultCol, options)).value]
      ensures r.Err? ==> cols == old(cols) && cur == old(cur)
    {
      r := UpdateOrResetCol(colIndex, options, true);
    }

    /** Moves to the next column, wrapping around after the last one. */
    method NextCol()
      requires Valid()
      modifies this
      ensures cols == old(cols) && lc == old(lc)
      ensures Valid()
      ensures cci == (old(cci) + 1) % |cols| && cur == cci
      ensures old(cci) < |cols| - 1 ==> cci == old(cci) + 1
      ensures old(cci) == |cols| - 1 ==> cci == 0
    {
      NextIndex(cci, |cols|);
      cci := (cci + 1) % |cols|;
      cur := cci;
    }

    /**
     * Appends raw text to the last line of the current column, opening a new
     * line first when the last one is closed.  With no open line and no line
     * at all the text goes nowhere.
     */
    method InsRaw(chars: string)
      requires Valid()
      modifies this
      ensures cci == old(cci) && cur == old(cur)
      ensures Valid()
      ensures chars == "" ==> cols == old(cols) && lc == old(lc)
      ensures chars != "" ==> !lc
      ensures cols == old(cols)[cur := old(cols)[cur].(lines := cols[cur].lines)]
      ensures var before, after := old(cols)[cur].lines, cols[cur].lines;
        chars != "" ==>
          (old(lc) ==> after == before + [chars]) &&
          (!old(lc) && |before| > 0 ==> after == before[..|before| - 1] + [before[|before| - 1] + chars]) &&
          (!old(lc) && |before| == 0 ==> after == before)
    {
      if |chars| == 0 {
        return;
      }
      var colLines := cols[cur].lines;
      // If last line is closed, insert to a new one
      if lc {
        colLines := colLines + [""];
        lc := false;
      }
      if |colLines| > 0 {
        ghost var grown := colLines;
        colLines := colLines[..|colLines| - 1] + [colLines[|colLines| - 1] + chars];
        if old(lc) {
          assert grown[..|grown| - 1] == old(cols)[cur].lines;
          assert grown[|grown| - 1] + chars == chars;
        }
      }
      cols := cols[cur := cols[cur].(lines := colLines)];
    }

    /** Inserts the current column's tab repeated to the given depth (the column's own depth by default). */
    method InsRawTab(depth: int)
      requires Valid()
      modifies this
      ensures cci == old(cci) && cur == old(cur)
      ensures Valid()
      ensures var tab := GetTab(depth, old(cols)[cur].tabSize, old(cols)[cur].tabChar);
        var before, after := old(cols)[cur].lines, cols[cur].lines;
        cols == old(cols)[cur := old(cols)[cur].(lines := after)] &&
        (tab == "" ==> after == before && lc == old(lc)) &&
        (tab != "" ==> !lc) &&
        (tab != "" && old(lc) ==> after == before + [tab]) &&
        (tab != "" && !old(lc) && |before| > 0 ==> after == before[..|before| - 1] + [before[|before| - 1] + tab]) &&
        (tab != "" && !old(lc) && |before| == 0 ==> after == before)
    {
      InsRaw(GetTab(depth, cols[cur].tabSize, cols[cur].tabChar));
    }

    /** Closes the current line. */
    method InsRawEndLine()
      modifies this
      ensures cols == old(cols) && cci == old(cci) && cur == old(cur)
      ensures lc
    {
      lc := true;
    }

    /** Appends one whole line, indented by the current column's tab, and closes it. */
    method InsLine(chars: string)
      requires Valid()
      modifies this
      ensures lc && cci == old(cci) && cur == old(cur)
      ensures Valid()
      ensures var c := old(cols)[cur];
        cols == old(cols)[cur := c.(lines := c.lines + [GetTab(c.tabDepth, c.tabSize, c.tabChar) + chars])]
    {
      var line := GetTab(cols[cur].tabDepth, cols[cur].tabSize, cols[cur].tabChar) + chars;
      cols := cols[cur := cols[cur].(lines := cols[cur].lines + [line])];
      lc := true;
    }

    /** Indents the current column by `depth` more tabs. */
    method IncTab(depth: int)
      requires Valid()
      modifies this
      ensures cci == old(cci) && cur == old(cur) && lc == old(lc)
      ensures Valid()
      ensures cols == old(cols)[cur := old(cols)[cur].(tabDepth := old(cols)[cur].tabDepth + depth)]
      ensures old(cols)[cur].tabDepth >= 0 && depth >= 0 ==> cols[cur].tabDepth >= 0
    {
      cols := cols[cur := cols[cur].(tabDepth := cols[cur].tabDepth + depth)];
    }

    /** Unindents the current column by `depth` tabs, stopping at depth 0. */
    method DecTab(depth: int)
      requires Valid()
      modifies this
      ensures cci == old(cci) && cur == old(cur) && lc == old(lc)
      ensures Valid()
      ensures cols[cur].tabDepth >= 0
      ensures old(cols)[cur].tabDepth - depth >= 0 ==> cols[cur].tabDepth == old(cols)[cur].tabDepth - depth
      ensures old(cols)[cur].tabDepth - depth < 0 ==> cols[cur].tabDepth == 0
      ensures cols == old(cols)[cur := old(cols)[cur].(tabDepth := cols[cur].tabDepth)]
    {
      var d := cols[cur].tabDepth - depth;
      if d < 0 {
        d := 0;
      }
      cols := cols[cur := cols[cur].(tabDepth := d)];
    }

    /**
     * Lays the columns out side by side.  Columns with the automatic width
     * first get the width of their widest line (kept for later dumps); then
     * every row up to the longest column is the cells of all columns and a newline.
     */
    method Dump() returns (out: string)
      requires Valid()
      modifies this
      ensures cci == old(cci) && cur == old(cur) && lc == old(lc)
      ensures Valid()
      ensures |cols| == |old(cols)| && forall k | 0 <= k < |cols| :: cols[k] == Derive(old(cols)[k])
      ensures AllRenderable(cols) && out == Lay(Rows(cols, MaxLines(cols)))
    {
      var derived;
      derived, out := DumpColumns(cols);
      cols := derived;
    }
  }

  /** The body of `dump`: derives the automatic widths and lays out every row, every column. */
  method DumpColumns(cols: seq<Column>) returns (derived: seq<Column>, out: string)
    requires forall k | 0 <= k < |cols| :: Shaped(cols[k])
    ensures |derived| == |cols| && forall k | 0 <= k < |cols| :: derived[k] == Derive(cols[k])
    ensures forall k | 0 <= k < |derived| :: Shaped(derived[k])
    ensures AllRenderable(derived) && out == Lay(Rows(derived, MaxLines(derived)))
  {
    // Get max number of lines among all columns
    var maxColLen := LongestColumn(cols);
    // Derive the automatic widths
    derived := DeriveWidths(cols);
    DerivedLines(cols, derived);
    // Every row, every column
    out := LayOut(derived, maxColLen);
  }

  /** The loop of the constructor: merges each column's options with the default, stopping at the first error. */
  method MergeColumns(options: seq<ColumnOptions>) returns (r: Result<seq<Column>, LoggerError>)
    ensures r == MergeAll(options)
  {
    ghost var rs := Merges(options);
    var cols: seq<Column> := [];
    var k := 0;
    while k < |options|
      invariant 0 <= k <= |options|
      invariant Gather(rs[..k]) == Ok(cols)
    {
      var col := MergeColWithDefault(options[k]);
      assert col == rs[k];
      if col.Err? {
        GatherFails(rs, k, cols);
        return Err(col.error);
      }
      GatherGrows(rs, k, cols);
      cols := cols + [col.value];
      k := k + 1;
    }
    assert rs[..k] == rs;
    return Ok(cols);
  }

  /** The number of lines of the longest column, by a scan over the columns. */
  method LongestColumn(cols: seq<Column>) returns (maxColLen: nat)
    ensures maxColLen == MaxLines(cols)
  {
    maxColLen := 0;
    var j := 0;
    while j < |cols|
      invariant 0 <= j <= |cols|
      invariant maxColLen == MaxLines(cols[..j])
    {
      assert cols[..j + 1][..j] == cols[..j];
      if |cols[j].lines| > maxColLen {
        maxColLen := |cols[j].lines|;
      }
      j := j + 1;
    }
    assert cols[..j] == cols;
  }

  /** Every column whose width is the automatic {-1, -1} gets the width of its widest line. */
  method DeriveWidths(original: seq<Column>) returns (cols: seq<Column>)
    ensures |cols| == |original| && forall k | 0 <= k < |cols| :: cols[k] == Derive(original[k])
  {
    cols := original;
    var j := 0;
    while j < |cols|
      invariant 0 <= j <= |cols| == |original|
      invariant forall k | 0 <= k < j :: cols[k] == Derive(original[k])
      invariant forall k | j <= k < |cols| :: cols[k] == original[k]
    {
      var col := cols[j];
      if col.colWidth.MinMax? && col.colWidth.min == Some(-1) {
        var maxLineWidth := WidestLine(col.lines);
        cols := cols[j := col.(colWidth := MinMax(Some(maxLineWidth), Some(maxLineWidth)))];
      }
      j := j + 1;
    }
  }

  /** The first `count` rows, each ended by a newline. */
  method LayOut(cols: seq<Column>, count: nat) returns (out: string)
    requires AllRenderable(cols)
    ensures out == Lay(Rows(cols, count))
  {
    out := "";
    var lineIdx := 0;
    while lineIdx < count
      invariant 0 <= lineIdx <= count
      invariant out == Lay(Rows(cols, lineIdx))
    {
      var row := RowAt(cols, lineIdx);
      assert Rows(cols, lineIdx + 1)[..lineIdx] == Rows(cols, lineIdx);
      // End of row
      out := out + row + "\n";
      lineIdx := lineIdx + 1;
    }
  }

  /** The width of the widest line, by a scan over the lines. */
  method WidestLine(lines: seq<string>) returns (maxLineWidth: nat)
    ensures maxLineWidth == MaxWidth(lines)
  {
    maxLineWidth := 0;
    var t := 0;
    while t < |lines|
      invariant 0 <= t <= |lines|
      invariant maxLineWidth == MaxWidth(lines[..t])
    {
      assert lines[..t + 1][..t] == lines[..t];
      if |lines[t]| > maxLineWidth {
        maxLineWidth := |lines[t]|;
      }
      t := t + 1;
    }
    assert lines[..t] == lines;
  }

  /** The cells of one row, appended column after column. */
  method RowAt(cols: seq<Column>, lineIdx: nat) returns (row: string)
    requires AllRenderable(cols)
    ensures row == RowCells(cols, lineIdx)
  {
    row := "";
    var k := 0;
    while k < |cols|
      invariant 0 <= k <= |cols|
      invariant row == RowCells(cols[..k], lineIdx)
    {
      assert cols[..k + 1][..k] == cols[..k];
      row := row + Cell(cols[k], lineIdx);
      k := k + 1;
    }
    assert cols[..k] == cols;
  }

  /** Stepping an index modulo n moves to the next one and wraps after the last. */
  lemma NextIndex(a: int, n: int)
    requires 0 <= a < n
    ensures (a + 1) % n == if a + 1 == n then 0 else a + 1
  {
  }

  /** Deriving the widths keeps every line list, so the row count, and makes every column renderable. */
  lemma DerivedLines(original: seq<Column>, cols: seq<Column>)
    requires |cols| == |original| && forall k | 0 <= k < |cols| :: cols[k] == Derive(original[k])
    requires forall k | 0 <= k < |original| :: Shaped(original[k])
    ensures MaxLines(cols) == MaxLines(original)
    ensures AllRenderable(cols) && forall k | 0 <= k < |cols| :: Shaped(cols[k])
  {
    SameLineCounts(original, cols);
  }

  /** Columns with the same numbers of lines, one by one, have the same longest column. */
  lemma {:induction false} SameLineCounts(a: seq<Column>, b: seq<Column>)
    requires |a| == |b| && forall k | 0 <= k < |a| :: |a[k].lines| == |b[k].lines|
    ensures MaxLines(a) == MaxLines(b)
  {
    if |a| > 0 {
      var n := |a| - 1;
      SameLineCounts(a[..n], b[..n]);
    }
  }

  /** Gathering one more success extends the gathered prefix by its value. */
  lemma GatherGrows<T, E>(rs: seq<Result<T, E>>, k: nat, xs: seq<T>)
    requires k < |rs| && Gather(rs[..k]) == Ok(xs) && rs[k].Ok?
    ensures Gather(rs[..k + 1]) == Ok(xs + [rs[k].value])
  {
    assert rs[..k + 1][..k] == rs[..k];
  }

  /** When every earlier result succeeds, the first failure is the error of the whole gathering. */
  lemma GatherFails<T, E>(rs: seq<Result<T, E>>, k: nat, xs: seq<T>)
    requires k < |rs| && Gather(rs[..k]) == Ok(xs) && rs[k].Err?
    ensures Gather(rs) == Err(rs[k].error)
  {
    FailureStays(rs, k, |rs|, xs);
    assert rs[..|rs|] == rs;
  }

  lemma {:induction false} FailureStays<T, E>(rs: seq<Result<T, E>>, k: nat, m: nat, xs: seq<T>)
    requires k < m <= |rs| && Gather(rs[..k]) == Ok(xs) && rs[k].Err?
    ensures Gather(rs[..m]) == Err(rs[k].error)
    decreases m - k
  {
    var p := rs[..m];
    if m == k + 1 {
      assert p[..|p| - 1] == rs[..k] && p[|p| - 1] == rs[k];
    } else {
      FailureStays(rs, k, m - 1, xs);
      assert p[..|p| - 1] == rs[..m - 1];
    }
  }
}
