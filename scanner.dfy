/**
 * The indentation scanner of the second compiler (`Compiler` in
 * src/runtime/runtime.ts): `scanSpace` eats the run of blanks and newlines at
 * the cursor, and `scanNext` checks the indentation it found against the
 * current level.
 */
module RuntimeCompiler {
  import opened Common
  import opened Lines

  /** The error `scanNext` throws. */
  datatype ScanError = IndentationIsNotAligned

  /** Whether `s[k]` (in JavaScript terms) is a blank or a newline, the characters `scanSpace` eats. */
  predicate Blank(s: string, k: int)
  {
    At(s, k) == Some(' ') || At(s, k) == Some('\n')
  }

  class Compiler {
    const stream: string
    var i: int
    var cLine: int
    var cLvl: int
    var cTabsize: int
    var trimSize: int
    var ast: seq<map<string, string>>

    /** A fresh compiler: line 1, level 0, indent size 0, trim size not yet known (-1), one scope. */
    constructor(stream: string)
      ensures this.stream == stream && i == 0 && cLine == 1 && cLvl == 0
      ensures cTabsize == 0 && trimSize == -1 && ast == [map[]]
    {
      this.stream := stream;
      i := 0;
      cLine := 1;
      cLvl := 0;
      cTabsize := 0;
      trimSize := -1;
      ast := [map[]];
    }

    /**
     * `scanSpace`: moves past the maximal run of blanks and newlines at the
     * cursor, counts one line per newline, and returns the number of blanks
     * after the last newline of the run.
     */
    method ScanSpace() returns (leadSpace: nat)
      modifies this
      ensures cLvl == old(cLvl) && cTabsize == old(cTabsize) && trimSize == old(trimSize) && ast == old(ast)
      ensures old(i) <= i
      ensures forall j | old(i) <= j < i :: Blank(stream, j)
      ensures !Blank(stream, i)
      ensures i == old(i) ==> cLine == old(cLine) && leadSpace == 0
      ensures old(i) < i ==> (0 <= old(i) && i <= |stream| &&
        var run := stream[old(i)..i];
        cLine == old(cLine) + |Split(run)| - 1 && leadSpace == |LastLine(run)|)
    {
      ghost var start := i;
      leadSpace := 0;
      while Blank(stream, i)
        invariant start <= i
        invariant start < i ==> 0 <= start && i <= |stream|
        invariant forall j | start <= j < i :: Blank(stream, j)
        invariant start < i ==> cLine == old(cLine) + |Split(stream[start..i])| - 1 && leadSpace == |LastLine(stream[start..i])|
        invariant start == i ==> cLine == old(cLine) && leadSpace == 0
        invariant cLvl == old(cLvl) && cTabsize == old(cTabsize) && trimSize == old(trimSize) && ast == old(ast)
        decreases |stream| - i
      {
        RunStep(stream, start, i, old(cLine), cLine, leadSpace);
        if stream[i] == ' ' {
          leadSpace := leadSpace + 1;
        } else {
          cLine := cLine + 1;
          leadSpace := 0;
        }
        i := i + 1;
      }
    }

    /**
     * `scanNext`: one pass of its loop (the loop always breaks after the first
     * pass).  The first scan fixes the trim size; a trimmed indentation that is
     * positive must equal level times indent size, and then opens a level.
     */
    method ScanNext() returns (r: Result<(), ScanError>)
      modifies this
      ensures old(i) >= |stream| ==> (r.Ok? && i == old(i) && cLine == old(cLine) && cLvl == old(cLvl) &&
        cTabsize == old(cTabsize) && trimSize == old(trimSize) && ast == old(ast))
      ensures old(i) < |stream| ==> (old(i) <= i && !Blank(stream, i) &&
        (old(i) < i ==> 0 <= old(i) && i <= |stream|) &&
        var lead := if i == old(i) then 0 else |LastLine(stream[old(i)..i])|;
        trimSize == (if old(trimSize) < 0 then lead else old(trimSize)) &&
        var d := lead - trimSize;
        (d <= 0 ==> r.Ok? && cLvl == old(cLvl) && cTabsize == old(cTabsize) && ast == old(ast)) &&
        (d > 0 ==> (cTabsize == (if old(cTabsize) < 0 then d else old(cTabsize)) &&
          (r.Err? <==> d != old(cLvl) * cTabsize) &&
          (r.Ok? ==> cLvl == old(cLvl) + 1 && ast == old(ast) + [map[]]))))
      ensures old(trimSize) < 0 ==> r.Ok? && cLvl == old(cLvl) && ast == old(ast)
    {
      r := Ok(());
      if i < |stream| {
        var leadSpaceSize := ScanSpace();
        // detect trim size (once)
        if trimSize < 0 {
          trimSize := leadSpaceSize;
        }
        var d := leadSpaceSize - trimSize;
        if d > 0 {
          // set indentation size (once)
          if cTabsize < 0 {
            cTabsize := d;
          }
          if d != cLvl * cTabsize {
            return Err(IndentationIsNotAligned);
          }
          cLvl := cLvl + 1;
          ast := ast + [map[]];
        }
      }
    }

    /** `compile`: nothing on an empty stream, one `scanNext` otherwise. */
    method Compile() returns (r: Result<(), ScanError>)
      modifies this
      ensures stream == [] ==> (r.Ok? && i == old(i) && cLine == old(cLine) && cLvl == old(cLvl) &&
        cTabsize == old(cTabsize) && trimSize == old(trimSize) && ast == old(ast))
      ensures stream != [] && old(trimSize) < 0 ==> r.Ok? && cLvl == old(cLvl) && ast == old(ast)
    {
      r := Ok(());
      if stream != [] {
        r := ScanNext();
      }
    }
  }
}
