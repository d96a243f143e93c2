/**
 * The character scanners of the indentation compiler in src/runtime.ts.
 * A `Compiler` holds the stream, the cursor `i`, the saved cursor `li`, the
 * line number, the last scanned node and the scope tree; every scanner looks
 * at the character under the cursor and moves it forward.
 */
module HyperCompiler {
  import opened Common
  import opened Lines

  /** A syntax node (the root node, which links to its parent, is not part of this model). */
  datatype Node =
    | Undefined
    | Comment(comment: string)
    | Str(value: string)
    | Number(number: int)
    | Name(name: string)
    | Space(spaceSize: nat)

  /** The errors the scanners throw. */
  datatype CompileError = IndentIsNotAligned | StringIsNotClosed
  {
    /** `IndentIsNotAligned` carries code 1; a syntax error is thrown as a plain message. */
    function Message(): string
    {
      match this
      case IndentIsNotAligned => "Indentation is not aligned"
      case StringIsNotClosed => "String is not closed."
    }
  }

  class Compiler {
    const stream: string
    var i: int
    var li: int
    var node: Node
    var line: int
    var indSize: int
    var trimSize: int
    var tree: seq<seq<Node>>
    var level: int

    /** The current scope is the last one of the tree, and `level` counts the scopes. */
    ghost predicate Valid()
      reads this
    {
      |tree| >= 1 && level == |tree|
    }

    constructor(stream: string, i: int)
      ensures Valid()
      ensures this.stream == stream && this.i == i && li == 0 && node == Undefined
      ensures line == 1 && indSize == -1 && trimSize == -1 && tree == [[]] && level == 1
    {
      this.stream := stream;
      this.i := i;
      li := 0;
      node := Undefined;
      line := 1;
      indSize := -1;
      trimSize := -1;
      tree := [[]];
      level := 1;
    }

    /** Opens a new, empty scope one level deeper. */
    method EnterScope()
      requires Valid()
      modifies this
      ensures Valid()
      ensures tree == old(tree) + [[]] && level == old(level) + 1
      ensures i == old(i) && li == old(li) && node == old(node) && line == old(line)
      ensures indSize == old(indSize) && trimSize == old(trimSize)
    {
      tree := tree + [[]];
      level := level + 1;
    }

    method SavePos()
      modifies this
      ensures li == i == old(i)
      ensures node == old(node) && line == old(line) && tree == old(tree) && level == old(level)
      ensures indSize == old(indSize) && trimSize == old(trimSize)
    {
      li := i;
    }

    method RewindPos()
      modifies this
      ensures i == li == old(li)
      ensures node == old(node) && line == old(line) && tree == old(tree) && level == old(level)
      ensures indSize == old(indSize) && trimSize == old(trimSize)
    {
      i := li;
    }

    /** The first space node fixes the indent size of every scope level. */
    method InitIndentSize()
      modifies this
      ensures indSize == if old(indSize) < 0 && node.Space? then node.spaceSize else old(indSize)
      ensures i == old(i) && li == old(li) && node == old(node) && line == old(line)
      ensures tree == old(tree) && level == old(level) && trimSize == old(trimSize)
    {
      if indSize < 0 {
        if !node.Space? {
          return;
        }
        indSize := node.spaceSize;
      }
    }

    /** Fails exactly when the last node is an indent whose size is not `level` indent sizes. */
    method AssertIndentAligned() returns (r: Result<(), CompileError>)
      ensures r.Err? <==> node.Space? && node.spaceSize != level * indSize
      ensures r.Err? ==> r.error == IndentIsNotAligned
    {
      if !node.Space? {
        return Ok(());
      }
      if node.spaceSize != level * indSize {
        return Err(IndentIsNotAligned);
      }
      return Ok(());
    }

    /** Steps over `c` if it is the character under the cursor. */
    method NextIs(c: char) returns (found: bool)
      modifies this
      ensures found <==> At(stream, old(i)) == Some(c)
      ensures i == old(i) + (if found then 1 else 0)
      ensures li == old(li) && node == old(node) && line == old(line) && tree == old(tree) && level == old(level)
      ensures indSize == old(indSize) && trimSize == old(trimSize)
    {
      if At(stream, i) == Some(c) {
        i := i + 1;
        return true;
      }
      return false;
    }

    /** Steps over a newline under the cursor and counts the line. */
    method NextNewline() returns (found: bool)
      modifies this
      ensures found <==> At(stream, old(i)) == Some('\n')
      ensures i == old(i) + (if found then 1 else 0)
      ensures line == old(line) + (if found then 1 else 0)
      ensures li == old(li) && node == old(node) && tree == old(tree) && level == old(level)
      ensures indSize == old(indSize) && trimSize == old(trimSize)
    {
      if At(stream, i) == Some('\n') {
        i := i + 1;
        line := line + 1;
        return true;
      }
      return false;
    }

    /**
     * Skips the blank lines and spaces at the cursor.  The size of the indent
     * is the number of spaces after the last skipped newline; the cursor stays
     * after the run even when there is no indent.
     */
    method NextFirstIndent() returns (found: bool)
      modifies this
      ensures li == old(i) <= i
      ensures forall j | old(i) <= j < i :: 0 <= j < |stream| && (stream[j] == ' ' || stream[j] == '\n')
      ensures At(stream, i) != Some(' ') && At(stream, i) != Some('\n')
      ensures i == old(i) ==> line == old(line) && !found
      ensures old(i) < i ==> (0 <= old(i) && i <= |stream| &&
        var run := stream[old(i)..i];
        line == old(line) + |Split(run)| - 1 && (found <==> |LastLine(run)| > 0))
      ensures found ==> old(i) < i && node == Space(|LastLine(stream[old(i)..i])|)
      ensures !found ==> node == old(node)
      ensures tree == old(tree) && level == old(level) && indSize == old(indSize) && trimSize == old(trimSize)
    {
      SavePos();
      var leadSize := 0;
      while At(stream, i) == Some(' ') || At(stream, i) == Some('\n')
        invariant li <= i
        invariant li < i ==> 0 <= li && i <= |stream|
        invariant forall j | li <= j < i :: 0 <= j < |stream| && (stream[j] == ' ' || stream[j] == '\n')
        invariant li < i ==> line == old(line) + |Split(stream[li..i])| - 1 && leadSize == |LastLine(stream[li..i])|
        invariant li == i ==> line == old(line) && leadSize == 0
        invariant li == old(i) && node == old(node)
        invariant tree == old(tree) && level == old(level) && indSize == old(indSize) && trimSize == old(trimSize)
        decreases |stream| - i
      {
        RunStep(stream, li, i, old(line), line, leadSize);
        if stream[i] == ' ' {
          leadSize := leadSize + 1;
        } else {
          leadSize := 0;
          line := line + 1;
        }
        i := i + 1;
      }
      if leadSize > 0 {
        node := Space(leadSize);
        return true;
      }
      return false;
    }

    /** Scans the run of spaces at the cursor into an indent node. */
    method NextIndent() returns (found: bool)
      modifies this
      ensures li == old(i) <= i
      ensures forall j | old(i) <= j < i :: 0 <= j < |stream| && stream[j] == ' '
      ensures At(stream, i) != Some(' ')
      ensures found <==> old(i) < i
      ensures found ==> node == Space(i - old(i))
      ensures !found ==> node == old(node)
      ensures line == old(line) && tree == old(tree) && level == old(level)
      ensures indSize == old(indSize) && trimSize == old(trimSize)
    {
      SavePos();
      var leadSize := 0;
      while At(stream, i) == Some(' ')
        invariant li == old(i) <= i && leadSize == i - li
        invariant li < i ==> 0 <= li
        invariant forall j | li <= j < i :: 0 <= j < |stream| && stream[j] == ' '
        invariant node == old(node) && line == old(line) && tree == old(tree) && level == old(level)
        invariant indSize == old(indSize) && trimSize == old(trimSize)
        decreases |stream| - i
      {
        leadSize := leadSize + 1;
        i := i + 1;
      }
      if leadSize > 0 {
        node := Space(leadSize);
        return true;
      }
      return false;
    }

    /**
     * Scans a backtick string at the cursor.  Without an opening backtick
     * nothing moves; a newline or the end of the stream before the closing
     * backtick is a syntax error, raised with the cursor where the scan stopped.
     */
    method NextString() returns (r: Result<bool, CompileError>)
      modifies this
      ensures li == old(i)
      ensures r == Ok(false) <==> At(stream, old(i)) != Some('`')
      ensures r == Ok(false) ==> i == old(i) && node == old(node)
      ensures r == Ok(true) ==> (node.Str? && 0 <= old(i) && i == old(i) + |node.value| + 2 <= |stream| &&
        stream[old(i)] == '`' && stream[i - 1] == '`' && node.value == stream[old(i) + 1..i - 1] &&
        '`' !in node.value && '\n' !in node.value)
      ensures r.Err? ==> (r.error == StringIsNotClosed && At(stream, old(i)) == Some('`') &&
        old(i) < i <= |stream| && (i == |stream| || stream[i] == '\n') &&
        '`' !in stream[old(i) + 1..i] && '\n' !in stream[old(i) + 1..i] && node == old(node))
      ensures line == old(line) && tree == old(tree) && level == old(level)
      ensures indSize == old(indSize) && trimSize == old(trimSize)
    {
      SavePos();
      // Scan ` (string beginning)
      if At(stream, i) != Some('`') {
        return Ok(false);
      }
      i := i + 1;
      // Consume (string content)
      while i < |stream|
        invariant li + 1 <= i <= |stream| && 0 <= li
        invariant '`' !in stream[li + 1..i] && '\n' !in stream[li + 1..i]
        invariant node == old(node) && line == old(line) && tree == old(tree) && level == old(level)
        invariant indSize == old(indSize) && trimSize == old(trimSize) && li == old(i)
        decreases |stream| - i
      {
        if stream[i] == '`' || stream[i] == '\n' {
          break;
        }
        assert stream[li + 1..i + 1] == stream[li + 1..i] + [stream[i]];
        i := i + 1;
      }
      // If we didn't end up with `
      if At(stream, i) != Some('`') {
        return Err(StringIsNotClosed);
      }
      // The cursor moved past the opening backtick, so the node is always saved
      node := Str(Slice(stream, li + 1, i));
      // Go past `
      i := i + 1;
      return Ok(true);
    }
  }
}
