/**
 * The `Printer` of src/runtime/runtime.ts: an append-only text buffer with an
 * indentation level.  An indentation is `tabChar` repeated `tabSize` times,
 * the whole repeated `level` times; `String.prototype.repeat` throws a
 * RangeError on a negative count, which here is the `Err` of a `Result`.
 */
module RuntimePrinter {
  import opened Common

  /** The exception `repeat` throws on a negative count. */
  datatype RangeError = InvalidCountValue(count: int)

  /** `s.repeat(n)`, throwing on a negative count. */
  function RepeatOrThrow(s: string, n: int): (r: Result<string, RangeError>)
    ensures r.Ok? <==> n >= 0
    ensures r.Ok? ==> |r.value| == |s| * n
    ensures r.Err? ==> r.error == InvalidCountValue(n)
  {
    if n < 0 then Err(InvalidCountValue(n))
    else
      RepeatLength(s, n);
      Ok(Repeat(s, n))
  }

  /** `tabChar.repeat(tabSize).repeat(level)`: the first negative count throws. */
  function Indent(tabChar: string, tabSize: int, level: int): (r: Result<string, RangeError>)
    ensures r.Ok? <==> tabSize >= 0 && level >= 0
    ensures tabSize < 0 ==> r == Err(InvalidCountValue(tabSize))
    ensures tabSize >= 0 && level < 0 ==> r == Err(InvalidCountValue(level))
    ensures r.Ok? ==> |r.value| == |tabChar| * tabSize * level
  {
    match RepeatOrThrow(tabChar, tabSize)
    case Err(e) => Err(e)
    case Ok(tab) => RepeatOrThrow(tab, level)
  }

  /** Repeating a repetition repeats the original string the product of the counts. */
  lemma {:induction false} RepeatRepeat(s: string, a: nat, b: nat)
    ensures Repeat(Repeat(s, a), b) == Repeat(s, a * b)
  {
    if b > 0 {
      RepeatRepeat(s, a, b - 1);
      RepeatAdd(s, a, a * (b - 1));
      assert a + a * (b - 1) == a * b;
    }
  }

  /** A repetition of a + b copies is the a copies followed by the b copies. */
  lemma {:induction false} RepeatAdd(s: string, a: nat, b: nat)
    ensures Repeat(s, a + b) == Repeat(s, a) + Repeat(s, b)
  {
    if a > 0 {
      RepeatAdd(s, a - 1, b);
      assert a + b - 1 == (a - 1) + b;
    }
  }

  /** An indentation that does not throw is `tabChar` repeated tabSize × level times. */
  lemma IndentIsRepeat(tabChar: string, tabSize: int, level: int)
    requires tabSize >= 0 && level >= 0
    ensures Indent(tabChar, tabSize, level) == Ok(Repeat(tabChar, tabSize * level))
  {
    RepeatRepeat(tabChar, tabSize, level);
  }

  class Printer {
    var buffer: string
    var level: int
    const tabSize: int
    const tabChar: string

    constructor(tabSize: int, tabChar: string)
      ensures buffer == "" && level == 0 && this.tabSize == tabSize && this.tabChar == tabChar
    {
      buffer := "";
      level := 0;
      this.tabSize := tabSize;
      this.tabChar := tabChar;
    }

    /** `prepend(part)`: the part goes in front of the buffer. */
    method Prepend(part: string)
      modifies this
      ensures level == old(level) && buffer == part + old(buffer)
    {
      buffer := part + buffer;
    }

    /** `prependLine(line)`: an indented line goes in front of the buffer. */
    method PrependLine(line: string) returns (r: Result<(), RangeError>)
      modifies this
      ensures level == old(level)
      ensures r.Ok? <==> tabSize >= 0 && level >= 0
      ensures r.Ok? ==> buffer == Indent(tabChar, tabSize, level).value + line + "\n" + old(buffer)
      ensures r.Err? ==> buffer == old(buffer) && r.error == Indent(tabChar, tabSize, level).error
    {
      var tab := Indent(tabChar, tabSize, level);
      if tab.Err? {
        return Err(tab.error);
      }
      buffer := tab.value + line + "\n" + buffer;
      r := Ok(());
    }

    /** `addTab(lvl)`: appends the indentation of level `lvl`. */
    method AddTab(lvl: int) returns (r: Result<(), RangeError>)
      modifies this
      ensures level == old(level)
      ensures r.Ok? <==> tabSize >= 0 && lvl >= 0
      ensures r.Ok? ==> buffer == old(buffer) + Indent(tabChar, tabSize, lvl).value
      ensures r.Err? ==> buffer == old(buffer)
    {
      var tab := Indent(tabChar, tabSize, lvl);
      if tab.Err? {
        return Err(tab.error);
      }
      buffer := buffer + tab.value;
      r := Ok(());
    }

    /** `add(part)`: appends a part of a line. */
    method Add(part: string)
      modifies this
      ensures level == old(level) && buffer == old(buffer) + part
    {
      buffer := buffer + part;
    }

    /** `newline()`: ends the current line. */
    method Newline()
      modifies this
      ensures level == old(level) && buffer == old(buffer) + "\n"
    {
      buffer := buffer + "\n";
    }

    /** `tab(k)`: adds k (which may be negative) to the level. */
    method Tab(k: int)
      modifies this
      ensures buffer == old(buffer) && level == old(level) + k
    {
      level := level + k;
    }

    /**
     * `untab(k)`: lowers the level by one whatever k is, and leaves level 0 as
     * it is, so a level that was not negative stays so.
     */
    method Untab(k: int)
      modifies this
      ensures buffer == old(buffer)
      ensures level == if old(level) == 0 then 0 else old(level) - 1
      ensures old(level) >= 0 ==> level >= 0
    {
      level := if level == 0 then 0 else level - 1;
    }

    /** `line(s)`: appends an indented line ended by a newline. */
    method Line(line: string) returns (r: Result<(), RangeError>)
      modifies this
      ensures level == old(level)
      ensures r.Ok? <==> tabSize >= 0 && level >= 0
      ensures r.Ok? ==> buffer == old(buffer) + Repeat(tabChar, tabSize * level) + line + "\n"
      ensures r.Err? ==> buffer == old(buffer) && r.error == Indent(tabChar, tabSize, level).error
    {
      var tab := Indent(tabChar, tabSize, level);
      if tab.Err? {
        return Err(tab.error);
      }
      IndentIsRepeat(tabChar, tabSize, level);
      buffer := buffer + tab.value + line + "\n";
      r := Ok(());
    }
  }
}
