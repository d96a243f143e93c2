/**
 * The line-indexing utilities that the Hyper compiler uses to cut out the text
 * around a position of its input stream (for diagnostics).  In the source they
 * are members of `Compiler` (src/runtime.ts) and again of `Cursor`
 * (src/runtime/runtime.ts); they only read the stream, so here they take it as a
 * parameter.  Each one is a method with the source's index loop, proved against
 * a specification stated with `Split` (the lines of a text, `s.split("\n")`)
 * and `Join` (`lines.join("\n")`).
 */
module Lines {
  import opened Common

  /** The error thrown by `assertWithinBoundaries`. */
  datatype Error = IndexOutOfBounds(index: int, length: int)

  // ---------------------------------------------------------------------------
  // Lines of a text
  // ---------------------------------------------------------------------------

  /** The lines of `s`: the pieces between its newline characters. */
  function Split(s: string): (p: seq<string>)
    ensures 1 <= |p| <= |s| + 1
    decreases |s|
  {
    if s == [] then [""]
    else
      var rest := Split(s[1..]);
      if s[0] == '\n' then [""] + rest else [[s[0]] + rest[0]] + rest[1..]
  }

  /** The lines joined back with newline characters. */
  function Join(lines: seq<string>): string
    decreases |lines|
  {
    if |lines| == 0 then ""
    else if |lines| == 1 then lines[0]
    else lines[0] + "\n" + Join(lines[1..])
  }

  /** The line a text ends with (what follows its last newline). */
  function LastLine(s: string): string
  {
    Split(s)[|Split(s)| - 1]
  }

  function Reverse<T>(x: seq<T>): (r: seq<T>)
    ensures |r| == |x|
  {
    if x == [] then [] else Reverse(x[1..]) + [x[0]]
  }

  lemma {:induction false} ReverseSnoc<T>(x: seq<T>, a: T)
    ensures Reverse(x + [a]) == [a] + Reverse(x)
  {
    if x != [] {
      assert (x + [a])[1..] == x[1..] + [a];
      ReverseSnoc(x[1..], a);
    } else {
      assert x + [a] == [a];
    }
  }

  /** No line contains a newline. */
  lemma {:induction false} SplitLines(s: string)
    ensures forall k | 0 <= k < |Split(s)| :: '\n' !in Split(s)[k]
    decreases |s|
  {
    if s != [] {
      SplitLines(s[1..]);
    }
  }

  /** A text without newlines is one line. */
  lemma {:induction false} SplitSingle(s: string)
    requires '\n' !in s
    ensures Split(s) == [s]
    decreases |s|
  {
    if s != [] {
      assert '\n' !in s[1..] by {
        forall k | 0 <= k < |s[1..]| ensures s[1..][k] != '\n' { assert s[1..][k] == s[k + 1]; }
      }
      SplitSingle(s[1..]);
      assert [s[0]] + s[1..] == s;
    }
  }

  /** Joining the lines gives the text back. */
  lemma {:induction false} SplitJoin(s: string)
    ensures Join(Split(s)) == s
    decreases |s|
  {
    if s != [] {
      var rest := Split(s[1..]);
      SplitJoin(s[1..]);
      if s[0] == '\n' {
        assert ([""] + rest)[1..] == rest;
      } else if |rest| == 1 {
        assert [s[0]] + s[1..] == s;
      } else {
        var p := [[s[0]] + rest[0]] + rest[1..];
        assert p[1..] == rest[1..];
        assert Join(rest) == rest[0] + "\n" + Join(rest[1..]);
        assert [s[0]] + s[1..] == s;
      }
    }
  }

  /** One step of `Split`: the first character either starts a new line or joins the first line of the rest. */
  lemma SplitCons(s: string)
    requires s != []
    ensures s[0] == '\n' ==> Split(s) == [""] + Split(s[1..])
    ensures s[0] != '\n' ==> Split(s) == [[s[0]] + Split(s[1..])[0]] + Split(s[1..])[1..]
  {
  }

  /** The lines of two texts joined by a newline are the lines of the first followed by those of the second. */
  lemma {:induction false} SplitAppend(a: string, b: string)
    ensures Split(a + "\n" + b) == Split(a) + Split(b)
    decreases |a|
  {
    if a == [] {
      var s := a + "\n" + b;
      assert s[0] == '\n' && s[1..] == b;
      SplitCons(s);
    } else {
      SplitAppend(a[1..], b);
      SplitAppendStep(a, b);
    }
  }

  /** Putting the first character of a back in front of the lines of a[1..] + "\n" + b. */
  lemma SplitAppendStep(a: string, b: string)
    requires a != []
    requires Split(a[1..] + "\n" + b) == Split(a[1..]) + Split(b)
    ensures Split(a + "\n" + b) == Split(a) + Split(b)
  {
    var s := a + "\n" + b;
    assert s[0] == a[0] && s[1..] == a[1..] + "\n" + b;
    SplitCons(s);
    SplitCons(a);
    ConsLines(a[0], Split(a), Split(s), Split(a[1..]), Split(b));
  }

  /**
   * The lines of c + u, where u's lines are x + y, are the lines of c + v,
   * where v's lines are x, followed by y.
   */
  lemma ConsLines(c: char, sa: seq<string>, ss: seq<string>, x: seq<string>, y: seq<string>)
    requires |x| >= 1
    requires c == '\n' ==> sa == [""] + x && ss == [""] + (x + y)
    requires c != '\n' ==> sa == [[c] + x[0]] + x[1..] && ss == [[c] + (x + y)[0]] + (x + y)[1..]
    ensures ss == sa + y
  {
    if c != '\n' {
      assert (x + y)[0] == x[0];
      assert (x + y)[1..] == x[1..] + y;
    }
  }

  /** Cutting a text at one of its newlines cuts its lines there. */
  lemma SplitAt(s: string, k: nat)
    requires k < |s| && s[k] == '\n'
    ensures Split(s) == Split(s[..k]) + Split(s[k + 1..])
  {
    var a, b := s[..k], s[k + 1..];
    assert s == a + "\n" + b;
    SplitAppend(a, b);
  }

  /** How the lines change when one character is appended. */
  lemma {:induction false} SplitSnoc(s: string, c: char)
    ensures c == '\n' ==> Split(s + [c]) == Split(s) + [""]
    ensures c != '\n' ==> Split(s + [c]) == Split(s)[..|Split(s)| - 1] + [LastLine(s) + [c]]
    decreases |s|
  {
    if c == '\n' {
      SplitSnocNewline(s);
    } else if s == [] {
      SplitOneChar(c);
      assert s + [c] == [c] && Split(s) == [""] && LastLine(s) == "";
      assert [""][..0] + ["" + [c]] == [[c]];
    } else {
      SplitSnoc(s[1..], c);
      SplitSnocStep(s, c);
    }
  }

  /** A newline at the end adds an empty last line. */
  lemma SplitSnocNewline(s: string)
    ensures Split(s + "\n") == Split(s) + [""]
  {
    SplitAt(s + "\n", |s|);
    assert (s + "\n")[..|s|] == s;
    assert (s + "\n")[|s| + 1..] == [];
  }

  /** A single character that is not a newline is a single line. */
  lemma SplitOneChar(c: char)
    requires c != '\n'
    ensures Split([c]) == [[c]]
  {
    assert [c][1..] == [];
    SplitCons([c]);
    assert Split([c][1..]) == [""];
    assert [c] + "" == [c] && [""][1..] == [];
  }

  /** Putting the first character back in front of the lines of s[1..] + [c]. */
  lemma SplitSnocStep(s: string, c: char)
    requires s != [] && c != '\n'
    requires Split(s[1..] + [c]) == Split(s[1..])[..|Split(s[1..])| - 1] + [LastLine(s[1..]) + [c]]
    ensures Split(s + [c]) == Split(s)[..|Split(s)| - 1] + [LastLine(s) + [c]]
  {
    assert (s + [c])[0] == s[0] && (s + [c])[1..] == s[1..] + [c];
    SplitCons(s + [c]);
    SplitCons(s);
    SnocLines(s[0], c, Split(s[1..]), Split(s[1..] + [c]), Split(s), Split(s + [c]));
  }

  /**
   * Appending c to the last of the lines r (giving x) and then putting h in
   * front is the same as putting h in front of r (giving ps) and then
   * appending c to the last line (giving pt).
   */
  lemma SnocLines(h: char, c: char, r: seq<string>, x: seq<string>, ps: seq<string>, pt: seq<string>)
    requires |r| >= 1 && x == r[..|r| - 1] + [r[|r| - 1] + [c]]
    requires h == '\n' ==> ps == [""] + r && pt == [""] + x
    requires h != '\n' ==> ps == [[h] + r[0]] + r[1..] && pt == [[h] + x[0]] + x[1..]
    ensures |ps| >= 1 && pt == ps[..|ps| - 1] + [ps[|ps| - 1] + [c]]
  {
    if h != '\n' {
      if |r| == 1 {
        assert x == [r[0] + [c]] && x[1..] == [] && r[1..] == [];
        assert [h] + (r[0] + [c]) == ([h] + r[0]) + [c];
      } else {
        assert x[0] == r[0];
        assert x[1..] == r[1..|r| - 1] + [r[|r| - 1] + [c]];
      }
    }
  }

  /** The last line restarts at a newline and otherwise grows by the appended character. */
  lemma LastLineSnoc(s: string, c: char)
    ensures LastLine(s + [c]) == if c == '\n' then "" else LastLine(s) + [c]
    ensures |Split(s + [c])| == |Split(s)| + (if c == '\n' then 1 else 0)
  {
    SplitSnoc(s, c);
  }

  /**
   * One more character of a run of spaces and newlines: a newline starts a
   * new line with no indent yet, a space widens the indent of the last one.
   */
  lemma RunStep(s: string, li: nat, i: nat, line0: int, line: int, lead: int)
    requires li <= i < |s| && (s[i] == ' ' || s[i] == '\n')
    requires li < i ==> line == line0 + |Split(s[li..i])| - 1 && lead == |LastLine(s[li..i])|
    requires li == i ==> line == line0 && lead == 0
    ensures s[i] == ' ' ==> line == line0 + |Split(s[li..i + 1])| - 1 && lead + 1 == |LastLine(s[li..i + 1])|
    ensures s[i] == '\n' ==> line + 1 == line0 + |Split(s[li..i + 1])| - 1 && 0 == |LastLine(s[li..i + 1])|
  {
    if li == i {
      assert s[li..i] == [];
    }
    assert s[li..i + 1] == s[li..i] + [s[i]];
    LastLineSnoc(s[li..i], s[i]);
  }

  /** Joining two non-empty groups of lines puts one newline between them. */
  lemma {:induction false} JoinAppend(a: seq<string>, b: seq<string>)
    requires |a| >= 1 && |b| >= 1
    ensures Join(a + b) == Join(a) + "\n" + Join(b)
    decreases |a|
  {
    if |a| == 1 {
      assert (a + b)[1..] == b;
    } else {
      assert (a + b)[1..] == a[1..] + b;
      JoinAppend(a[1..], b);
    }
  }

  // ---------------------------------------------------------------------------
  // Specifications of the line functions
  // ---------------------------------------------------------------------------

  /** The text `linesBefore(i, n)` returns for n != 0 on a non-empty stream with i in range. */
  function BeforeText(s: string, i: nat, n: int): string
    requires i <= |s|
  {
    var p := Split(s[..i]);
    if 0 < n < |p| then Join(p[|p| - n..])
    else if i > 0 && s[0] == '\n' then s[1..i]
    else s[..i]
  }

  /** The text `linesAfter(i, n)` returns for n != 0 on a non-empty stream with i in range. */
  function AfterText(s: string, i: nat, n: int): string
    requires i <= |s|
  {
    var q := Split(s[i..]);
    if 0 < n < |q| then Join(q[..n]) + "\n" else s[i..]
  }

  /** The lines `linesBeforeArray` keeps out of the lines before the cursor. */
  function LastLines(p: seq<string>, n: int): seq<string>
    requires |p| >= 1
  {
    if n > 0 then (if n < |p| then p[|p| - n..] else p)
    else if n == -1 then p
    else p[1..]
  }

  /** The lines `linesAfterArray` keeps out of the lines from the cursor on. */
  function FirstLines(q: seq<string>, n: int): seq<string>
    requires |q| >= 1
  {
    if n > 0 then (if n < |q| then q[..n] else q)
    else if n == -1 then q
    else q[..|q| - 1]
  }

  function LinesBeforeSpec(s: string, i: int, n: int): Result<string, Error>
  {
    if n == 0 || |s| == 0 then Ok("")
    else if !(0 <= i < |s|) then Err(IndexOutOfBounds(i, |s|))
    else Ok(BeforeText(s, i, n))
  }

  function LinesAfterSpec(s: string, i: int, n: int): Result<string, Error>
  {
    if n == 0 || |s| == 0 then Ok("")
    else if !(0 <= i < |s|) then Err(IndexOutOfBounds(i, |s|))
    else Ok(AfterText(s, i, n))
  }

  function LinesBeforeArraySpec(s: string, i: int, n: int): Result<seq<string>, Error>
  {
    if n == 0 || |s| == 0 then Ok([])
    else if i == -1 then Ok(LastLines(Split(s), n))
    else if !(0 <= i < |s|) then Err(IndexOutOfBounds(i, |s|))
    else Ok(LastLines(Split(s[..i]), n))
  }

  function LinesAfterArraySpec(s: string, i: int, n: int): Result<seq<string>, Error>
  {
    if n == 0 || |s| == 0 then Ok([])
    else if !(0 <= i < |s|) then Err(IndexOutOfBounds(i, |s|))
    else Ok(FirstLines(Split(s[i..]), n))
  }

  // ---------------------------------------------------------------------------
  // What the specifications promise
  // ---------------------------------------------------------------------------

  /**
   * `linesBefore` returns a slice of the stream that ends exactly at i and
   * starts at the beginning of a line; for 0 < n < (number of lines before i)
   * it is made of exactly the last n lines.
   */
  lemma BeforeTextIsLineSlice(s: string, i: nat, n: int)
    requires i <= |s|
    ensures var t := BeforeText(s, i, n);
      |t| <= i && t == s[i - |t|..i] && (i - |t| == 0 || s[i - |t| - 1] == '\n')
  {
    var p := Split(s[..i]);
    if 0 < n < |p| {
      SplitJoin(s[..i]);
      var a, b := p[..|p| - n], p[|p| - n..];
      assert p == a + b;
      JoinAppend(a, b);
      var t := Join(b);
      SuffixAfterNewline(s[..i], Join(a), t);
      assert s[i - |t|..i] == s[..i][i - |t|..];
    }
  }

  /** A text that ends with a newline and then t has t as its suffix, right after that newline. */
  lemma SuffixAfterNewline(x: string, pre: string, t: string)
    requires x == pre + "\n" + t
    ensures |t| < |x| && x[|x| - |t|..] == t && x[|x| - |t| - 1] == '\n'
  {
  }

  /** For 0 < n < (number of lines before i) `linesBefore` is made of exactly the last n lines. */
  lemma BeforeTextLines(s: string, i: nat, n: int)
    requires i <= |s|
    ensures var p := Split(s[..i]);
      0 < n < |p| ==> Split(BeforeText(s, i, n)) == p[|p| - n..]
  {
    var p := Split(s[..i]);
    if 0 < n < |p| {
      var b := p[|p| - n..];
      SplitLines(s[..i]);
      forall k | 0 <= k < |b| ensures '\n' !in b[k] {
        assert b[k] == p[|p| - n + k];
      }
      JoinSplit(b);
    }
  }

  /** Lines without newlines are recovered from their join. */
  lemma {:induction false} JoinSplit(lines: seq<string>)
    requires |lines| >= 1
    requires forall k | 0 <= k < |lines| :: '\n' !in lines[k]
    ensures Split(Join(lines)) == lines
    decreases |lines|
  {
    SplitSingle(lines[0]);
    if |lines| > 1 {
      JoinSplit(lines[1..]);
      SplitAppend(lines[0], Join(lines[1..]));
      assert lines == [lines[0]] + lines[1..];
    }
  }

  /** The string and array forms agree: `linesBefore` is the join of what `linesBeforeArray` returns,
      except that a leading empty line is dropped when the stream starts with a newline. */
  lemma BeforeTextJoinsLastLines(s: string, i: nat, n: int)
    requires i <= |s| && n > 0
    ensures var p := Split(s[..i]);
      BeforeText(s, i, n) == if n >= |p| && i > 0 && s[0] == '\n' then Join(p[1..]) else Join(LastLines(p, n))
  {
    var p := Split(s[..i]);
    SplitJoin(s[..i]);
    if n >= |p| && i > 0 && s[0] == '\n' {
      assert s[..i][0] == '\n';
      SplitAt(s[..i], 0);
      assert s[..i][..0] == [];
      assert s[..i][1..] == s[1..i];
      assert p == [""] + Split(s[1..i]);
      assert p[1..] == Split(s[1..i]);
      SplitJoin(s[1..i]);
    }
  }

  /** The line arrays contain no newline, and with n = -1 they join back to the text they cover. */
  lemma LineArraysAreLines(s: string, i: nat, n: int)
    requires i <= |s|
    ensures forall k | 0 <= k < |LastLines(Split(s[..i]), n)| :: '\n' !in LastLines(Split(s[..i]), n)[k]
    ensures forall k | 0 <= k < |FirstLines(Split(s[i..]), n)| :: '\n' !in FirstLines(Split(s[i..]), n)[k]
    ensures n > 0 ==> |LastLines(Split(s[..i]), n)| <= n && |FirstLines(Split(s[i..]), n)| <= n
    ensures n == -1 ==> Join(LastLines(Split(s[..i]), n)) == s[..i] && Join(FirstLines(Split(s[i..]), n)) == s[i..]
  {
    SplitLines(s[..i]);
    SplitLines(s[i..]);
    var p, q := Split(s[..i]), Split(s[i..]);
    var lp, fq := LastLines(p, n), FirstLines(q, n);
    forall k | 0 <= k < |lp| ensures '\n' !in lp[k] {
      if n > 0 && n < |p| { assert lp[k] == p[|p| - n + k]; }
      else if n < -1 { assert lp[k] == p[k + 1]; }
    }
    forall k | 0 <= k < |fq| ensures '\n' !in fq[k] {
      assert fq[k] == q[k];
    }
    if n == -1 {
      SplitJoin(s[..i]);
      SplitJoin(s[i..]);
    }
  }

  // ---------------------------------------------------------------------------
  // The line functions
  // ---------------------------------------------------------------------------

  /** Steps once to the left: the newline count of s[a..b] from that of s[a+1..b]. */
  lemma LineCountCons(s: string, a: nat, b: nat)
    requires a < b <= |s|
    ensures |Split(s[a..b])| == |Split(s[a + 1..b])| + (if s[a] == '\n' then 1 else 0)
  {
    assert s[a..b][0] == s[a];
    assert s[a..b][1..] == s[a + 1..b];
  }

  /** Steps once to the right: the newline count of s[a..b+1] from that of s[a..b]. */
  lemma LineCountSnoc(s: string, a: nat, b: nat)
    requires a <= b < |s|
    ensures |Split(s[a..b + 1])| == |Split(s[a..b])| + (if s[b] == '\n' then 1 else 0)
  {
    assert s[a..b + 1] == s[a..b] + [s[b]];
    LastLineSnoc(s[a..b], s[b]);
  }

  /** `linesBefore(i, n)`: the text of the n lines that end at i. */
  method LinesBefore(s: string, i: int, n: int) returns (r: Result<string, Error>)
    ensures r == LinesBeforeSpec(s, i, n)
  {
    if n == 0 || |s| == 0 {
      return Ok("");
    }
    if !(0 <= i < |s|) {
      return Err(IndexOutOfBounds(i, |s|));
    }
    var ib, count := ScanLinesBefore(s, i, n);
    BeforeResult(s, i, n, ib, count);
    // Check if we ended up at the end of the previous line
    if At(s, ib) == Some('\n') {
      ib := ib + 1;
    }
    r := Ok(Slice(s, ib, i));
  }

  /** Where the backward scan stops decides the text `linesBefore` returns. */
  lemma BeforeResult(s: string, i: nat, n: int, ib: int, count: int)
    requires i < |s| && n != 0
    requires -1 <= ib < i && (ib == -1 <==> i == 0)
    requires count == n ==> 0 <= ib && s[ib] == '\n' && |Split(s[ib..i])| - 1 == n
    requires count != n && i > 0 ==> ib == 0 && !(0 < n < |Split(s[..i])|)
    ensures Slice(s, if At(s, ib) == Some('\n') then ib + 1 else ib, i) == BeforeText(s, i, n)
  {
    if count == n {
      BeforeStop(s, i, n, ib);
    } else if i > 0 {
      BeforeEnd(s, i, n);
    } else {
      BeforeStart(s, n);
    }
  }

  /**
   * The loop of `linesBefore`: steps back from i - 1 counting newlines, and
   * stops on the n-th one or at the start of the stream.
   */
  method ScanLinesBefore(s: string, i: nat, n: int) returns (ib: int, count: int)
    requires i < |s| && n != 0
    ensures -1 <= ib < i && (ib == -1 <==> i == 0)
    ensures count == n ==> 0 <= ib && s[ib] == '\n' && |Split(s[ib..i])| - 1 == n
    ensures count != n && i > 0 ==> ib == 0 && !(0 < n < |Split(s[..i])|)
  {
    ib := i - 1;
    count := 0;
    while true
      invariant -1 <= ib < i
      invariant ib == -1 ==> i == 0
      invariant count == |Split(s[ib + 1..i])| - 1
      invariant n > 0 ==> count < n
      decreases ib + 1
    {
      if ib >= 0 {
        LineCountCons(s, ib, i);
      }
      if At(s, ib) == Some('\n') {
        count := count + 1;
      }
      if count == n || ib <= 0 {
        if count != n && i > 0 {
          assert s[..i] == s[ib..i];
        }
        return;
      }
      ib := ib - 1;
    }
  }

  /** The backward scan stopped on a newline with n lines after it: they are the answer. */
  lemma BeforeStop(s: string, i: nat, n: int, ib: nat)
    requires ib < i <= |s| && s[ib] == '\n' && n > 0
    requires |Split(s[ib..i])| - 1 == n
    ensures s[ib + 1..i] == BeforeText(s, i, n)
  {
    LineCountCons(s, ib, i);
    var p := Split(s[..i]);
    SplitAt(s[..i], ib);
    assert s[..i][..ib] == s[..ib];
    assert s[..i][ib + 1..] == s[ib + 1..i];
    assert p[|p| - n..] == Split(s[ib + 1..i]);
    SplitJoin(s[ib + 1..i]);
  }

  /** At position 0 there is nothing before the cursor, and the slice from -1 to 0 is empty too. */
  lemma BeforeStart(s: string, n: int)
    requires |s| > 0
    ensures BeforeText(s, 0, n) == "" && Slice(s, -1, 0) == ""
  {
    assert s[..0] == [];
    assert Split(s[..0]) == [""];
  }

  /** The backward scan reached the start of the stream. */
  lemma BeforeEnd(s: string, i: nat, n: int)
    requires 0 < i <= |s| && !(0 < n < |Split(s[..i])|)
    ensures BeforeText(s, i, n) == if s[0] == '\n' then s[1..i] else s[0..i]
  {
  }

  /** `linesAfter(i, n)`: the text from i up to and including the n-th newline, or to the end. */
  method LinesAfter(s: string, i: int, n: int) returns (r: Result<string, Error>)
    ensures r == LinesAfterSpec(s, i, n)
  {
    if n == 0 || |s| == 0 {
      return Ok("");
    }
    if !(0 <= i < |s|) {
      return Err(IndexOutOfBounds(i, |s|));
    }
    var ia := i;
    var lineCount := 0;
    while true
      invariant i <= ia <= |s|
      invariant lineCount == |Split(s[i..ia])| - 1
      invariant n > 0 ==> lineCount < n
      decreases |s| - ia
    {
      if ia < |s| {
        LineCountSnoc(s, i, ia);
      }
      if At(s, ia) == Some('\n') {
        lineCount := lineCount + 1;
      }
      if lineCount == n || ia >= |s| {
        break;
      }
      ia := ia + 1;
    }
    if lineCount == n {
      // the loop stopped on the n-th newline from i
      AfterStop(s, i, n, ia);
    } else {
      AfterEnd(s, i, n);
    }
    if At(s, ia) == Some('\n') {
      ia := ia + 1;
    }
    r := Ok(Slice(s, i, ia));
  }

  /** The forward scan stopped on its n-th newline: the text up to it, newline included, is the answer. */
  lemma AfterStop(s: string, i: nat, n: int, ia: nat)
    requires i <= ia < |s| && s[ia] == '\n' && n > 0
    requires |Split(s[i..ia + 1])| - 1 == n
    ensures s[i..ia + 1] == AfterText(s, i, n)
  {
    LineCountSnoc(s, i, ia);
    var head := Split(s[i..ia]);
    SplitAtNewline(s, i, ia);
    PrefixOfConcat(Split(s[i..]), head, Split(s[ia + 1..]));
    SplitJoin(s[i..ia]);
    assert s[i..ia + 1] == s[i..ia] + "\n";
  }

  /** The lines from i split at a newline ia into the lines before it and those after it. */
  lemma SplitAtNewline(s: string, i: nat, ia: nat)
    requires i <= ia < |s| && s[ia] == '\n'
    ensures Split(s[i..]) == Split(s[i..ia]) + Split(s[ia + 1..])
  {
    SplitAt(s[i..], ia - i);
    assert s[i..][..ia - i] == s[i..ia];
    assert s[i..][ia - i + 1..] == s[ia + 1..];
  }

  lemma PrefixOfConcat<T>(q: seq<T>, a: seq<T>, b: seq<T>)
    requires q == a + b
    ensures q[..|a|] == a && |q| == |a| + |b|
  {
  }

  /** The forward scan reached the end of the stream. */
  lemma AfterEnd(s: string, i: nat, n: int)
    requires i < |s| && !(0 < n < |Split(s[i..|s|])|)
    ensures AfterText(s, i, n) == s[i..|s|]
  {
    assert s[i..|s|] == s[i..];
  }

  /**
   * `linesAround(i, before, after)`: the text around i and the offset of i in it.
   * The character at that offset is the one at i, and with the default
   * before = after = 1 the text is the single line holding i (with its newline).
   */
  method LinesAround(s: string, i: int, before: int, after: int) returns (r: Result<(string, int), Error>)
    ensures r.Err? <==> |s| > 0 && (before != 0 || after != 0) && !(0 <= i < |s|)
    ensures r.Err? ==> r.error == IndexOutOfBounds(i, |s|)
    ensures r.Ok? ==>
      var b, a := LinesBeforeSpec(s, i, before), LinesAfterSpec(s, i, after);
      b.Ok? && a.Ok? && r.value == (b.value + a.value, |b.value|)
    ensures r.Ok? && |s| > 0 && before != 0 && after != 0 ==>
      var (line, pos) := r.value;
      0 <= i < |s| && 0 <= pos < |line| && pos <= i && i - pos + |line| <= |s| &&
      line == s[i - pos..i - pos + |line|] && line[pos] == s[i]
    ensures r.Ok? && |s| > 0 && before == 1 && after == 1 ==>
      var (line, pos) := r.value;
      |line| > 0 && '\n' !in line[..|line| - 1]
    ensures r.Ok? && (|s| == 0 || (before == 0 && after == 0)) ==> r.value == ("", 0)
  {
    var partBefore := LinesBefore(s, i, before);
    if partBefore.Err? {
      return Err(partBefore.error);
    }
    var partAfter := LinesAfter(s, i, after);
    if partAfter.Err? {
      return Err(partAfter.error);
    }
    var b, a := partBefore.value, partAfter.value;
    r := Ok((b + a, |b|));
    if |s| == 0 || (before == 0 && after == 0) {
      assert b == "" && a == "";
      assert b + a == "";
    }
    if |s| > 0 && before != 0 && after != 0 {
      TextAround(s, i, before, after);
      if before == 1 && after == 1 {
        OneLineAround(s, i);
      }
    }
  }

  /** The text before i and the text from i, put together, are a slice of the stream holding i. */
  lemma TextAround(s: string, i: nat, before: int, after: int)
    requires i < |s|
    ensures var b, t := BeforeText(s, i, before), BeforeText(s, i, before) + AfterText(s, i, after);
      |b| < |t| && |b| <= i && i - |b| + |t| <= |s| && t == s[i - |b|..i - |b| + |t|] && t[|b|] == s[i]
  {
    BeforeTextIsLineSlice(s, i, before);
    AfterTextIsLineSlice(s, i, after);
    var b, a := BeforeText(s, i, before), AfterText(s, i, after);
    assert b + a == s[i - |b|..i] + s[i..i + |a|];
    assert s[i - |b|..i] + s[i..i + |a|] == s[i - |b|..i + |a|];
  }

  /**
   * `linesAfter` returns a non-empty slice of the stream that starts exactly at i
   * and ends right after a newline or at the end of the stream.
   */
  lemma AfterTextIsLineSlice(s: string, i: nat, n: int)
    requires i < |s|
    ensures var t := AfterText(s, i, n);
      0 < |t| <= |s| - i && t == s[i..i + |t|] && (i + |t| == |s| || s[i + |t| - 1] == '\n')
  {
    var q := Split(s[i..]);
    SplitJoin(s[i..]);
    if 0 < n < |q| {
      var a, b := q[..n], q[n..];
      assert q == a + b;
      JoinAppend(a, b);
      assert s[i..] == Join(a) + "\n" + Join(b);
      assert s[i..i + |Join(a)| + 1] == s[i..][..|Join(a)| + 1];
    }
  }

  /** With one line on each side the text around i holds no newline but possibly its last character. */
  lemma OneLineAround(s: string, i: nat)
    requires i < |s|
    ensures var t := BeforeText(s, i, 1) + AfterText(s, i, 1);
      |t| > 0 && '\n' !in t[..|t| - 1]
  {
    var b, a := BeforeText(s, i, 1), AfterText(s, i, 1);
    var p, q := Split(s[..i]), Split(s[i..]);
    SplitLines(s[..i]);
    SplitLines(s[i..]);
    assert '\n' !in b by {
      if 1 < |p| {
        assert p[|p| - 1..] == [p[|p| - 1]];
      } else {
        SplitJoin(s[..i]);
        assert p == [p[0]];
        assert s[..i] == p[0];
      }
    }
    assert '\n' !in a[..|a| - 1] by {
      if 1 < |q| {
        assert q[..1] == [q[0]];
        assert a[..|a| - 1] == q[0];
      } else {
        SplitJoin(s[i..]);
        assert q == [q[0]];
        assert a == q[0];
      }
    }
    AfterTextIsLineSlice(s, i, 1);
    var t := b + a;
    assert t[..|t| - 1] == b + a[..|a| - 1];
  }

  /** The backward scan of `linesBeforeArray` cuts off the last line before i at the newline ib. */
  lemma CutLastLine(s: string, ib: nat, i: nat, lines: seq<string>)
    requires ib < i <= |s| && s[ib] == '\n' && '\n' !in s[ib + 1..i]
    ensures Split(s[..i]) + Reverse(lines) == Split(s[..ib]) + Reverse(lines + [s[ib + 1..i]])
  {
    SplitAt(s[..i], ib);
    assert s[..i][..ib] == s[..ib];
    assert s[..i][ib + 1..] == s[ib + 1..i];
    SplitSingle(s[ib + 1..i]);
    ReverseSnoc(lines, s[ib + 1..i]);
  }

  /** The forward scan of `linesAfterArray` cuts off the first line from start at the newline ia. */
  lemma CutFirstLine(s: string, start: nat, ia: nat)
    requires start <= ia < |s| && s[ia] == '\n' && '\n' !in s[start..ia]
    ensures Split(s[start..]) == [s[start..ia]] + Split(s[ia + 1..])
  {
    SplitAt(s[start..], ia - start);
    assert s[start..][..ia - start] == s[start..ia];
    assert s[start..][ia - start + 1..] == s[ia + 1..];
    SplitSingle(s[start..ia]);
  }

  /** What is left when the scan of `linesBeforeArray` stops decides which lines it returns. */
  lemma LastLinesOfScan(p: seq<string>, head: seq<string>, lines: seq<string>, n: int, m: int, reachedStart: bool)
    requires p == head + Reverse(lines) && |head| >= 1
    requires n != 0 && (if n == -1 then m >= |p| else m == n)
    requires m > 0 ==> |lines| <= m
    requires |lines| < m ==> reachedStart && |head| == 1
    requires m <= 0 ==> reachedStart && |head| == 1
    ensures |lines| < m ==> LastLines(p, n) == head + Reverse(lines)
    ensures |lines| == m ==> LastLines(p, n) == Reverse(lines)
    ensures m < 0 ==> LastLines(p, n) == Reverse(lines)
  {
    if |lines| == m {
      assert p[|p| - m..] == Reverse(lines);
    } else if m < 0 {
      assert p[1..] == Reverse(lines);
    }
  }

  /** `linesBeforeArray(i, n)`: the last n lines before i, without their newlines (i = -1: before the end). */
  method LinesBeforeArray(s: string, i: int, n: int) returns (r: Result<seq<string>, Error>)
    ensures r == LinesBeforeArraySpec(s, i, n)
  {
    if n == 0 || |s| == 0 {
      return Ok([]);
    }
    var i := i;
    if i != -1 {
      if !(0 <= i < |s|) {
        return Err(IndexOutOfBounds(i, |s|));
      }
    } else {
      i := |s|;
      assert s[..i] == s;
    }
    // Consume all lines when n is -1
    var m := if n == -1 then |s| + 1 else n;
    var lines, end, ib := ScanLinesBeforeArray(s, i, m);
    BeforeArrayDone(s, i, n, m, lines, end, ib);
    if |lines| < m {
      // Add the first line
      if s[0] == '\n' {
        lines := lines + [""];
      } else {
        lines := lines + [s[ib + 1..end]];
      }
    }
    r := Ok(Reverse(lines));
  }

  /**
   * The loop of `linesBeforeArray`: steps back from i - 1, cutting off a line
   * at every newline, until m lines are cut or the stream starts.  The lines
   * are collected last first; `end` is where the uncut text ends.
   */
  method ScanLinesBeforeArray(s: string, i: nat, m: int) returns (lines: seq<string>, end: nat, ib: int)
    requires i <= |s|
    ensures -1 <= ib <= end <= i
    ensures Split(s[..i]) == Split(s[..end]) + Reverse(lines)
    ensures m > 0 ==> |lines| <= m
    ensures |lines| == m || (ib == -1 && forall j | 0 <= j < end :: s[j] != '\n')
  {
    ghost var p := Split(s[..i]);
    lines := [];
    end := i;
    var counter := 0;
    ib := i - 1;
    while true
      invariant -1 <= ib < end <= i
      invariant counter == |lines|
      invariant p == Split(s[..end]) + Reverse(lines)
      invariant forall j | ib < j < end :: s[j] != '\n'
      invariant m > 0 ==> counter < m
      decreases ib + 1
    {
      if At(s, ib) == Some('\n') {
        NoNewlineIn(s, ib + 1, end);
        CutLastLine(s, ib, end, lines);
        lines := lines + [s[ib + 1..end]]; // '\n' itself stripped
        end := ib;
        counter := counter + 1;
      }
      if counter == m || ib < 0 {
        return;
      }
      ib := ib - 1;
    }
  }

  /** A slice none of whose characters is a newline holds no newline. */
  lemma NoNewlineIn(s: string, a: nat, b: nat)
    requires a <= b <= |s| && forall j | a <= j < b :: s[j] != '\n'
    ensures '\n' !in s[a..b]
  {
  }

  /** Where the scan of `linesBeforeArray` stops decides the lines it returns. */
  lemma BeforeArrayDone(s: string, i: nat, n: int, m: int, lines: seq<string>, end: nat, ib: int)
    requires 0 < |s| && i <= |s| && n != 0 && m == (if n == -1 then |s| + 1 else n)
    requires -1 <= ib <= end <= i
    requires Split(s[..i]) == Split(s[..end]) + Reverse(lines)
    requires m > 0 ==> |lines| <= m
    requires |lines| == m || (ib == -1 && forall j | 0 <= j < end :: s[j] != '\n')
    ensures |lines| < m ==> ib == -1 && (s[0] == '\n' ==> end == 0)
    ensures |lines| < m ==> Reverse(lines + [s[..end]]) == LastLines(Split(s[..i]), n)
    ensures |lines| >= m ==> Reverse(lines) == LastLines(Split(s[..i]), n)
  {
    var p, head := Split(s[..i]), Split(s[..end]);
    if |lines| != m {
      NoNewlineIn(s, 0, end);
      assert s[0..end] == s[..end];
      SplitSingle(s[..end]);
    }
    LastLinesOfScan(p, head, lines, n, m, |lines| != m);
    if |lines| < m {
      ReverseSnoc(lines, s[..end]);
    }
  }

  /** What is left when the scan of `linesAfterArray` stops decides which lines it returns. */
  lemma FirstLinesOfScan(q: seq<string>, lines: seq<string>, tail: seq<string>, n: int, m: int, reachedEnd: bool)
    requires q == lines + tail && |tail| >= 1
    requires n != 0 && (if n == -1 then m >= |q| else m == n)
    requires m > 0 ==> |lines| <= m
    requires |lines| < m ==> reachedEnd && |tail| == 1
    requires m <= 0 ==> reachedEnd && |tail| == 1
    ensures |lines| < m ==> FirstLines(q, n) == lines + tail
    ensures |lines| == m ==> FirstLines(q, n) == lines
    ensures m < 0 ==> FirstLines(q, n) == lines
  {
    if |lines| == m {
      assert q[..m] == lines;
    } else if m < 0 {
      assert q[..|q| - 1] == lines;
    }
  }

  /** `linesAfterArray(i, n)`: the first n lines from i on, without their newlines. */
  method LinesAfterArray(s: string, i: int, n: int) returns (r: Result<seq<string>, Error>)
    ensures r == LinesAfterArraySpec(s, i, n)
  {
    if n == 0 || |s| == 0 {
      return Ok([]);
    }
    if !(0 <= i < |s|) {
      return Err(IndexOutOfBounds(i, |s|));
    }
    var m := if n == -1 then |s| + 1 else n;
    var lines, start, ia := ScanLinesAfter(s, i, m);
    AfterArrayDone(s, i, n, m, Split(s[i..]), lines, start, ia);
    if |lines| < m {
      // Add the last line (the text after the last newline)
      lines := lines + [s[start..]];
    }
    r := Ok(lines);
  }

  /** The loop of `linesAfterArray`: collects lines from i until m of them are complete or the stream ends. */
  method ScanLinesAfter(s: string, i: nat, m: int) returns (lines: seq<string>, start: nat, ia: nat)
    requires i < |s|
    ensures i <= start <= ia <= |s|
    ensures Split(s[i..]) == lines + Split(s[start..])
    ensures '\n' !in s[start..ia]
    ensures m > 0 ==> |lines| <= m
    ensures ia == |s| || |lines| == m
  {
    ghost var q := Split(s[i..]);
    lines := [];
    var counter := 0;
    start := i;
    ia := i;
    while ia < |s| && counter != m
      invariant i <= start <= ia <= |s|
      invariant counter == |lines|
      invariant q == lines + Split(s[start..])
      invariant '\n' !in s[start..ia]
      invariant m > 0 ==> counter <= m
      decreases |s| - ia
    {
      AfterArrayStep(s, q, lines, start, ia);
      if s[ia] == '\n' {
        lines := lines + [s[start..ia]];
        counter := counter + 1;
        start := ia + 1;
      }
      ia := ia + 1;
    }
  }

  /** A newline-free slice grows to the right by a character that is not a newline. */
  lemma NoNewlineSnoc(s: string, a: nat, b: nat)
    requires a <= b < |s| && s[b] != '\n' && '\n' !in s[a..b]
    ensures '\n' !in s[a..b + 1]
  {
    assert s[a..b + 1] == s[a..b] + [s[b]];
  }

  /** A newline at ia ends the line that started at `start`, which joins the collected lines. */
  lemma AfterArrayStep(s: string, q: seq<string>, lines: seq<string>, start: nat, ia: nat)
    requires start <= ia < |s| && '\n' !in s[start..ia]
    requires q == lines + Split(s[start..])
    ensures s[ia] == '\n' ==> q == (lines + [s[start..ia]]) + Split(s[ia + 1..]) && '\n' !in s[ia + 1..ia + 1]
    ensures s[ia] != '\n' ==> '\n' !in s[start..ia + 1]
  {
    if s[ia] == '\n' {
      CutFirstLine(s, start, ia);
      assert lines + ([s[start..ia]] + Split(s[ia + 1..])) == (lines + [s[start..ia]]) + Split(s[ia + 1..]);
    } else {
      NoNewlineSnoc(s, start, ia);
    }
  }

  /** When the scan of `linesAfterArray` stops, the collected lines (and the rest, if fewer than n) are the answer. */
  lemma AfterArrayDone(s: string, i: nat, n: int, m: int, q: seq<string>, lines: seq<string>, start: nat, ia: nat)
    requires i <= start <= ia <= |s| && n != 0 && m == (if n == -1 then |s| + 1 else n)
    requires q == Split(s[i..]) && q == lines + Split(s[start..])
    requires '\n' !in s[start..ia]
    requires m > 0 ==> |lines| <= m
    requires ia == |s| || |lines| == m
    ensures (if |lines| < m then lines + [s[start..]] else lines) == FirstLines(q, n)
  {
    var tail := Split(s[start..]);
    if ia == |s| {
      assert s[start..ia] == s[start..];
      SplitSingle(s[start..]);
    }
    FirstLinesOfScan(q, lines, tail, n, m, ia == |s|);
  }

  // ---------------------------------------------------------------------------
  // linesAfterArray as the source writes it
  // ---------------------------------------------------------------------------

  /**
   * The loop of `linesAfterArray` as written: after a newline it moves past it
   * and then steps once more, so the character right after each newline is
   * never examined.  Returns the collected lines and the final `i`, `ia`, `counter`.
   */
  function AfterArrayLoop(s: string, i: nat, ia: nat, counter: nat, n: int, lines: seq<string>): (seq<string>, nat, nat, nat)
    requires i <= ia < |s|
    decreases |s| - ia
  {
    var nl := At(s, ia) == Some('\n');
    var lines' := if nl then lines + [s[i..ia]] else lines;
    var i' := if nl then ia + 1 else i;
    var ia' := if nl then ia + 1 else ia;
    var counter' := if nl then counter + 1 else counter;
    if counter' == n || ia' >= |s| - 1 then (lines', i', ia', counter')
    else AfterArrayLoop(s, i', ia' + 1, counter', n, lines')
  }

  /** `linesAfterArray(i, n)` exactly as written in the source. */
  function LinesAfterArrayAsWritten(s: string, i: int, n: int): (r: Result<seq<string>, Error>)
    ensures r.Err? <==> n != 0 && |s| > 0 && !(0 <= i < |s|)
  {
    if n == 0 || |s| == 0 then Ok([])
    else if !(0 <= i < |s|) then Err(IndexOutOfBounds(i, |s|))
    else
      var m := if n == -1 then |s| + 1 else n;
      var (lines, i', ia, counter) := AfterArrayLoop(s, i, i, 0, m, []);
      if counter < m then
        Ok(lines + [if s[|s| - 1] == '\n' then "" else Slice(s, i', ia + 1)])
      else Ok(lines)
  }

  /**
   * On "a\n\nb" the written loop never looks at the second newline: it returns
   * ["a", "\nb"], whose second element holds a newline, where the lines are
   * ["a", "", "b"].
   */
  lemma LinesAfterArrayAsWrittenSplitsBadly()
    ensures LinesAfterArrayAsWritten("a\n\nb", 0, -1) == Ok(["a", "\nb"])
    ensures '\n' in LinesAfterArrayAsWritten("a\n\nb", 0, -1).value[1]
    ensures LinesAfterArraySpec("a\n\nb", 0, -1) == Ok(["a", "", "b"])
  {
    var s := "a\n\nb";
    assert At(s, 3) == Some('b');
    assert AfterArrayLoop(s, 2, 3, 1, 5, ["a"]) == (["a"], 2, 3, 1);
    assert At(s, 1) == Some('\n') && s[0..1] == "a";
    assert [] + [s[0..1]] == ["a"];
    assert AfterArrayLoop(s, 0, 1, 0, 5, []) == (["a"], 2, 3, 1);
    assert At(s, 0) == Some('a');
    assert AfterArrayLoop(s, 0, 0, 0, 5, []) == (["a"], 2, 3, 1);
    assert Slice(s, 2, 4) == "\nb";
    assert s[|s| - 1] == 'b';
    assert ["a"] + ["\nb"] == ["a", "\nb"];
    LinesOfAEmptyB();
    assert s[0..] == s;
  }

  /** The lines of "a\n\nb" are "a", "" and "b". */
  lemma LinesOfAEmptyB()
    ensures Split("a\n\nb") == ["a", "", "b"]
  {
    var s := "a\n\nb";
    SplitSingle("a");
    SplitSingle("b");
    assert s == "a" + "\n" + "\nb";
    assert "\nb" == "" + "\n" + "b";
    SplitAppend("a", "\nb");
    SplitAppend("", "b");
    assert Split("") == [""];
    assert Split("\nb") == ["", "b"];
    assert Split(s) == ["a"] + ["", "b"];
  }

  // ---------------------------------------------------------------------------
  // addInRange
  // ---------------------------------------------------------------------------

  /** `addInRange(a, b, min, max)`: a + b clamped to [min, max] (max wins if the range is empty). */
  function AddInRange(a: int, b: int, min: int, max: int): (r: int)
    ensures a + b > max ==> r == max
    ensures a + b <= max && a + b < min ==> r == min
    ensures min <= a + b <= max ==> r == a + b
    ensures min <= max ==> min <= r <= max
  {
    var sum := a + b;
    if sum > max then max
    else if sum < min then min
    else sum
  }
}
