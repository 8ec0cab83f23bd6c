/**
 * `SubstitutionCipher.transformFile`: read the input file line by line while
 * the scanner still sees a token, write the shifted form of each line read.
 * A file is given as the sequence of its lines; opening a file is reduced to
 * whether it succeeds.
 */
module Pipeline {

  import opened Wrappers
  import Shifter

  /**
   * Java's `Character.isWhitespace`, which `Scanner` uses to separate tokens:
   * the ASCII controls TAB to CR and FS to US, and the Unicode space, line
   * and paragraph separators other than the three no-break spaces.
   */
  predicate IsJavaWhitespace(c: char)
  {
    var n := c as int;
    n == 0x20 || 0x09 <= n <= 0x0D || 0x1C <= n <= 0x1F
    || n == 0x1680 || 0x2000 <= n <= 0x2006 || 0x2008 <= n <= 0x200A
    || n == 0x2028 || n == 0x2029 || n == 0x205F || n == 0x3000
  }

  /** A line holds a token: some character of it is not whitespace. */
  predicate LineHasToken(line: string)
  {
    exists j :: 0 <= j < |line| && !IsJavaWhitespace(line[j])
  }

  /**
   * `Scanner.hasNext()` at the start of `lines`: a token lies somewhere ahead,
   * that is, some remaining line holds a non-whitespace character.
   */
  predicate HasNext(lines: seq<string>): (b: bool)
    ensures b <==> exists i :: 0 <= i < |lines| && LineHasToken(lines[i])
  {
    if |lines| == 0 then false
    else if LineHasToken(lines[0]) then true
    else
      var rest := HasNext(lines[1..]);
      assert forall i :: 0 < i < |lines| ==> lines[i] == lines[1..][i - 1];
      rest
  }

  /**
   * How many lines the loop reads: it goes on while a token lies ahead, so it
   * stops right after the last line holding one.
   */
  function LinesRead(lines: seq<string>): (n: nat)
    ensures n <= |lines|
    ensures !HasNext(lines[n..])
    ensures n > 0 ==> LineHasToken(lines[n - 1])
  {
    if !HasNext(lines) then
      assert lines[0..] == lines;
      0
    else
      var m := LinesRead(lines[1..]);
      assert lines[1..][m..] == lines[m + 1..];
      m + 1
  }

  /** What the loop writes: the shifted form of each line read, in order. */
  function Transformed(lines: seq<string>, shift: int): seq<string>
  {
    var n := LinesRead(lines);
    seq(n, i requires 0 <= i < n => Shifter.Rotate(lines[i], shift))
  }

  /**
   * The lines written are exactly the lines before and including the last
   * one that holds a token, each shifted; when the last line holds a token
   * there is one output line per input line.
   */
  lemma TransformedLines(lines: seq<string>, shift: int)
    ensures |Transformed(lines, shift)| <= |lines|
    ensures forall i :: 0 <= i < |Transformed(lines, shift)| ==> Transformed(lines, shift)[i] == Shifter.Rotate(lines[i], shift)
    ensures forall i :: |Transformed(lines, shift)| <= i < |lines| ==> !LineHasToken(lines[i])
    ensures |lines| > 0 && LineHasToken(lines[|lines| - 1]) ==> |Transformed(lines, shift)| == |lines|
  {
    var n := LinesRead(lines);
    forall i | n <= i < |lines| ensures !LineHasToken(lines[i]) {
      assert lines[i] == lines[n..][i - n];
    }
  }

  /** A blank line between lines of text is shifted and written like any other. */
  lemma TransformedThreeLines()
    ensures Transformed(["AB", "", "yz"], 3) == ["DE", "", "bc"]
  {
    var a := ["AB", "", "yz"];
    assert !IsJavaWhitespace(a[2][0]);
    TransformedLines(a, 3);
    Shifter.RotateWrapExample();
  }

  /** A whitespace-only line after the last text is never read, so never written. */
  lemma TransformedTrailingBlank()
    ensures Transformed(["ABC", " "], -3) == ["XYZ"]
  {
    var b := ["ABC", " "];
    assert !IsJavaWhitespace(b[0][0]);
    assert !LineHasToken(b[1]);
    TransformedLines(b, -3);
    Shifter.RotateDocExamples();
  }

  /** A line holding a token anywhere ahead makes `hasNext()` true. */
  lemma {:induction false} TokenAhead(lines: seq<string>, j: nat)
    requires j < |lines| && LineHasToken(lines[j])
    ensures HasNext(lines)
  {
    if j > 0 {
      TokenAhead(lines[1..], j - 1);
    }
  }

  /** Once `hasNext()` is false it stays false further on. */
  lemma {:induction false} NoNextInSuffix(lines: seq<string>, k: nat)
    requires k <= |lines| && !HasNext(lines)
    ensures !HasNext(lines[k..])
  {
    if k > 0 {
      assert lines[k..] == lines[1..][k - 1..];
      NoNextInSuffix(lines[1..], k - 1);
    }
  }

  /** The loop condition: the scanner still has a token exactly while fewer than `LinesRead` lines are read. */
  lemma {:induction false} HasNextWhileReading(lines: seq<string>, i: nat)
    requires i <= |lines|
    ensures HasNext(lines[i..]) <==> i < LinesRead(lines)
  {
    var n := LinesRead(lines);
    if i < n {
      assert HasNext(lines[i..]) by {
        assert lines[i..][n - 1 - i] == lines[n - 1];
        TokenAhead(lines[i..], n - 1 - i);
      }
    } else {
      assert !HasNext(lines[i..]) by {
        NoNextInSuffix(lines[n..], i - n);
        assert lines[n..][i - n..] == lines[i..];
      }
    }
  }

  /**
   * The read/write loop of `transformFile`: while the scanner has a token,
   * read the next line, shift it and write it.
   */
  method TransformLines(lines: seq<string>, shift: int) returns (written: seq<string>)
    requires -26 <= shift <= 26
    ensures written == Transformed(lines, shift)
  {
    ghost var all := Transformed(lines, shift);
    written := [];
    var i := 0;
    HasNextWhileReading(lines, i);
    while HasNext(lines[i..])
      invariant 0 <= i <= |all|
      invariant HasNext(lines[i..]) <==> i < |all|
      invariant written == all[..i]
      decreases |lines| - i
    {
      var input := lines[i];
      var outFileText := Shifter.Shift(input, shift);
      assert all[..i + 1] == all[..i] + [all[i]];
      written := written + [outFileText];
      i := i + 1;
      HasNextWhileReading(lines, i);
    }
  }

  /** The contents of the output file after a call: never opened, or the lines written to it. */
  datatype OutputFile = Untouched | Written(lines: seq<string>)

  /**
   * `transformFile` with the file system abstracted: `input` is the input
   * file's lines, or `None` when it cannot be opened; `outputOpens` says
   * whether the output file can be opened for writing; `sameFile` says
   * whether both names denote one file. Either failure to open is a
   * FileNotFoundException, caught, reported, and answered with `false`
   * before any line is shifted. The scanner opens the input without reading
   * it, so when both names denote one file the writer has already emptied it
   * by the first `hasNext()`: nothing is read and nothing is written.
   */
  method TransformFile(input: Option<seq<string>>, outputOpens: bool, sameFile: bool, shift: int)
    returns (fileWorks: bool, output: OutputFile)
    requires input.Some? && outputOpens && !sameFile ==> -26 <= shift <= 26
    ensures fileWorks <==> input.Some? && outputOpens
    ensures !fileWorks ==> output == Untouched
    ensures fileWorks && !sameFile ==> output == Written(Transformed(input.value, shift))
    ensures fileWorks && sameFile ==> output == Written([])
  {
    fileWorks := true;
    output := Untouched;
    if input.None? || !outputOpens {
      fileWorks := false;
    } else if sameFile {
      output := Written([]);
    } else {
      var written := TransformLines(input.value, shift);
      output := Written(written);
    }
  }
}
