/** The long description `readme()` in setup.py builds from README.rst: each
    line that starts with the `.. doctest` directive, which the package index
    does not render, becomes a `.. code-block:: python3` directive, and the
    lines are joined back into one string. The file read is not modelled;
    the input is the list `readlines()` returned. */
module ReadmeRewrite {

  const DoctestPrefix: string := ".. doctest"

  /** The replacement line, newline included. */
  const CodeBlock: string := ".. code-block:: python3\n"

  /** Python's `str.startswith`. */
  predicate StartsWith(s: string, prefix: string) {
    |prefix| <= |s| && s[..|prefix|] == prefix
  }

  /** The body of the loop in `readme()`, for one line. */
  function RewriteLine(line: string): string {
    if StartsWith(line, DoctestPrefix) then CodeBlock else line
  }

  /** `''.join(lines)`: no lines join to the empty string and a single line
      to itself; the result begins with the first line and is at least as
      long as every line. `JoinAppend` and `JoinConcat` pin it down. */
  function Join(lines: seq<string>): (r: string)
    ensures lines == [] ==> r == ""
    ensures |lines| == 1 ==> r == lines[0]
    ensures lines != [] ==> StartsWith(r, lines[0])
    ensures forall i :: 0 <= i < |lines| ==> |lines[i]| <= |r|
    decreases |lines|
  {
    if lines == [] then "" else lines[0] + Join(lines[1..])
  }

  /** The list `lines_out` the loop builds. */
  function RewriteLines(lines: seq<string>): (out: seq<string>)
    ensures |out| == |lines|
    ensures forall i :: 0 <= i < |lines| && StartsWith(lines[i], DoctestPrefix) ==> out[i] == CodeBlock
    ensures forall i :: 0 <= i < |lines| && !StartsWith(lines[i], DoctestPrefix) ==> out[i] == lines[i]
  {
    seq(|lines|, i requires 0 <= i < |lines| => RewriteLine(lines[i]))
  }

  /** What `readme()` returns for the lines of README.rst: an empty file
      gives the empty string, a single line comes back rewritten, and a file
      without `.. doctest` lines comes back as the plain concatenation. */
  function Readme(lines: seq<string>): (text: string)
    ensures lines == [] ==> text == ""
    ensures |lines| == 1 && StartsWith(lines[0], DoctestPrefix) ==> text == CodeBlock
    ensures |lines| == 1 && !StartsWith(lines[0], DoctestPrefix) ==> text == lines[0]
    ensures (forall i :: 0 <= i < |lines| ==> !StartsWith(lines[i], DoctestPrefix)) ==> text == Join(lines)
  {
    assert (forall i :: 0 <= i < |lines| ==> !StartsWith(lines[i], DoctestPrefix)) ==> RewriteLines(lines) == lines;
    Join(RewriteLines(lines))
  }

  /** The replacement does not itself start with `.. doctest`. */
  lemma CodeBlockIsNotDoctest()
    ensures !StartsWith(CodeBlock, DoctestPrefix)
  {
    assert CodeBlock[3] == 'c' && DoctestPrefix[3] == 'd';
    assert CodeBlock[..|DoctestPrefix|][3] != DoctestPrefix[3];
  }

  /** Joining a list with one more line appends that line. */
  lemma {:induction false} JoinAppend(lines: seq<string>, line: string)
    ensures Join(lines + [line]) == Join(lines) + line
    decreases |lines|
  {
    if lines == [] {
      assert [] + [line] == [line];
    } else {
      assert (lines + [line])[1..] == lines[1..] + [line];
      JoinAppend(lines[1..], line);
    }
  }

  /** Joining concatenated lists concatenates the joins. */
  lemma {:induction false} JoinConcat(a: seq<string>, b: seq<string>)
    ensures Join(a + b) == Join(a) + Join(b)
    decreases |a|
  {
    if a == [] {
      assert [] + b == b;
    } else {
      assert (a + b)[1..] == a[1..] + b;
      JoinConcat(a[1..], b);
    }
  }

  /** The loop of `readme()` followed by the join: one output line per input
      line in the same order, each `.. doctest` line replaced by exactly the
      code-block directive, every other line copied, and the result their
      concatenation. */
  method RewriteReadme(readmeLines: seq<string>) returns (linesOut: seq<string>, text: string)
    ensures |linesOut| == |readmeLines|
    ensures forall i :: 0 <= i < |readmeLines| && StartsWith(readmeLines[i], DoctestPrefix) ==>
      linesOut[i] == CodeBlock
    ensures forall i :: 0 <= i < |readmeLines| && !StartsWith(readmeLines[i], DoctestPrefix) ==>
      linesOut[i] == readmeLines[i]
    ensures forall i :: 0 <= i < |linesOut| ==> !StartsWith(linesOut[i], DoctestPrefix)
    ensures text == Join(linesOut)
    ensures text == Readme(readmeLines)
  {
    CodeBlockIsNotDoctest();
    linesOut := [];
    var k := 0;
    while k < |readmeLines|
      invariant 0 <= k <= |readmeLines|
      invariant |linesOut| == k
      invariant forall i :: 0 <= i < k ==> linesOut[i] == RewriteLine(readmeLines[i])
      invariant forall i :: 0 <= i < k ==> !StartsWith(linesOut[i], DoctestPrefix)
    {
      var line := readmeLines[k];
      if StartsWith(line, DoctestPrefix) {
        linesOut := linesOut + [CodeBlock];
      } else {
        linesOut := linesOut + [line];
      }
      k := k + 1;
    }
    assert linesOut == RewriteLines(readmeLines);
    text := JoinLines(linesOut);
  }

  /** `''.join(lines)` as a left-to-right accumulation. */
  method JoinLines(lines: seq<string>) returns (text: string)
    ensures text == Join(lines)
  {
    text := "";
    var j := 0;
    while j < |lines|
      invariant 0 <= j <= |lines|
      invariant text == Join(lines[..j])
    {
      JoinAppend(lines[..j], lines[j]);
      assert lines[..j + 1] == lines[..j] + [lines[j]];
      text := text + lines[j];
      j := j + 1;
    }
    assert lines[..j] == lines;
  }

  /** A README without `.. doctest` lines comes out as the plain
      concatenation of its lines. */
  lemma NoDoctestUnchanged(lines: seq<string>)
    requires forall i :: 0 <= i < |lines| ==> !StartsWith(lines[i], DoctestPrefix)
    ensures RewriteLines(lines) == lines
    ensures Readme(lines) == Join(lines)
  {
  }

  /** Rewriting the rewritten lines changes nothing. */
  lemma RewriteIdempotent(lines: seq<string>)
    ensures RewriteLines(RewriteLines(lines)) == RewriteLines(lines)
    ensures Readme(RewriteLines(lines)) == Readme(lines)
  {
    CodeBlockIsNotDoctest();
  }

  /** The rewrite works line by line: the description of two consecutive
      parts of the file is the two descriptions concatenated. */
  lemma ReadmeConcat(a: seq<string>, b: seq<string>)
    ensures Readme(a + b) == Readme(a) + Readme(b)
  {
    assert RewriteLines(a + b) == RewriteLines(a) + RewriteLines(b);
    JoinConcat(RewriteLines(a), RewriteLines(b));
  }
}
