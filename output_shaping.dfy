/** How both handlers turn the logs of a run into the `output` text of a
    successful response: stdout lines first, in order, then every stderr
    line behind the "STDERR: " marker, joined by newlines; a run with no
    lines at all gets a fixed message instead. */
module OutputShaping {
  import opened Api

  const StderrPrefix := "STDERR: "
  const NoOutputMessage := "Code executed successfully (no output)"

  /** The stderr lines as they enter the output. */
  function Prefixed(lines: seq<string>): (r: seq<string>)
    ensures |r| == |lines|
    ensures forall i :: 0 <= i < |lines| ==> r[i] == StderrPrefix + lines[i]
  {
    if lines == [] then [] else [StderrPrefix + lines[0]] + Prefixed(lines[1..])
  }

  predicate Marked(line: string)
  {
    |StderrPrefix| <= |line| && line[..|StderrPrefix|] == StderrPrefix
  }

  /** Takes the marker off every line: the inverse of Prefixed. */
  function Unprefixed(lines: seq<string>): seq<string>
    requires forall i :: 0 <= i < |lines| ==> Marked(lines[i])
  {
    if lines == [] then []
    else
      assert Marked(lines[0]);
      [lines[0][|StderrPrefix|..]] + Unprefixed(lines[1..])
  }

  /** Marking stderr lines loses nothing: the original lines come back. */
  lemma {:induction false} UnprefixedPrefixed(lines: seq<string>)
    ensures forall i :: 0 <= i < |Prefixed(lines)| ==> Marked(Prefixed(lines)[i])
    ensures Unprefixed(Prefixed(lines)) == lines
  {
    if lines != [] {
      UnprefixedPrefixed(lines[1..]);
      assert Prefixed(lines)[1..] == Prefixed(lines[1..]);
      assert (StderrPrefix + lines[0])[|StderrPrefix|..] == lines[0];
    }
  }

  /** The lines of the output before joining: all of stdout unchanged and
      in order, then exactly the stderr lines, each marked. */
  function OutputLines(logs: Logs): (r: seq<string>)
    ensures |r| == |logs.stdout| + |logs.stderr|
    ensures r[..|logs.stdout|] == logs.stdout
    ensures forall j :: |logs.stdout| <= j < |r| ==> Marked(r[j])
    ensures Unprefixed(r[|logs.stdout|..]) == logs.stderr
  {
    var r := logs.stdout + Prefixed(logs.stderr);
    assert r[|logs.stdout|..] == Prefixed(logs.stderr);
    UnprefixedPrefixed(logs.stderr);
    r
  }

  /** Python's `"\n".join(lines)`. */
  function JoinLines(lines: seq<string>): string
  {
    if |lines| == 0 then ""
    else if |lines| == 1 then lines[0]
    else lines[0] + "\n" + JoinLines(lines[1..])
  }

  /** Joining two non-empty runs of lines is joining each and putting one
      newline between them, whatever the lines hold. */
  lemma {:induction false} JoinAppend(a: seq<string>, b: seq<string>)
    requires |a| > 0 && |b| > 0
    ensures JoinLines(a + b) == JoinLines(a) + "\n" + JoinLines(b)
  {
    if |a| == 1 {
      assert (a + b)[1..] == b;
    } else {
      JoinAppend(a[1..], b);
      assert (a + b)[1..] == a[1..] + b;
    }
  }

  /** Python's `s.split("\n")`: the inverse of JoinLines on lines without
      newlines. It always yields at least one piece. */
  function SplitLines(s: string): (r: seq<string>)
    ensures |r| >= 1
  {
    if s == [] then [""]
    else
      var rest := SplitLines(s[1..]);
      if s[0] == '\n' then [""] + rest else [[s[0]] + rest[0]] + rest[1..]
  }

  predicate NewlineFree(lines: seq<string>)
  {
    forall i :: 0 <= i < |lines| ==> '\n' !in lines[i]
  }

  lemma {:induction false} SplitOneLine(a: string)
    requires '\n' !in a
    ensures SplitLines(a) == [a]
  {
    if a != [] {
      SplitOneLine(a[1..]);
      assert [a[0]] + a[1..] == a;
    }
  }

  lemma {:induction false} SplitAfterLine(a: string, b: string)
    requires '\n' !in a
    ensures SplitLines(a + "\n" + b) == [a] + SplitLines(b)
  {
    if a == [] {
      assert a + "\n" + b == "\n" + b;
      assert ("\n" + b)[1..] == b;
    } else {
      SplitAfterLine(a[1..], b);
      assert (a + "\n" + b)[1..] == a[1..] + "\n" + b;
      assert [a[0]] + a[1..] == a;
    }
  }

  /** Joining and then splitting gives the lines back, so the joined text
      keeps every line and their order. */
  lemma {:induction false} SplitJoinLines(lines: seq<string>)
    requires |lines| >= 1 && NewlineFree(lines)
    ensures SplitLines(JoinLines(lines)) == lines
  {
    if |lines| == 1 {
      SplitOneLine(lines[0]);
    } else {
      SplitJoinLines(lines[1..]);
      SplitAfterLine(lines[0], JoinLines(lines[1..]));
      assert [lines[0]] + lines[1..] == lines;
    }
  }

  /** The `output` text of a successful run, before any template suffix. */
  function ShapeOutput(logs: Logs): (r: string)
    ensures |logs.stdout| + |logs.stderr| == 0 ==> r == NoOutputMessage
    ensures |logs.stdout| > 0 ==> logs.stdout[0] <= r
    ensures |logs.stdout| == 0 && |logs.stderr| > 0 ==> StderrPrefix + logs.stderr[0] <= r
  {
    var lines := OutputLines(logs);
    if |lines| == 0 then NoOutputMessage
    else
      assert lines[0] == if |logs.stdout| > 0 then logs.stdout[0] else StderrPrefix + logs.stderr[0];
      JoinLines(lines)
  }

  /** When no captured line holds a newline, the output splits back into
      exactly the stdout lines followed by the marked stderr lines. */
  lemma ShapeOutputLines(logs: Logs)
    requires |logs.stdout| + |logs.stderr| > 0
    requires NewlineFree(logs.stdout) && NewlineFree(logs.stderr)
    ensures SplitLines(ShapeOutput(logs)) == logs.stdout + Prefixed(logs.stderr)
  {
    var lines := logs.stdout + Prefixed(logs.stderr);
    assert lines == OutputLines(logs);
    forall i | 0 <= i < |lines|
      ensures '\n' !in lines[i]
    {
      if i >= |logs.stdout| {
        var s := logs.stderr[i - |logs.stdout|];
        assert lines[i] == StderrPrefix + s;
        assert '\n' !in StderrPrefix;
      }
    }
    SplitJoinLines(lines);
  }

  /** For any logs, the output is the joined stdout lines, then one newline,
      then the joined marked stderr lines; either part stands alone when the
      other stream is empty. */
  lemma ShapeOutputParts(logs: Logs)
    ensures |logs.stdout| > 0 && |logs.stderr| > 0 ==>
      ShapeOutput(logs) == JoinLines(logs.stdout) + "\n" + JoinLines(Prefixed(logs.stderr))
    ensures |logs.stdout| > 0 && |logs.stderr| == 0 ==> ShapeOutput(logs) == JoinLines(logs.stdout)
    ensures |logs.stdout| == 0 && |logs.stderr| > 0 ==> ShapeOutput(logs) == JoinLines(Prefixed(logs.stderr))
  {
    var lines := OutputLines(logs);
    assert lines == logs.stdout + Prefixed(logs.stderr);
    if |logs.stdout| > 0 && |logs.stderr| > 0 {
      JoinAppend(logs.stdout, Prefixed(logs.stderr));
    } else if |logs.stderr| == 0 {
      assert lines == logs.stdout;
    } else {
      assert lines == Prefixed(logs.stderr);
    }
  }
}
