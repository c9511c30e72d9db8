/**
 The text written to the output file (gif_to_hex.py, line 53):
 `'\n'.join(lines)`, with a newline between consecutive lines and none
 after the last. `Split` is the reading side: it cuts a text at every
 newline, as a line-oriented loader does.
 */
module Text {

  predicate NoNewline(s: string)
  {
    forall i :: 0 <= i < |s| ==> s[i] != '\n'
  }

  predicate AllNoNewline(lines: seq<string>)
  {
    forall k :: 0 <= k < |lines| ==> NoNewline(lines[k])
  }

  /**
   Line 53: `'\n'.join(lines)`. Nothing for no lines; otherwise exactly one
   newline between consecutive newline-free lines, and no trailing newline:
   the text ends with the last line itself.
   */
  function Join(lines: seq<string>): (s: string)
    ensures |lines| == 0 ==> s == ""
    ensures |lines| >= 1 && AllNoNewline(lines) ==> Count(s, '\n') == |lines| - 1
    ensures |lines| >= 1 ==> |s| >= |lines[|lines| - 1]|
    ensures |lines| >= 1 ==> s[|s| - |lines[|lines| - 1]|..] == lines[|lines| - 1]
    decreases |lines|
  {
    if |lines| == 0 then ""
    else
      CountNone(lines[0]);
      if |lines| == 1 then lines[0]
      else
        var rest := Join(lines[1..]);
        CountAppend(lines[0], "\n", '\n');
        CountAppend(lines[0] + "\n", rest, '\n');
        lines[0] + "\n" + rest
  }

  /** `s.split('\n')`: the pieces between newlines; an empty text is one empty piece. */
  function Split(s: string): (pieces: seq<string>)
    ensures |pieces| >= 1
  {
    if |s| == 0 then [""]
    else
      var rest := Split(s[1..]);
      if s[0] == '\n' then [""] + rest
      else [[s[0]] + rest[0]] + rest[1..]
  }

  /** The number of occurrences of c in s. */
  function Count(s: string, c: char): nat
  {
    if |s| == 0 then 0 else (if s[0] == c then 1 else 0) + Count(s[1..], c)
  }

  lemma {:induction false} CountAppend(a: string, b: string, c: char)
    ensures Count(a + b, c) == Count(a, c) + Count(b, c)
    decreases |a|
  {
    if |a| > 0 {
      assert (a + b)[1..] == a[1..] + b;
      CountAppend(a[1..], b, c);
    } else {
      assert a + b == b;
    }
  }

  lemma {:induction false} CountNone(s: string)
    ensures NoNewline(s) ==> Count(s, '\n') == 0
    decreases |s|
  {
    if |s| > 0 && NoNewline(s) {
      CountNone(s[1..]);
    }
  }

  /** A piece without newlines is glued onto the first piece of whatever follows it. */
  lemma {:induction false} SplitPrefix(w: string, t: string)
    requires NoNewline(w)
    ensures Split(w + t) == [w + Split(t)[0]] + Split(t)[1..]
    decreases |w|
  {
    if |w| > 0 {
      assert (w + t)[1..] == w[1..] + t;
      SplitPrefix(w[1..], t);
      assert [w[0]] + (w[1..] + Split(t)[0]) == w + Split(t)[0];
    } else {
      var p := Split(t);
      assert w + t == t;
      assert w + p[0] == p[0];
      assert [p[0]] + p[1..] == p;
    }
  }

  /** Reading the written text back line by line gives exactly the lines, when there is at least one. */
  lemma {:induction false} SplitJoin(lines: seq<string>)
    requires |lines| >= 1 && AllNoNewline(lines)
    ensures Split(Join(lines)) == lines
    decreases |lines|
  {
    if |lines| == 1 {
      SplitPrefix(lines[0], "");
      assert lines[0] + "" == lines[0];
    } else {
      var rest := Join(lines[1..]);
      SplitJoin(lines[1..]);
      assert lines[0] + "\n" + rest == lines[0] + ("\n" + rest);
      SplitPrefix(lines[0], "\n" + rest);
      assert ("\n" + rest)[1..] == rest;
      assert Split("\n" + rest) == [""] + lines[1..];
      assert lines[0] + "" == lines[0];
      assert lines == [lines[0]] + lines[1..];
    }
  }

  /** With lines of a common width w, the text is w characters per line plus the separators. */
  lemma {:induction false} JoinLength(lines: seq<string>, w: nat)
    requires |lines| >= 1
    requires forall k :: 0 <= k < |lines| ==> |lines[k]| == w
    ensures |Join(lines)| == (w + 1) * |lines| - 1
    decreases |lines|
  {
    if |lines| > 1 {
      var rest := lines[1..];
      forall k | 0 <= k < |rest| ensures |rest[k]| == w {
        assert rest[k] == lines[k + 1];
      }
      JoinLength(rest, w);
      JoinLengthStep(lines);
      MulSucc(w + 1, |rest|);
    }
  }

  /** Joining two or more lines adds the first line and one separator to the join of the rest. */
  lemma JoinLengthStep(lines: seq<string>)
    requires |lines| >= 2
    ensures |Join(lines)| == |lines[0]| + 1 + |Join(lines[1..])|
  {
    assert Join(lines) == lines[0] + "\n" + Join(lines[1..]);
  }

  lemma MulSucc(a: nat, n: nat)
    ensures a * (n + 1) == a + a * n
  {
  }
}
