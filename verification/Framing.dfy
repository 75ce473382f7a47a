/** The byte-level vocabulary of the line-framed management protocol: what a
    list of lines looks like on the wire, and how a wire prefix determines the
    lines it carries. */
module Framing {

  // CARRIAGE_RETURN in ic_base_header.h is character 10.
  const CR: char := '\n'

  predicate IsLine(s: string) {
    CR !in s
  }

  predicate AllLines(lines: seq<string>) {
    forall i :: 0 <= i < |lines| ==> IsLine(lines[i])
  }

  /** The wire image of a list of lines: each line followed by its CR. */
  function Frame(lines: seq<string>): string {
    if lines == [] then "" else lines[0] + [CR] + Frame(lines[1..])
  }

  /** Position of the first CR, or the length of `s` when there is none. */
  function FirstCR(s: string): (i: nat)
    ensures i <= |s|
    ensures CR !in s[..i]
    ensures i < |s| ==> s[i] == CR
    ensures i < |s| <==> CR in s
  {
    if s == "" then 0
    else if s[0] == CR then 0
    else
      var i := 1 + FirstCR(s[1..]);
      assert s[..i] == [s[0]] + s[1..][..i - 1];
      assert s == [s[0]] + s[1..];
      i
  }

  /** The CR position is determined by the shape `line + CR + rest`. */
  lemma FirstCRUnique(line: string, rest: string)
    requires IsLine(line)
    ensures FirstCR(line + [CR] + rest) == |line|
  {
    var s := line + [CR] + rest;
    var i := FirstCR(s);
    assert forall k :: 0 <= k < |line| ==> s[k] == line[k];
    assert s[|line|] == CR;
    assert forall k :: 0 <= k < i ==> s[..i][k] == s[k];
  }

  lemma {:induction false} FrameConcat(a: seq<string>, b: seq<string>)
    ensures Frame(a + b) == Frame(a) + Frame(b)
  {
    if a == [] {
      assert a + b == b;
    } else {
      assert (a + b)[1..] == a[1..] + b;
      FrameConcat(a[1..], b);
    }
  }

  lemma FrameSnoc(lines: seq<string>, line: string)
    ensures Frame(lines + [line]) == Frame(lines) + line + [CR]
  {
    FrameConcat(lines, [line]);
    assert Frame([line]) == line + [CR];
  }

  /** A prefix of a framed stream that shows a CR shows the whole first line,
      and what follows it is a prefix of the remaining lines' frame. */
  lemma FirstLineOfPrefix(p: string, lines: seq<string>)
    requires AllLines(lines) && p <= Frame(lines) && CR in p
    ensures lines != []
    ensures p[..FirstCR(p)] == lines[0]
    ensures p[FirstCR(p) + 1..] <= Frame(lines[1..])
  {
    hide FirstCR;
    var rest := Frame(lines[1..]);
    var whole := lines[0] + [CR] + rest;
    assert Frame(lines) == whole;
    hide Frame;
    var n := |lines[0]|;
    FirstCRUnique(lines[0], rest);
    FirstCRPrefix(p, whole);
    assert n < |p| && p[..n] == lines[0];
    assert p[n + 1..] == rest[..|p| - n - 1];
  }

  lemma FirstCRPrefix(p: string, s: string)
    requires p <= s && CR in p
    ensures FirstCR(s) == FirstCR(p)
  {
    var i := FirstCR(p);
    var j := FirstCR(s);
    assert s[i] == p[i] == CR;
    assert forall k :: 0 <= k < j ==> s[..j][k] == s[k];
    assert forall k :: 0 <= k < i ==> p[..i][k] == s[k];
  }

  /** A frame determines its lines. */
  lemma {:induction false} FrameInjective(a: seq<string>, b: seq<string>)
    requires AllLines(a) && AllLines(b) && Frame(a) == Frame(b)
    ensures a == b
  {
    if a == [] || b == [] {
      assert a != [] <==> |Frame(a)| > 0;
      assert b != [] <==> |Frame(b)| > 0;
    } else {
      var s := Frame(a);
      FirstCRUnique(a[0], Frame(a[1..]));
      FirstCRUnique(b[0], Frame(b[1..]));
      assert a[0] == s[..|a[0]|] == b[0];
      assert Frame(a[1..]) == s[|a[0]| + 1..] == Frame(b[1..]);
      FrameInjective(a[1..], b[1..]);
      assert a == [a[0]] + a[1..] && b == [b[0]] + b[1..];
    }
  }
}
