/**
 * The two pieces of Python string handling that generate_pdf relies on:
 * `str.split("\n")`, which cuts the input into lines (empty pieces kept),
 * and `str.startswith`, which classifies a line by its prefix.
 */
module Lines {

  const Newline: char := '\n'

  /** Python's `s.startswith(p)`. */
  predicate StartsWith(s: string, p: string) {
    |p| <= |s| && s[..|p|] == p
  }

  /**
   * Python's `s.split("\n")`: the text between consecutive newlines, in
   * order. The empty string splits into one empty line, and a trailing
   * newline leaves an empty last line.
   */
  function Split(s: string): (lines: seq<string>)
    ensures |lines| >= 1
    ensures forall i :: 0 <= i < |lines| ==> Newline !in lines[i]
    decreases |s|
  {
    if s == [] then [""]
    else
      var rest := Split(s[1..]);
      if s[0] == Newline then [""] + rest
      else [[s[0]] + rest[0]] + rest[1..]
  }

  /** Python's `"\n".join(parts)`: the inverse of Split. */
  function Join(parts: seq<string>): string
    decreases |parts|
  {
    if |parts| == 0 then ""
    else if |parts| == 1 then parts[0]
    else parts[0] + [Newline] + Join(parts[1..])
  }

  /** Number of newline characters in `s`. */
  function NewlineCount(s: string): nat
    decreases |s|
  {
    if s == [] then 0
    else (if s[0] == Newline then 1 else 0) + NewlineCount(s[1..])
  }

  /** Splitting loses no character: joining the lines back gives the input. */
  lemma {:induction false} JoinSplit(s: string)
    ensures Join(Split(s)) == s
    decreases |s|
  {
    if s != [] {
      var rest := Split(s[1..]);
      JoinSplit(s[1..]);
      if s[0] == Newline {
        assert Split(s) == [""] + rest;
        assert Join([""] + rest) == "" + [Newline] + Join(rest) by {
          assert ([""] + rest)[1..] == rest;
        }
      } else {
        var first := [s[0]] + rest[0];
        assert Split(s) == [first] + rest[1..];
        if |rest| == 1 {
          assert Join([first]) == [s[0]] + Join(rest);
        } else {
          assert ([first] + rest[1..])[1..] == rest[1..];
          assert Join([first] + rest[1..]) == first + [Newline] + Join(rest[1..]);
          assert Join(rest) == rest[0] + [Newline] + Join(rest[1..]);
        }
      }
    }
  }

  /** There is one line more than there are newlines. */
  lemma {:induction false} SplitCount(s: string)
    ensures |Split(s)| == NewlineCount(s) + 1
    decreases |s|
  {
    if s != [] {
      SplitCount(s[1..]);
    }
  }

  /** Text without a newline is a single line. */
  lemma {:induction false} SplitSingle(s: string)
    requires Newline !in s
    ensures Split(s) == [s]
    decreases |s|
  {
    if s != [] {
      assert Newline !in s[1..];
      SplitSingle(s[1..]);
      assert [s[0]] + s[1..] == s;
    }
  }

  /** A newline-free line followed by a newline is cut off as the first line. */
  lemma {:induction false} SplitAfterLine(p: string, t: string)
    requires Newline !in p
    ensures Split(p + [Newline] + t) == [p] + Split(t)
    decreases |p|
  {
    if p == [] {
      assert [] + [Newline] + t == [Newline] + t;
      assert ([Newline] + t)[1..] == t;
    } else {
      var s := p + [Newline] + t;
      assert s[1..] == p[1..] + [Newline] + t;
      assert Newline !in p[1..];
      SplitAfterLine(p[1..], t);
      assert [p[0]] + p[1..] == p;
    }
  }

  /** Lines without newlines survive a join followed by a split. */
  lemma {:induction false} SplitJoin(parts: seq<string>)
    requires |parts| >= 1
    requires forall i :: 0 <= i < |parts| ==> Newline !in parts[i]
    ensures Split(Join(parts)) == parts
    decreases |parts|
  {
    if |parts| == 1 {
      SplitSingle(parts[0]);
    } else {
      SplitJoin(parts[1..]);
      SplitAfterLine(parts[0], Join(parts[1..]));
      assert [parts[0]] + parts[1..] == parts;
    }
  }
}
