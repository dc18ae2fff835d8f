/**
 Line splitting with the semantics of Go's `strings.Split(s, "\n")`, as the
 validator uses it on the commit message: every newline separates two lines,
 the result always has at least one element, and a trailing newline yields a
 trailing empty line.
 */
module Lines {
  import opened Bytes
  import opened Options

  const Newline: Byte := '\n'

  /** The index of the first occurrence of `b` in `s` at or after `from`, if any. */
  function IndexFrom(s: Bytes, b: Byte, from: nat): (r: Option<nat>)
    requires from <= |s|
    ensures r.Some? ==> from <= r.value < |s| && s[r.value] == b
    ensures forall k | from <= k < (if r.Some? then r.value else |s|) :: s[k] != b
    decreases |s| - from
  {
    if from == |s| then None
    else if s[from] == b then Some(from)
    else IndexFrom(s, b, from + 1)
  }

  /** The index of the first occurrence of `b` in `s`, if any. */
  function IndexOf(s: Bytes, b: Byte): (r: Option<nat>)
    ensures r.None? <==> b !in s
    ensures r.Some? ==> r.value < |s| && s[r.value] == b && b !in s[..r.value]
  {
    IndexFrom(s, b, 0)
  }

  /** Go's `strings.Join(lines, "\n")`. */
  function Join(lines: seq<Bytes>): Bytes
  {
    if |lines| == 0 then []
    else if |lines| == 1 then lines[0]
    else lines[0] + [Newline] + Join(lines[1..])
  }

  /** No line of `lines` contains a newline. */
  ghost predicate NewlineFree(lines: seq<Bytes>)
  {
    forall k | 0 <= k < |lines| :: Newline !in lines[k]
  }

  /**
   Go's `strings.Split(s, "\n")`: the pieces of `s` between newlines. There
   is always at least one, and none contains a newline, so a header match is
   only ever attempted on a line without one.
   */
  function Split(s: Bytes): (lines: seq<Bytes>)
    ensures |lines| >= 1
    ensures NewlineFree(lines)
    decreases |s|
  {
    match IndexOf(s, Newline)
    case None => [s]
    case Some(i) => [s[..i]] + Split(s[i + 1..])
  }

  /** Joining the lines back with newlines gives the message: splitting loses nothing. */
  lemma {:induction false} JoinSplit(s: Bytes)
    ensures Join(Split(s)) == s
    decreases |s|
  {
    match IndexOf(s, Newline)
    case None =>
    case Some(i) =>
      var rest := Split(s[i + 1..]);
      JoinSplit(s[i + 1..]);
      assert s == s[..i] + [Newline] + s[i + 1..];
      assert ([s[..i]] + rest)[1..] == rest;
  }

  /** The other direction: splitting a join of newline-free lines gives the lines back. */
  lemma {:induction false} SplitJoin(lines: seq<Bytes>)
    requires |lines| >= 1
    requires NewlineFree(lines)
    ensures Split(Join(lines)) == lines
    decreases |lines|
  {
    if |lines| == 1 {
      assert Newline !in lines[0];
    } else {
      var s := Join(lines);
      var rest := lines[1..];
      assert NewlineFree(rest) by {
        forall k | 0 <= k < |rest| ensures Newline !in rest[k] {
          assert rest[k] == lines[k + 1];
        }
      }
      SplitJoin(rest);
      SplitAfterLine(lines[0], Join(rest));
      assert lines == [lines[0]] + rest;
    }
  }

  /** Splitting a newline-free string gives that string as the only line. */
  lemma SplitOneLine(s: Bytes)
    requires Newline !in s
    ensures Split(s) == [s]
  {
  }

  /** A newline-free line followed by a newline splits off as the first line. */
  lemma SplitAfterLine(first: Bytes, rest: Bytes)
    requires Newline !in first
    ensures Split(first + [Newline] + rest) == [first] + Split(rest)
  {
    var s := first + [Newline] + rest;
    assert s[|first|] == Newline;
    assert s[..|first|] == first;
    var r := IndexOf(s, Newline);
    assert r.Some? && r.value <= |first|;
    assert s[|first| + 1..] == rest;
  }

  /** A newline-free line, a blank line and one more newline-free line split as written. */
  lemma SplitBlankThen(first: Bytes, body: Bytes)
    requires Newline !in first && Newline !in body
    ensures Split(first + "\n\n" + body) == [first, [], body]
  {
    var rest := [Newline] + body;
    assert "\n\n" == [Newline, Newline];
    assert first + "\n\n" + body == first + [Newline] + rest;
    SplitAfterLine(first, rest);
    SplitAfterLine([], body);
    SplitOneLine(body);
  }
}
