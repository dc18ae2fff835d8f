/**
 The header pattern `^(.*)\((.*)\): (.*)$` that the first line of a commit
 message must match, for this one fixed pattern only.

 The specification side says what a match is (the line is
 `type + "(" + scope + "): " + subject`) and which match Go's leftmost-first
 regular expressions report when there are several (the longest `type`, then
 the longest `scope` for it). The computable side, `FindHeader`, finds that
 match by two backward searches, and the lemmas below prove that it returns
 exactly the preferred match, and nothing when there is no match at all.

 The first line never contains a newline, so `.` matches every byte of it.
 */
module Header {
  import opened Bytes
  import opened Options

  /** The three capture groups of a header: type, scope and subject. */
  datatype Header = Header(commitType: Bytes, scope: Bytes, subject: Bytes)

  /** The literal text between the scope and the subject. */
  const Closer: Bytes := [')', ':', ' ']

  /** The header line whose captures are `h`: `type(scope): subject`. */
  function Compose(h: Header): Bytes
  {
    h.commitType + ['('] + h.scope + Closer + h.subject
  }

  /** `line` matches the header pattern with capture groups `h`. */
  ghost predicate Matches(line: Bytes, h: Header)
  {
    line == Compose(h)
  }

  /** `line` matches the header pattern in at least one way. */
  ghost predicate HasMatch(line: Bytes)
  {
    exists h :: Matches(line, h)
  }

  /**
   The match a leftmost-first greedy matcher reports: `(.*)` for the type is
   tried longest first, then `(.*)` for the scope longest first; the subject
   is whatever remains.
   */
  ghost predicate Preferred(line: Bytes, h: Header)
  {
    && Matches(line, h)
    && forall h' | Matches(line, h') ::
         || |h'.commitType| < |h.commitType|
         || (|h'.commitType| == |h.commitType| && |h'.scope| <= |h.scope|)
  }

  /** The closer `): ` starts at position `j` of `line`. */
  predicate CloserAt(line: Bytes, j: nat)
  {
    j + 3 <= |line| && line[j] == ')' && line[j + 1] == ':' && line[j + 2] == ' '
  }

  /** The last position below `n` at which the closer starts, if any. */
  function LastCloser(line: Bytes, n: nat): (r: Option<nat>)
    requires n <= |line|
    ensures r.Some? ==> r.value < n && CloserAt(line, r.value)
    ensures forall j | (if r.Some? then r.value + 1 else 0) <= j < n :: !CloserAt(line, j)
  {
    if n == 0 then None
    else if CloserAt(line, n - 1) then Some(n - 1)
    else LastCloser(line, n - 1)
  }

  /** The last position below `n` holding an opening parenthesis, if any. */
  function LastOpen(line: Bytes, n: nat): (r: Option<nat>)
    requires n <= |line|
    ensures r.Some? ==> r.value < n && line[r.value] == '('
    ensures forall i | (if r.Some? then r.value + 1 else 0) <= i < n :: line[i] != '('
  {
    if n == 0 then None
    else if line[n - 1] == '(' then Some(n - 1)
    else LastOpen(line, n - 1)
  }

  /**
   The capture groups Go's `FindStringSubmatch` reports for the header
   pattern, or `None` when the line does not match. The longest type is the
   one ending at the last `(` that has a closer somewhere after it, which is
   the last `(` before the last closer; the longest scope for it then runs up
   to that last closer.
   */
  function FindHeader(line: Bytes): (r: Option<Header>)
    ensures r.Some? ==> Matches(line, r.value)
  {
    match LastCloser(line, |line|)
    case None => None
    case Some(j) =>
      match LastOpen(line, j)
      case None => None
      case Some(i) =>
        var h := Header(line[..i], line[i + 1..j], line[j + 3..]);
        assert line[i..j] == [line[i]] + line[i + 1..j];
        assert line[j..] == line[j..j + 3] + line[j + 3..];
        assert line[j..j + 3] == Closer;
        assert line == line[..i] + line[i..j] + line[j..];
        Some(h)
  }

  /** Where the pieces of a composed header sit in the line. */
  lemma ComposeLayout(h: Header)
    ensures var line, i, j := Compose(h), |h.commitType|, |h.commitType| + 1 + |h.scope|;
      && j + 3 <= |line|
      && line[i] == '('
      && CloserAt(line, j)
      && line[..i] == h.commitType
      && line[i + 1..j] == h.scope
      && line[j + 3..] == h.subject
  {
    var line, i, j := Compose(h), |h.commitType|, |h.commitType| + 1 + |h.scope|;
    assert line == h.commitType + (['('] + (h.scope + (Closer + h.subject)));
  }

  /** Two headers with the same line and the same type and scope lengths are the same. */
  lemma SameLayout(line: Bytes, h: Header, h': Header)
    requires Matches(line, h) && Matches(line, h')
    requires |h.commitType| == |h'.commitType| && |h.scope| == |h'.scope|
    ensures h == h'
  {
    ComposeLayout(h);
    ComposeLayout(h');
  }

  /** The line has a match exactly when `FindHeader` finds one. */
  lemma FindHeaderComplete(line: Bytes)
    ensures FindHeader(line).Some? <==> HasMatch(line)
  {
    if HasMatch(line) {
      var h' :| Matches(line, h');
      FindHeaderMaximal(line, h');
    }
  }

  /** No match of the line has a longer type, or the same type and a longer scope, than `FindHeader`'s. */
  lemma FindHeaderMaximal(line: Bytes, h': Header)
    requires Matches(line, h')
    ensures FindHeader(line).Some?
    ensures var h := FindHeader(line).value;
      || |h'.commitType| < |h.commitType|
      || (|h'.commitType| == |h.commitType| && |h'.scope| <= |h.scope|)
  {
    ComposeLayout(h');
    var i', j' := |h'.commitType|, |h'.commitType| + 1 + |h'.scope|;
    var rj := LastCloser(line, |line|);
    assert rj.Some? && j' <= rj.value;
    var ri := LastOpen(line, rj.value);
    assert ri.Some? && i' <= ri.value;
  }

  /** `FindHeader` returns exactly the match a leftmost-first greedy matcher prefers. */
  lemma FindHeaderPreferred(line: Bytes, h: Header)
    ensures FindHeader(line) == Some(h) <==> Preferred(line, h)
  {
    if FindHeader(line) == Some(h) {
      forall h' | Matches(line, h')
        ensures || |h'.commitType| < |h.commitType|
                || (|h'.commitType| == |h.commitType| && |h'.scope| <= |h.scope|)
      {
        FindHeaderMaximal(line, h');
      }
    }
    if Preferred(line, h) {
      FindHeaderMaximal(line, h);
      var f := FindHeader(line).value;
      assert Matches(line, f);
      SameLayout(line, h, f);
    }
  }

  /** A header whose scope has no `(` and whose subject has no `)` is found as composed. */
  lemma FindHeaderOf(h: Header)
    requires '(' !in h.scope
    requires ')' !in h.subject
    ensures FindHeader(Compose(h)) == Some(h)
  {
    var line := Compose(h);
    ComposeLayout(h);
    var i, j := |h.commitType|, |h.commitType| + 1 + |h.scope|;
    var rj := LastCloser(line, |line|);
    assert rj == Some(j) by {
      assert rj.Some? && j <= rj.value;
    }
    var ri := LastOpen(line, j);
    assert ri == Some(i) by {
      assert ri.Some? && i <= ri.value;
    }
  }
}
