/**
 What each verdict of the validator means, stated without reference to the
 order of the checks' code: one lemma per error verdict says exactly which
 messages receive it, and `Acceptable` is the conjunction of conditions a
 message passes exactly when the validator accepts it. The empty message,
 the one verdict without such a lemma, is characterised by the contract of
 `Validate`.
 */
module Acceptance {
  import opened Bytes
  import opened Options
  import opened Lines
  import opened Header
  import opened Validator

  /** The header line has its preferred match, with an acceptable subject and an accepted type. */
  ghost predicate HeaderAccepted(cfg: Config, line: Bytes)
  {
    exists h ::
      && Preferred(line, h)
      && !StartsWithCapital(h.subject)
      && !EndsWithDot(h.subject)
      && h.commitType in cfg.commitTypes
  }

  /** Either the message is one line, or its second line is empty. */
  ghost predicate SeparatorOk(lines: seq<Bytes>)
  {
    |lines| == 1 || (|lines| > 1 && lines[1] == [])
  }

  /** No line after the header is overlong. */
  ghost predicate BodyOk(cfg: Config, lines: seq<Bytes>)
  {
    forall k | 1 <= k < |lines| :: !Overlong(cfg.otherLineLimit, lines[k])
  }

  /** Line `k` is the first overlong line after the header. */
  ghost predicate FirstOverlongAt(cfg: Config, lines: seq<Bytes>, k: nat)
  {
    && 1 <= k < |lines|
    && Overlong(cfg.otherLineLimit, lines[k])
    && forall m | 1 <= m < k :: !Overlong(cfg.otherLineLimit, lines[m])
  }

  /** Everything the guidelines demand of a commit message. */
  ghost predicate Acceptable(cfg: Config, message: Bytes)
  {
    && |message| > 0
    && var lines := Split(message);
    && HeaderAccepted(cfg, lines[0])
    && SeparatorOk(lines)
    && BodyOk(cfg, lines)
    && |lines[0]| <= cfg.firstLineLimit
  }

  /** The preferred match of a line is the one `FindHeader` returns, whichever way that goes. */
  lemma PreferredIsFound(line: Bytes)
    ensures forall h :: Preferred(line, h) <==> FindHeader(line) == Some(h)
  {
    forall h ensures Preferred(line, h) <==> FindHeader(line) == Some(h) {
      FindHeaderPreferred(line, h);
    }
  }

  /** On the lines of a message: the header is malformed exactly when the first line has no match. */
  lemma MalformedLines(cfg: Config, lines: seq<Bytes>)
    requires |lines| >= 1
    ensures ValidateLines(cfg, lines) == MalformedHeader <==> !HasMatch(lines[0])
  {
    FindHeaderComplete(lines[0]);
  }

  /** The header is rejected as malformed exactly when the first line has no match at all. */
  lemma MalformedExactly(cfg: Config, message: Bytes)
    ensures Validate(cfg, message) == MalformedHeader <==>
      |message| > 0 && !HasMatch(Split(message)[0])
  {
    if |message| > 0 {
      MalformedLines(cfg, Split(message));
    }
  }

  /** On the lines of a message: when a capitalized subject is reported. */
  lemma CapitalizedLines(cfg: Config, lines: seq<Bytes>, subject: Bytes)
    requires |lines| >= 1
    ensures ValidateLines(cfg, lines) == CapitalizedSubject(subject) <==>
      && StartsWithCapital(subject)
      && exists h :: Preferred(lines[0], h) && h.subject == subject
  {
    PreferredIsFound(lines[0]);
  }

  /** A capitalized subject is reported, with that subject, exactly when the preferred match has one. */
  lemma CapitalizedExactly(cfg: Config, message: Bytes, subject: Bytes)
    ensures Validate(cfg, message) == CapitalizedSubject(subject) <==>
      && |message| > 0
      && StartsWithCapital(subject)
      && exists h :: Preferred(Split(message)[0], h) && h.subject == subject
  {
    if |message| > 0 {
      CapitalizedLines(cfg, Split(message), subject);
    }
  }

  /** On the lines of a message: when a trailing dot is reported. */
  lemma TrailingDotLines(cfg: Config, lines: seq<Bytes>, subject: Bytes)
    requires |lines| >= 1
    ensures ValidateLines(cfg, lines) == TrailingDot(subject) <==>
      && !StartsWithCapital(subject)
      && EndsWithDot(subject)
      && exists h :: Preferred(lines[0], h) && h.subject == subject
  {
    PreferredIsFound(lines[0]);
  }

  /** A trailing dot is reported exactly when the preferred subject ends with one and is not capitalized. */
  lemma TrailingDotExactly(cfg: Config, message: Bytes, subject: Bytes)
    ensures Validate(cfg, message) == TrailingDot(subject) <==>
      && |message| > 0
      && !StartsWithCapital(subject)
      && EndsWithDot(subject)
      && exists h :: Preferred(Split(message)[0], h) && h.subject == subject
  {
    if |message| > 0 {
      TrailingDotLines(cfg, Split(message), subject);
    }
  }

  /** On the lines of a message: when an unknown type is reported. */
  lemma UnknownTypeLines(cfg: Config, lines: seq<Bytes>, t: Bytes, allowed: seq<Bytes>)
    requires |lines| >= 1
    ensures ValidateLines(cfg, lines) == UnknownType(t, allowed) <==>
      && allowed == cfg.commitTypes
      && t !in cfg.commitTypes
      && exists h ::
           && Preferred(lines[0], h)
           && h.commitType == t
           && !StartsWithCapital(h.subject)
           && !EndsWithDot(h.subject)
  {
    PreferredIsFound(lines[0]);
  }

  /**
   An unknown type is reported, with the type and the whole list in its
   order, exactly when the subject passes and the preferred type is not in
   the list.
   */
  lemma UnknownTypeExactly(cfg: Config, message: Bytes, t: Bytes, allowed: seq<Bytes>)
    ensures Validate(cfg, message) == UnknownType(t, allowed) <==>
      && |message| > 0
      && allowed == cfg.commitTypes
      && t !in cfg.commitTypes
      && exists h ::
           && Preferred(Split(message)[0], h)
           && h.commitType == t
           && !StartsWithCapital(h.subject)
           && !EndsWithDot(h.subject)
  {
    if |message| > 0 {
      UnknownTypeLines(cfg, Split(message), t, allowed);
    }
  }

  /** On the lines of a message: when a missing blank line is reported. */
  lemma MissingBlankLines(cfg: Config, lines: seq<Bytes>)
    requires |lines| >= 1
    ensures ValidateLines(cfg, lines) == MissingBlankSeparator <==>
      HeaderAccepted(cfg, lines[0]) && !SeparatorOk(lines)
  {
    PreferredIsFound(lines[0]);
  }

  /** A missing blank line is reported exactly when the header passes and a non-empty second line exists. */
  lemma MissingBlankExactly(cfg: Config, message: Bytes)
    ensures Validate(cfg, message) == MissingBlankSeparator <==>
      && |message| > 0
      && HeaderAccepted(cfg, Split(message)[0])
      && !SeparatorOk(Split(message))
  {
    if |message| > 0 {
      MissingBlankLines(cfg, Split(message));
    }
  }

  /** The body scan finds the first overlong line after the header, or finds that there is none. */
  lemma FirstOverlongFound(cfg: Config, lines: seq<Bytes>)
    requires |lines| >= 1
    ensures match FirstOverlong(cfg.otherLineLimit, lines, 1)
      case Some(k) => forall k' :: FirstOverlongAt(cfg, lines, k') <==> k' == k
      case None => BodyOk(cfg, lines)
  {
    var r := FirstOverlong(cfg.otherLineLimit, lines, 1);
    if r.Some? {
      assert FirstOverlongAt(cfg, lines, r.value);
      forall k': nat | FirstOverlongAt(cfg, lines, k') ensures k' == r.value {
        assert !(k' < r.value) && !(r.value < k');
      }
    }
  }

  /** On the lines of a message: when a long body line is reported, and with which length. */
  lemma BodyLineTooLongLines(cfg: Config, lines: seq<Bytes>, limit: nat, n: nat)
    requires |lines| >= 1
    ensures ValidateLines(cfg, lines) == BodyLineTooLong(limit, n) <==>
      && HeaderAccepted(cfg, lines[0])
      && SeparatorOk(lines)
      && limit == cfg.otherLineLimit
      && exists k: nat :: FirstOverlongAt(cfg, lines, k) && n == |lines[k]|
  {
    PreferredIsFound(lines[0]);
    FirstOverlongFound(cfg, lines);
  }

  /**
   A long body line is reported exactly when the header and separator pass
   and some line after the header is overlong; the length reported is that
   of the first such line.
   */
  lemma BodyLineTooLongExactly(cfg: Config, message: Bytes, limit: nat, n: nat)
    ensures Validate(cfg, message) == BodyLineTooLong(limit, n) <==>
      && |message| > 0
      && HeaderAccepted(cfg, Split(message)[0])
      && SeparatorOk(Split(message))
      && limit == cfg.otherLineLimit
      && exists k: nat :: FirstOverlongAt(cfg, Split(message), k) && n == |Split(message)[k]|
  {
    if |message| > 0 {
      BodyLineTooLongLines(cfg, Split(message), limit, n);
    }
  }

  /** On the lines of a message: when a long header is reported. */
  lemma HeaderTooLongLines(cfg: Config, lines: seq<Bytes>, limit: nat, n: nat)
    requires |lines| >= 1
    ensures ValidateLines(cfg, lines) == HeaderTooLong(limit, n) <==>
      && HeaderAccepted(cfg, lines[0])
      && SeparatorOk(lines)
      && BodyOk(cfg, lines)
      && |lines[0]| > cfg.firstLineLimit
      && limit == cfg.firstLineLimit
      && n == |lines[0]|
  {
    PreferredIsFound(lines[0]);
    FirstOverlongFound(cfg, lines);
  }

  /** A long header is reported exactly when everything else passes and the first line is over its limit. */
  lemma HeaderTooLongExactly(cfg: Config, message: Bytes, limit: nat, n: nat)
    ensures Validate(cfg, message) == HeaderTooLong(limit, n) <==>
      && |message| > 0
      && HeaderAccepted(cfg, Split(message)[0])
      && SeparatorOk(Split(message))
      && BodyOk(cfg, Split(message))
      && |Split(message)[0]| > cfg.firstLineLimit
      && limit == cfg.firstLineLimit
      && n == |Split(message)[0]|
  {
    if |message| > 0 {
      HeaderTooLongLines(cfg, Split(message), limit, n);
    }
  }

  /** On the lines of a message: when it is accepted. */
  lemma OkLines(cfg: Config, lines: seq<Bytes>)
    requires |lines| >= 1
    ensures ValidateLines(cfg, lines) == Ok <==>
      && HeaderAccepted(cfg, lines[0])
      && SeparatorOk(lines)
      && BodyOk(cfg, lines)
      && |lines[0]| <= cfg.firstLineLimit
  {
    PreferredIsFound(lines[0]);
    FirstOverlongFound(cfg, lines);
  }

  /** The validator accepts a message exactly when the message meets every guideline. */
  lemma OkExactly(cfg: Config, message: Bytes)
    ensures Validate(cfg, message) == Ok <==> Acceptable(cfg, message)
  {
    if |message| > 0 {
      OkLines(cfg, Split(message));
    }
  }

  /** The body is checked before the header length: a message too long in both places gets the body verdict. */
  lemma BodyBeforeHeaderLength(cfg: Config, message: Bytes)
    requires |message| > 0
    requires HeaderAccepted(cfg, Split(message)[0])
    requires SeparatorOk(Split(message))
    requires !BodyOk(cfg, Split(message))
    requires |Split(message)[0]| > cfg.firstLineLimit
    ensures Validate(cfg, message).BodyLineTooLong?
    ensures Validate(cfg, message).limit == cfg.otherLineLimit
  {
    var lines := Split(message);
    PreferredIsFound(lines[0]);
    FirstOverlongFound(cfg, lines);
  }

  /** `IsValidCommitMessage`: whether the message is accepted, which is whether it meets every guideline. */
  function IsValid(cfg: Config, message: Bytes): (valid: bool)
    ensures valid <==> Acceptable(cfg, message)
  {
    OkExactly(cfg, message);
    Validate(cfg, message) == Ok
  }
}
