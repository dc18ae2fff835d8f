/**
 Verdicts for whole families of messages: a header line alone, or a header
 line followed by more lines, for every configuration and every header whose
 scope has no `(` and whose subject has no `)` (so that the preferred match
 is the one the header was composed from). Most of the validator's unit
 tests are instances of these lemmas. The module ends with one concrete
 message whose header has two parenthesised groups, to show the greedy
 capture at work.
 */
module Scenarios {
  import opened Bytes
  import opened Options
  import opened Lines
  import opened Header
  import opened Validator
  import opened Acceptance

  /** A header whose pieces hold no newline, whose scope has no `(` and whose subject has no `)`. */
  ghost predicate Plain(h: Header)
  {
    && Newline !in h.commitType
    && Newline !in h.scope
    && Newline !in h.subject
    && '(' !in h.scope
    && ')' !in h.subject
  }

  /** The header passes the subject and type checks under `cfg`. */
  ghost predicate HeaderPasses(cfg: Config, h: Header)
  {
    !StartsWithCapital(h.subject) && !EndsWithDot(h.subject) && h.commitType in cfg.commitTypes
  }

  /** A plain header line alone is one line, and its captures are its pieces. */
  lemma HeaderOnly(cfg: Config, h: Header)
    requires Plain(h)
    ensures Validate(cfg, Compose(h)) == ValidateLines(cfg, [Compose(h)])
    ensures FindHeader(Compose(h)) == Some(h)
  {
    FindHeaderOf(h);
    SplitOneLine(Compose(h));
  }

  /** A plain header line, a blank line and one more line split as written. */
  lemma HeaderBlankLine(cfg: Config, h: Header, body: Bytes)
    requires Plain(h)
    requires Newline !in body
    ensures Validate(cfg, Compose(h) + "\n\n" + body) == ValidateLines(cfg, [Compose(h), [], body])
    ensures FindHeader(Compose(h)) == Some(h)
  {
    FindHeaderOf(h);
    SplitBlankThen(Compose(h), body);
  }

  /** A header line alone that passes every check and fits its limit is accepted. */
  lemma HeaderOnlyAccepted(cfg: Config, h: Header)
    requires Plain(h) && HeaderPasses(cfg, h)
    requires |Compose(h)| <= cfg.firstLineLimit
    ensures Validate(cfg, Compose(h)) == Ok
  {
    HeaderOnly(cfg, h);
  }

  /** A header line alone with a capitalized subject is rejected for it, naming the subject. */
  lemma HeaderOnlyCapitalized(cfg: Config, h: Header)
    requires Plain(h) && StartsWithCapital(h.subject)
    ensures Validate(cfg, Compose(h)) == CapitalizedSubject(h.subject)
  {
    HeaderOnly(cfg, h);
  }

  /** A header line alone whose subject ends with a dot is rejected for it, naming the subject. */
  lemma HeaderOnlyTrailingDot(cfg: Config, h: Header)
    requires Plain(h) && !StartsWithCapital(h.subject) && EndsWithDot(h.subject)
    ensures Validate(cfg, Compose(h)) == TrailingDot(h.subject)
  {
    HeaderOnly(cfg, h);
  }

  /** A header line alone with a type outside the list is rejected, naming the type and the list. */
  lemma HeaderOnlyUnknownType(cfg: Config, h: Header)
    requires Plain(h) && !StartsWithCapital(h.subject) && !EndsWithDot(h.subject)
    requires h.commitType !in cfg.commitTypes
    ensures Validate(cfg, Compose(h)) == UnknownType(h.commitType, cfg.commitTypes)
  {
    HeaderOnly(cfg, h);
  }

  /** A header line alone that passes every other check but is too long is rejected with its length. */
  lemma HeaderOnlyTooLong(cfg: Config, h: Header)
    requires Plain(h) && HeaderPasses(cfg, h)
    requires |Compose(h)| > cfg.firstLineLimit
    ensures Validate(cfg, Compose(h)) == HeaderTooLong(cfg.firstLineLimit, |Compose(h)|)
  {
    HeaderOnly(cfg, h);
  }

  /** A good header followed directly by a non-empty line is rejected for the missing blank line. */
  lemma MissingBlankAfterHeader(cfg: Config, h: Header, rest: Bytes)
    requires Plain(h) && HeaderPasses(cfg, h)
    requires Split(rest)[0] != []
    ensures Validate(cfg, Compose(h) + "\n" + rest) == MissingBlankSeparator
  {
    FindHeaderOf(h);
    SplitAfterLine(Compose(h), rest);
  }

  /** After a good header and a blank line, an overlong line is rejected with its length. */
  lemma LongBodyLineRejected(cfg: Config, h: Header, body: Bytes)
    requires Plain(h) && HeaderPasses(cfg, h)
    requires Newline !in body && Overlong(cfg.otherLineLimit, body)
    ensures Validate(cfg, Compose(h) + "\n\n" + body) == BodyLineTooLong(cfg.otherLineLimit, |body|)
  {
    HeaderBlankLine(cfg, h, body);
    assert FirstOverlong(cfg.otherLineLimit, [Compose(h), [], body], 1) == Some(2);
  }

  /** After a good header and a blank line, a comment line of any length is accepted. */
  lemma LongCommentAccepted(cfg: Config, h: Header, body: Bytes)
    requires Plain(h) && HeaderPasses(cfg, h)
    requires |Compose(h)| <= cfg.firstLineLimit
    requires Newline !in body && IsComment(body)
    ensures Validate(cfg, Compose(h) + "\n\n" + body) == Ok
  {
    HeaderBlankLine(cfg, h, body);
  }

  /**
   A header with two parenthesised groups is split at the last `(` before
   the last `): `: the type capture takes everything before it.
   */
  lemma GreedyTypeCapture()
    ensures Validate(Default, Compose(Header("feat(x): y ", "z", "w")))
         == UnknownType("feat(x): y ", Default.commitTypes)
  {
    HeaderOnlyUnknownType(Default, Header("feat(x): y ", "z", "w"));
  }

  /** The greedy example written out as a header line. */
  lemma GreedyHeaderText()
    ensures Compose(Header("feat(x): y ", "z", "w")) == "feat(x): y (z): w"
  {
  }
}
