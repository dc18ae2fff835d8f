/**
 The validator's unit tests as facts about the model, under the default
 configuration. Each is an instance of a lemma about messages of its shape.
 */
module Tests {
  import opened Bytes
  import opened Lines
  import opened Header
  import opened Validator
  import opened Acceptance
  import opened Scenarios
  import opened TestTexts

  lemma ValidIsPlain()
    ensures var h := Header("test", "valid-commit-msg", "implement tests");
      Plain(h) && HeaderPasses(Default, h) && |Compose(h)| == 39
  {
    ScopeFacts();
    ImplementFacts();
  }

  lemma ShortIsPlain()
    ensures var h := Header("test", "valid-commit-msg", "short first line");
      Plain(h) && HeaderPasses(Default, h) && |Compose(h)| == 40
  {
    ScopeFacts();
    ShortFacts();
  }

  lemma LongSubjectEnds()
    ensures !StartsWithCapital(LongSubject) && !EndsWithDot(LongSubject)
  {
  }

  lemma LongSubjectIsPlain()
    ensures Newline !in LongSubject && ')' !in LongSubject && |LongSubject| == 69
    ensures !StartsWithCapital(LongSubject) && !EndsWithDot(LongSubject)
  {
    LongSubjectLength();
    LongSubjectBytes();
    LongSubjectEnds();
  }

  lemma LongIsPlain()
    ensures var h := Header("test", "valid-commit-msg", LongSubject);
      Plain(h) && HeaderPasses(Default, h) && |Compose(h)| == 93
  {
    ScopeFacts();
    LongSubjectIsPlain();
  }

  lemma LongBodyIsOverlong()
    ensures Newline !in LongBody && Overlong(100, LongBody) && |LongBody| == 125
  {
    LongBodyLength();
    LongBodyBytes();
  }

  lemma LongCommentIsComment()
    ensures Newline !in LongComment && IsComment(LongComment)
  {
    LongCommentBytes();
  }

  lemma TestNotEmpty()
    ensures Validate(Default, "") == EmptyMessage
    ensures !IsValid(Default, "")
  {
  }

  lemma TestValidFormat()
    ensures Validate(Default, Compose(Header("test", "valid-commit-msg", "implement tests"))) == Ok
    ensures IsValid(Default, Compose(Header("test", "valid-commit-msg", "implement tests")))
  {
    ValidIsPlain();
    HeaderOnlyAccepted(Default, Header("test", "valid-commit-msg", "implement tests"));
  }

  lemma TestInvalidFormat()
    ensures Validate(Default, "bla") == MalformedHeader
    ensures !IsValid(Default, "bla")
  {
    MalformedExactly(Default, "bla");
    SplitOneLine("bla");
    assert !HasMatch("bla") by {
      forall h | Matches("bla", h) ensures false {
        ComposeLayout(h);
      }
    }
  }

  lemma TestNoCapitalLetter()
    ensures Validate(Default, Compose(Header("test", "valid-commit-msg", "Implement tests")))
         == CapitalizedSubject("Implement tests")
    ensures !IsValid(Default, Compose(Header("test", "valid-commit-msg", "Implement tests")))
  {
    ValidIsPlain();
    HeaderOnlyCapitalized(Default, Header("test", "valid-commit-msg", "Implement tests"));
  }

  lemma TestNotDotAtEnd()
    ensures Validate(Default, Compose(Header("test", "valid-commit-msg", "implement tests.")))
         == TrailingDot("implement tests.")
    ensures !IsValid(Default, Compose(Header("test", "valid-commit-msg", "implement tests.")))
  {
    ValidIsPlain();
    HeaderOnlyTrailingDot(Default, Header("test", "valid-commit-msg", "implement tests."));
  }

  lemma TestValidType()
    ensures Validate(Default, Compose(Header("foo", "valid-commit-msg", "implement tests")))
         == UnknownType("foo", ["feat", "fix", "docs", "style", "refactor", "test", "chore"])
    ensures !IsValid(Default, Compose(Header("foo", "valid-commit-msg", "implement tests")))
  {
    ValidIsPlain();
    HeaderOnlyUnknownType(Default, Header("foo", "valid-commit-msg", "implement tests"));
  }

  lemma TestEmptySecondLine()
    ensures Validate(Default, Compose(Header("test", "valid-commit-msg", "implement tests")) + "\n" + "Line 2\nLine 3") == MissingBlankSeparator
    ensures !IsValid(Default, Compose(Header("test", "valid-commit-msg", "implement tests")) + "\n" + "Line 2\nLine 3")
  {
    ValidIsPlain();
    assert "Line 2\nLine 3" == "Line 2" + [Newline] + "Line 3";
    SplitAfterLine("Line 2", "Line 3");
    MissingBlankAfterHeader(Default, Header("test", "valid-commit-msg", "implement tests"), "Line 2\nLine 3");
  }

  lemma TestLengthFirstLine()
    ensures Validate(Default, Compose(Header("test", "valid-commit-msg", LongSubject))) == HeaderTooLong(70, 93)
    ensures !IsValid(Default, Compose(Header("test", "valid-commit-msg", LongSubject)))
  {
    LongIsPlain();
    HeaderOnlyTooLong(Default, Header("test", "valid-commit-msg", LongSubject));
  }

  lemma TestLengthOtherLines()
    ensures Validate(Default, Compose(Header("test", "valid-commit-msg", "short first line")) + "\n\n" + LongBody) == BodyLineTooLong(100, 125)
    ensures !IsValid(Default, Compose(Header("test", "valid-commit-msg", "short first line")) + "\n\n" + LongBody)
  {
    ShortIsPlain();
    LongBodyIsOverlong();
    LongBodyLineRejected(Default, Header("test", "valid-commit-msg", "short first line"), LongBody);
  }

  lemma TestIgnoreLongComments()
    ensures Validate(Default, Compose(Header("test", "valid-commit-msg", "short first line")) + "\n\n" + LongComment) == Ok
    ensures IsValid(Default, Compose(Header("test", "valid-commit-msg", "short first line")) + "\n\n" + LongComment)
  {
    ShortIsPlain();
    LongCommentIsComment();
    LongCommentAccepted(Default, Header("test", "valid-commit-msg", "short first line"), LongComment);
  }

  /** Every `test(valid-commit-msg)` header of the tests, with the subject its test gives. */
  lemma TestScopePrefix(subject: Bytes)
    ensures Compose(Header("test", "valid-commit-msg", subject)) == "test(valid-commit-msg): " + subject
  {
  }

  /** The header lines the tests above are about, as the tests write them. */
  lemma ValidHeaderText()
    ensures Compose(Header("test", "valid-commit-msg", "implement tests"))
         == "test(valid-commit-msg): " + "implement tests"
  {
    TestScopePrefix("implement tests");
  }

  lemma CapitalHeaderText()
    ensures Compose(Header("test", "valid-commit-msg", "Implement tests"))
         == "test(valid-commit-msg): " + "Implement tests"
  {
    TestScopePrefix("Implement tests");
  }

  lemma DotHeaderText()
    ensures Compose(Header("test", "valid-commit-msg", "implement tests."))
         == "test(valid-commit-msg): " + "implement tests."
  {
    TestScopePrefix("implement tests.");
  }

  lemma FooHeaderText()
    ensures Compose(Header("foo", "valid-commit-msg", "implement tests"))
         == "foo(valid-commit-msg): " + "implement tests"
  {
  }

  lemma LongHeaderText()
    ensures Compose(Header("test", "valid-commit-msg", LongSubject))
         == "test(valid-commit-msg): " + LongSubject
  {
    TestScopePrefix(LongSubject);
  }

  lemma ShortHeaderText()
    ensures Compose(Header("test", "valid-commit-msg", "short first line"))
         == "test(valid-commit-msg): " + "short first line"
  {
    TestScopePrefix("short first line");
  }
}
