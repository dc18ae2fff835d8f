/**
 The texts of the validator's unit tests and the byte-level facts about them
 that the tests rely on. Long texts are written as concatenations of short
 pieces, each with its own small facts lemma; the text is the same.
 */
module TestTexts {
  import opened Bytes
  import opened Lines

  /** The pieces of the subject of the header length test. */
  const SubjectA: Bytes := "the message "
  const SubjectB: Bytes := "of the first "
  const SubjectC: Bytes := "line should "
  const SubjectD: Bytes := "not be longer "
  const SubjectE: Bytes := "than 70 characters"

  /** The subject of the 93-byte header of the header length test. */
  const LongSubject: Bytes := SubjectA + SubjectB + SubjectC + SubjectD + SubjectE

  /** The pieces of the body line of the body length test. */
  const BodyA: Bytes := "Also other lines "
  const BodyB: Bytes := "should not be "
  const BodyC: Bytes := "longer than 100 "
  const BodyD: Bytes := "characters as "
  const BodyE: Bytes := "rendering the "
  const BodyF: Bytes := "message without "
  const BodyG: Bytes := "soft-wraps makes "
  const BodyH: Bytes := "them hard to read"

  /** The 125-byte body line of the body length test. */
  const LongBody: Bytes := BodyA + BodyB + BodyC + BodyD + BodyE + BodyF + BodyG + BodyH

  /** The pieces of the comment line of the comment test. */
  const CommentHead: Bytes := "# This is a long"
  const CommentMid: Bytes := " comment that "
  const CommentTail: Bytes := "should be ignored."
  const CommentAgain: Bytes := " This is a long"

  /** The long comment line of the comment test: one sentence written three times. */
  const LongComment: Bytes :=
    CommentHead + CommentMid + CommentTail
    + CommentAgain + CommentMid + CommentTail
    + CommentAgain + CommentMid + CommentTail

  lemma SubjectABytes()
    ensures Newline !in SubjectA && ')' !in SubjectA
  {
  }

  lemma SubjectBBytes()
    ensures Newline !in SubjectB && ')' !in SubjectB
  {
  }

  lemma SubjectCBytes()
    ensures Newline !in SubjectC && ')' !in SubjectC
  {
  }

  lemma SubjectDBytes()
    ensures Newline !in SubjectD && ')' !in SubjectD
  {
  }

  lemma SubjectEBytes()
    ensures Newline !in SubjectE && ')' !in SubjectE
  {
  }

  lemma BodyABytes()
    ensures Newline !in BodyA
  {
  }

  lemma BodyBBytes()
    ensures Newline !in BodyB
  {
  }

  lemma BodyCBytes()
    ensures Newline !in BodyC
  {
  }

  lemma BodyDBytes()
    ensures Newline !in BodyD
  {
  }

  lemma BodyEBytes()
    ensures Newline !in BodyE
  {
  }

  lemma BodyFBytes()
    ensures Newline !in BodyF
  {
  }

  lemma BodyGBytes()
    ensures Newline !in BodyG
  {
  }

  lemma BodyHBytes()
    ensures Newline !in BodyH
  {
  }

  lemma CommentHeadBytes()
    ensures Newline !in CommentHead
  {
  }

  lemma CommentMidBytes()
    ensures Newline !in CommentMid
  {
  }

  lemma CommentTailBytes()
    ensures Newline !in CommentTail
  {
  }

  lemma CommentAgainBytes()
    ensures Newline !in CommentAgain
  {
  }

  lemma LongSubjectLength()
    ensures |LongSubject| == 69
  {
  }

  lemma LongSubjectBytes()
    ensures Newline !in LongSubject && ')' !in LongSubject
  {
    SubjectABytes();
    SubjectBBytes();
    SubjectCBytes();
    SubjectDBytes();
    SubjectEBytes();
  }

  lemma LongBodyLength()
    ensures |LongBody| == 125
  {
  }

  lemma LongBodyBytes()
    ensures Newline !in LongBody
  {
    BodyABytes();
    BodyBBytes();
    BodyCBytes();
    BodyDBytes();
    BodyEBytes();
    BodyFBytes();
    BodyGBytes();
    BodyHBytes();
  }

  lemma LongCommentBytes()
    ensures Newline !in LongComment && |LongComment| > 0 && LongComment[0] == '#'
  {
    CommentHeadBytes();
    CommentMidBytes();
    CommentTailBytes();
    CommentAgainBytes();
  }

  lemma ScopeFacts()
    ensures Newline !in "valid-commit-msg" && '(' !in "valid-commit-msg"
    ensures |"valid-commit-msg"| == 16
  {
  }

  lemma ImplementFacts()
    ensures Newline !in "implement tests" && ')' !in "implement tests"
    ensures |"implement tests"| == 15
  {
  }

  lemma ShortFacts()
    ensures Newline !in "short first line" && ')' !in "short first line"
    ensures |"short first line"| == 16
  {
  }
}
