/**
 The commit message validator: the checks a commit message must pass,
 following the AngularJS commit message guidelines, run in a fixed order with
 the first failing check deciding the verdict.
 */
module Validator {
  import opened Bytes
  import opened Options
  import opened Lines
  import opened Header

  /**
   The validator's configuration: the accepted commit types in their order,
   and the byte limits for the header line and for every later line.
   */
  datatype Config = Config(commitTypes: seq<Bytes>, firstLineLimit: nat, otherLineLimit: nat)

  /** The configuration every validator is constructed with. */
  const Default: Config :=
    Config(["feat", "fix", "docs", "style", "refactor", "test", "chore"], 70, 100)

  /**
   The outcome of one validation: acceptance, or the one failure the first
   failing check reports, with the values its error message shows.
   */
  datatype Verdict =
    | Ok
    | EmptyMessage
    | MalformedHeader
    | CapitalizedSubject(subject: Bytes)
    | TrailingDot(subject: Bytes)
    | UnknownType(commitType: Bytes, allowed: seq<Bytes>)
    | MissingBlankSeparator
    | BodyLineTooLong(limit: nat, length: nat)
    | HeaderTooLong(limit: nat, length: nat)

  /**
   What a new validator starts with: the header limit 70, the body limit 100,
   and exactly the seven types below accepted.
   */
  lemma DefaultConfig()
    ensures Default.firstLineLimit == 70 && Default.otherLineLimit == 100
    ensures |Default.commitTypes| == 7
    ensures forall t :: IsValidType(Default.commitTypes, t) <==>
      t == "feat" || t == "fix" || t == "docs" || t == "style" || t == "refactor" || t == "test" || t == "chore"
  {
    var types := Default.commitTypes;
    assert types == ["feat", "fix", "docs", "style", "refactor", "test", "chore"];
    forall t
      ensures t in types <==>
        t == types[0] || t == types[1] || t == types[2] || t == types[3]
        || t == types[4] || t == types[5] || t == types[6]
    {
    }
  }

  /** The subject starts with an upper-case ASCII letter, the test behind `^[A-Z]`. */
  predicate StartsWithCapital(subject: Bytes)
  {
    |subject| > 0 && 'A' <= subject[0] <= 'Z'
  }

  /**
   The test is the match of `^[A-Z]`: the subject is one letter of the class
   `[A-Z]` followed by anything.
   */
  lemma StartsWithCapitalMatch(subject: Bytes)
    ensures StartsWithCapital(subject) <==> exists c, rest :: 'A' <= c <= 'Z' && subject == [c] + rest
  {
    if StartsWithCapital(subject) {
      assert subject == [subject[0]] + subject[1..];
    }
  }

  /** The subject matches `\.$`: it is anything followed by a dot. */
  predicate EndsWithDot(subject: Bytes): (dot: bool)
    ensures dot <==> exists front :: subject == front + ['.']
  {
    if |subject| == 0 then false
    else
      assert subject == subject[..|subject| - 1] + [subject[|subject| - 1]];
      subject[|subject| - 1] == '.'
  }

  /** A line starting with `#` is a comment: it is `#` followed by anything. */
  predicate IsComment(line: Bytes): (comment: bool)
    ensures comment <==> exists rest :: line == ['#'] + rest
  {
    if |line| == 0 then false
    else
      assert line == [line[0]] + line[1..];
      line[0] == '#'
  }

  /** A line that breaks the length limit for lines after the header: longer, and not a comment. */
  predicate Overlong(limit: nat, line: Bytes): (overlong: bool)
    ensures overlong ==> |line| > 0
    ensures overlong <==> |line| > limit && line[0] != '#'
  {
    |line| > limit && !IsComment(line)
  }

  /** Whether `t` is one of the accepted types, by a scan of the list in order. */
  function IsValidType(commitTypes: seq<Bytes>, t: Bytes): (valid: bool)
    ensures valid <==> t in commitTypes
  {
    if |commitTypes| == 0 then false
    else if commitTypes[0] == t then true
    else IsValidType(commitTypes[1..], t)
  }

  /** The index of the first overlong line at or after `from`, scanning in order. */
  function FirstOverlong(limit: nat, lines: seq<Bytes>, from: nat): (r: Option<nat>)
    requires from <= |lines|
    ensures r.Some? ==> from <= r.value < |lines| && Overlong(limit, lines[r.value])
    ensures forall k | from <= k < (if r.Some? then r.value else |lines|) :: !Overlong(limit, lines[k])
    decreases |lines| - from
  {
    if from == |lines| then None
    else if Overlong(limit, lines[from]) then Some(from)
    else FirstOverlong(limit, lines, from + 1)
  }

  /**
   Validates `message` under `cfg`: the checks run in the order of the
   source and the first failure is the verdict. Only the empty message is
   rejected as empty.
   */
  function Validate(cfg: Config, message: Bytes): (r: Verdict)
    ensures r == EmptyMessage <==> |message| == 0
  {
    if |message| == 0 then EmptyMessage
    else ValidateLines(cfg, Split(message))
  }

  /** The checks after the emptiness check, on the lines of a non-empty message. */
  function ValidateLines(cfg: Config, lines: seq<Bytes>): (r: Verdict)
    requires |lines| >= 1
    ensures r != EmptyMessage
  {
    var first := lines[0];
    match FindHeader(first)
    case None => MalformedHeader
    case Some(h) =>
      if StartsWithCapital(h.subject) then CapitalizedSubject(h.subject)
      else if EndsWithDot(h.subject) then TrailingDot(h.subject)
      else if !IsValidType(cfg.commitTypes, h.commitType) then UnknownType(h.commitType, cfg.commitTypes)
      else if |lines| > 1 && lines[1] != [] then MissingBlankSeparator
      else match FirstOverlong(cfg.otherLineLimit, lines, 1)
        case Some(k) => BodyLineTooLong(cfg.otherLineLimit, |lines[k]|)
        case None =>
          if |first| > cfg.firstLineLimit then HeaderTooLong(cfg.firstLineLimit, |first|)
          else Ok
  }
}
