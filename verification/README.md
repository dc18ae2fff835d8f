# validate-commit-msg, modelled in Dafny

A model of the commit message validator of `validate-commit-msg`. The validator checks a commit message against the AngularJS commit message guidelines. The message must be non-empty. Its first line (the header) must read `type(scope): subject`. The subject must not start with a capital letter or end with a dot. The type must be one of the configured commit types. A second line, if there is one, must be empty. Lines after the header must stay within 100 bytes, except comment lines starting with `#`. The header must stay within 70 bytes. The checks run in this order, and the first one that fails decides the error.

The model has these modules:

- `Bytes`: a Go string as a sequence of bytes.
- `Options`: the optional result the searches return.
- `Lines`: `strings.Split` on `"\n"`, with its inverse `Join`.
- `Header`: the header pattern `^(.*)\((.*)\): (.*)$`.
  - `Compose` builds a header line from its three captures.
  - `Matches`, `HasMatch` and `Preferred` state what a match is. `Preferred` is the match Go's leftmost-first, greedy engine reports: the longest type, then the longest scope.
  - `FindHeader` computes the captures. It finds the last `): `, then the last `(` before it.
- `Validator`: the configuration, the verdicts, the type lookup, the body scan and the validation in source order.
  - `Config` is the configuration record: the commit types and the two limits.
  - `Default` holds the constructor's defaults: the seven commit types and the limits 70 and 100.
  - Each `Verdict` carries the values its error message shows.
- `Acceptance`: one lemma for each error verdict except the empty message, stating exactly which messages receive it, independent of the order of the code. The empty message is covered by the contract of `Validate`. It also holds `IsValid`, which is the boolean `IsValidCommitMessage`.
- `Scenarios`: verdicts for whole families of messages, such as a plain header alone or a header, a blank line and one body line. It ends with one concrete message, `feat(x): y (z): w`, that is not from the repository's tests. It shows the greedy type capture.
- `TestTexts` and `Tests`: the repository's unit tests.
  - Most are stated as instances of the scenario lemmas.
  - The empty-message test follows from the contract of `Validate`.
  - The `bla` test follows from `Acceptance.MalformedExactly`.

## Model

| member | source | states |
|---|---|---|
| Lines.IndexOf | validator/validator.go:45 | finds no position exactly when the byte does not occur; a position it finds holds the byte, and no earlier position does |
| Lines.Split | validator/validator.go:45 | splitting always yields at least one line, and no line contains a newline |
| Lines.JoinSplit | validator/validator.go:45 | joining the lines of a message with newlines gives the message back |
| Lines.SplitJoin | validator/validator.go:45 | splitting the join of one or more newline-free lines gives those lines back |
| Lines.SplitAfterLine | validator/validator.go:45 | a newline-free line followed by a newline splits off as the first line, and the rest splits on its own |
| Lines.SplitBlankThen | validator/validator.go:45 | a line, an empty line and a third line, joined by newlines, split into exactly those three lines |
| Header.LastCloser | validator/validator.go:48 | returns the last position before a bound where `): ` starts, or reports that there is none |
| Header.LastOpen | validator/validator.go:48 | returns the last position before a bound that holds `(`, or reports that there is none |
| Header.FindHeader | validator/validator.go:48-54 | the type, scope and subject it captures rebuild the header line as `type(scope): subject` |
| Header.FindHeaderComplete | validator/validator.go:48-54 | the header is found exactly when the line can be read as `type(scope): subject` in some way |
| Header.FindHeaderMaximal | validator/validator.go:48-50 | no other reading of the line has a longer type, or an equally long type with a longer scope |
| Header.FindHeaderPreferred | validator/validator.go:48-50 | the captures found are exactly the greedy preferred match: longest type first, then longest scope |
| Header.FindHeaderOf | validator/validator.go:48-50 | a header whose scope has no `(` and whose subject has no `)` is captured back into the same three pieces |
| Validator.DefaultConfig | validator/validator.go:23-30 | a new validator has header limit 70 and body limit 100, and accepts exactly the seven types `feat`, `fix`, `docs`, `style`, `refactor`, `test` and `chore` |
| Validator.StartsWithCapitalMatch | validator/validator.go:58 | the capital-letter test is the match of `^[A-Z]`: it holds exactly when the subject is one letter from `A` to `Z` followed by some text |
| Validator.EndsWithDot | validator/validator.go:64 | the subject matches `\.$`: it is some text followed by a dot |
| Validator.IsComment | validator/validator.go:83 | a line is a comment exactly when it is `#` followed by some text |
| Validator.Overlong | validator/validator.go:82-83 | a line fails the body check exactly when it is longer than the limit and its first byte is not `#`; such a line is non-empty, so reading its first byte is safe |
| Validator.IsValidType | validator/validator.go:99-106 | the type is accepted exactly when it is in the configured list |
| Validator.FirstOverlong | validator/validator.go:81-89 | returns the first line at or after the start that is longer than the limit and is not a comment; every line before it, or every line if none is found, passes |
| Validator.Validate | validator/validator.go:40-44 | the message is rejected as empty exactly when it has length 0 |
| Validator.ValidateLines | validator/validator.go:45-96 | the checks after the emptiness check never report an empty message |
| Acceptance.PreferredIsFound | validator/validator.go:48-50 | a reading of the header line is the preferred one exactly when it is what the validator captures |
| Acceptance.MalformedLines | validator/validator.go:48-54 | on a message's lines: the header is reported malformed exactly when the first line has no `type(scope): subject` reading |
| Acceptance.MalformedExactly | validator/validator.go:48-54 | a message gets the malformed-header error exactly when it is non-empty and its first line has no `type(scope): subject` reading |
| Acceptance.CapitalizedLines | validator/validator.go:56-62 | on a message's lines: the capitalized-subject error names a subject exactly when that is the preferred subject and it starts with `A`-`Z` |
| Acceptance.CapitalizedExactly | validator/validator.go:56-62 | a message gets the capitalized-subject error, naming that subject, exactly when its preferred subject starts with `A`-`Z` |
| Acceptance.TrailingDotLines | validator/validator.go:64-68 | on a message's lines: the trailing-dot error names a subject exactly when that is the preferred subject, it ends with `.` and it is not capitalized |
| Acceptance.TrailingDotExactly | validator/validator.go:64-68 | a message gets the trailing-dot error exactly when its preferred subject ends with `.` and does not start with a capital |
| Acceptance.UnknownTypeLines | validator/validator.go:70-74 | on a message's lines: the unknown-type error names a type and a list exactly when the subject passes, the preferred type is that type, it is not in the list, and the list is the whole configured list in its order |
| Acceptance.UnknownTypeExactly | validator/validator.go:70-74 | a message gets the unknown-type error, naming the preferred type and the whole configured list in order, exactly when its subject passes and that type is not in the list |
| Acceptance.MissingBlankLines | validator/validator.go:76-80 | on a message's lines: the missing-blank-line error is reported exactly when the header passes and there is a non-empty second line |
| Acceptance.MissingBlankExactly | validator/validator.go:76-80 | a message gets the missing-blank-line error exactly when its header passes and its second line exists and is not empty |
| Acceptance.FirstOverlongFound | validator/validator.go:81-89 | the body scan returns the one line that is the first overlong line after the header, or finds that no such line exists |
| Acceptance.BodyLineTooLongLines | validator/validator.go:81-89 | on a message's lines: the long-body-line error is reported exactly when the header and separator pass and some later line is overlong; it carries the body limit and the length of the first such line |
| Acceptance.BodyLineTooLongExactly | validator/validator.go:81-89 | a message gets the long-body-line error exactly when its header and separator pass and a non-comment line after the header is over the body limit; the error carries that limit and the length of the first such line |
| Acceptance.HeaderTooLongLines | validator/validator.go:92-95 | on a message's lines: the long-header error is reported exactly when every other check passes and the first line is over its limit; it carries that limit and the first line's length |
| Acceptance.HeaderTooLongExactly | validator/validator.go:92-95 | a message gets the long-header error exactly when every other check passes and its first line is longer than the header limit; the error carries that limit and the first line's length |
| Acceptance.OkLines | validator/validator.go:40-96 | on a message's lines: the lines are accepted exactly when the header passes, the separator is right, no later line is overlong and the header fits its limit |
| Acceptance.OkExactly | validator/validator.go:40-96 | the validator accepts a message exactly when it meets every guideline together |
| Acceptance.BodyBeforeHeaderLength | validator/validator.go:81-95 | a message with an overlong body line and an overlong header gets the body-line error, not the header error |
| Acceptance.IsValid | validator/validator.go:32-38 | a message is valid exactly when it meets every guideline, that is, when validation returns no error |
| Scenarios.HeaderOnly | validator/validator.go:45-54 | a one-line message is validated as its single line, and a plain header is captured back into its own pieces |
| Scenarios.HeaderBlankLine | validator/validator.go:45-54 | a header, an empty line and one body line are validated as those three lines, and the header's pieces are captured |
| Scenarios.HeaderOnlyAccepted | validator/validator.go:40-96 | a plain header with a lower-case subject, no trailing dot, a known type and a length within the limit is accepted on its own |
| Scenarios.HeaderOnlyCapitalized | validator/validator.go:56-62 | a plain header whose subject starts with a capital is rejected, naming that subject |
| Scenarios.HeaderOnlyTrailingDot | validator/validator.go:64-68 | a plain header whose subject ends with a dot, and is not capitalized, is rejected, naming that subject |
| Scenarios.HeaderOnlyUnknownType | validator/validator.go:70-74 | a plain header with an unknown type and a passing subject is rejected, naming the type and the configured list |
| Scenarios.HeaderOnlyTooLong | validator/validator.go:92-95 | a plain, otherwise acceptable header longer than the header limit is rejected with the limit and its length |
| Scenarios.MissingBlankAfterHeader | validator/validator.go:76-80 | an acceptable header followed directly by a non-empty line is rejected for the missing blank line |
| Scenarios.LongBodyLineRejected | validator/validator.go:81-89 | an acceptable header, a blank line and an overlong body line are rejected with the body limit and that line's length |
| Scenarios.LongCommentAccepted | validator/validator.go:83-85 | an acceptable header, a blank line and a comment line of any length are accepted |
| Scenarios.GreedyTypeCapture | validator/validator.go:48-50 | in `feat(x): y (z): w` the type capture is `feat(x): y `, so the message is rejected for an unknown type |
| Scenarios.GreedyHeaderText | validator/validator.go:48 | the greedy example's three pieces compose to the header line `feat(x): y (z): w` |
| Tests.TestNotEmpty | validator/validator_test.go:14-18 | the empty message is rejected as empty and is not valid |
| Tests.TestValidFormat | validator/validator_test.go:20-22 | `test(valid-commit-msg): implement tests` is accepted and valid under the defaults |
| Tests.TestInvalidFormat | validator/validator_test.go:24-28 | `bla` is rejected for its malformed header and is not valid |
| Tests.TestNoCapitalLetter | validator/validator_test.go:30-34 | a capitalized subject is rejected, naming `Implement tests`, and the message is not valid |
| Tests.TestNotDotAtEnd | validator/validator_test.go:36-40 | a subject ending with a dot is rejected, naming `implement tests.`, and the message is not valid |
| Tests.TestValidType | validator/validator_test.go:42-46 | type `foo` is rejected, naming the seven default types in order, and the message is not valid |
| Tests.TestEmptySecondLine | validator/validator_test.go:48-52 | a header followed directly by `Line 2` and `Line 3` is rejected for the missing blank line, and the message is not valid |
| Tests.TestLengthFirstLine | validator/validator_test.go:54-58 | the 93-byte header is rejected with limit 70 and length 93, and the message is not valid |
| Tests.TestLengthOtherLines | validator/validator_test.go:60-64 | the 125-byte body line is rejected with limit 100 and length 125, and the message is not valid |
| Tests.TestIgnoreLongComments | validator/validator_test.go:66-69 | a long comment line after the blank line is ignored and the message is accepted |
| Tests.TestScopePrefix | validator/validator_test.go:21 | every header of type `test` and scope `valid-commit-msg` is `test(valid-commit-msg): ` followed by its subject |
| Tests.ValidHeaderText | validator/validator_test.go:21 | the header the tests compose is the byte string the tests write |
| Tests.CapitalHeaderText | validator/validator_test.go:31 | the header with the capitalized subject is the byte string the test writes |
| Tests.DotHeaderText | validator/validator_test.go:37 | the header with the trailing dot is the byte string the test writes |
| Tests.FooHeaderText | validator/validator_test.go:43 | the header with type `foo` is the byte string the test writes |
| Tests.LongHeaderText | validator/validator_test.go:55 | the 93-byte header is `test(valid-commit-msg): ` followed by the long subject |
| Tests.ShortHeaderText | validator/validator_test.go:61 | the short header the tests compose is the byte string the tests write |

## Left out

- `commit-msg.go` is not part of this model: reading the message file, printing the error and the exit status are input and output.
- The error texts are not modelled. A verdict carries the values its message shows: the subject, the type, the list, the limit and the length. The `fmt.Errorf` formatting is left out, and so is the `", "` rendering of the type list.
- The regular expression engine is not modelled in general. Only the one header pattern is modelled, by its leftmost-first greedy semantics.
  - Go's `.` decodes UTF-8 and matches every rune except a newline, including a single invalid byte.
  - `(`, `)`, `:` and the space are ASCII, so they never occur inside a multi-byte sequence. A byte-level reading therefore gives the same captures.
- The validator object and its constructor are not modelled as such. The object's fields are the `Config` value plus the message argument, and `NewCommitMessageValidator` is the constant `Validator.Default`.
- Limits are natural numbers. The source only ever sets 70 and 100. With a negative body limit, Go would index the first byte of an empty line and panic; the model does not represent that.
- A byte is modelled as a `char`. No statement depends on its code being below 256.
- Validator.ValidateLines: its own contract only rules out the empty-message verdict. The `Acceptance` lemmas state what each verdict it returns means.
- The unit tests' assertion library is not modelled. Each test is stated as an equality between the verdict and the expected outcome.
