# g-cz-emoji commit-message logic in Dafny

A model of the message logic of `g-cz-emoji`, a commitizen adapter that asks
for a change type, scope, subject, body and closed issues, and turns the
answers into an emoji commit message. Everything modelled is pure string and
sequence manipulation, so the model is datatypes, functions and lemmas:

- `choices.dfy` (`Choices`): the commit types and `getEmojiChoices`, which
  pads every type name to the longest name's length and builds one list
  entry per type.
- `header.dfy` (`Header`): `formatScope` and `formatHead`, the header in the
  conventional layout (`feat(api): ✨ add login`) or the plain one
  (`✨ (api) add login`).
- `issues.dfy` (`Issues`): `formatIssues`, a scanner for the `#<digits>`
  references of the issues answer and the `Closes #a, closes #b` footer.
- `subject.dfy` (`Subject`): the subject question's `validate` callback.
- `message.dfy` (`Message`): `format`, the message built from the non-empty
  blocks among header, body, breaking-change notice and footer, separated by
  blank lines and trimmed. Truncation and word wrapping are parameters.
- `config.dfy` (`ConfigResolver`): `getConfig` over configurations that were
  already read: the first one found among the project `package.json`, the
  project `.czrc` and the home `.czrc`, spread over the defaults.
- `questions.dfy` (`Questions`): `createQuestions`, the five questions with
  their messages, visibility, scope list and subject callbacks.
- `text.dfy` (`Text`) and `wrappers.dfy` (`Wrappers`): JavaScript's `trim`,
  `split` and `join`, the `pad` library's right padding, decimal rendering of
  a number, and an `Option` type.

The subject validator splits the text it is given on single spaces and does
not trim it first; the last piece is the text after the last space. So, with
the default minimum of 2, `"fix  bug"` (two spaces) is accepted, and
`"fix bug "` is rejected for any minimum length of 0 or more.

## Model

| member | source | states |
|---|---|---|
| Choices.FoldMaxNameLength | index.js:45-48 | the fold never goes below its start value, bounds every name length, and ends on the start value or on some type's name length |
| Choices.MaxNameLength | index.js:45-48 | the padding width is at least every name's length and equals some name's length; it is 0 for an empty type list |
| Choices.MakeChoice | index.js:50-56 | the choice shows its type at the given width: code copied, value the glyph plus a space when `symbol` is set and the code otherwise, display text the name, spaces up to the width, two spaces, glyph, two spaces, description |
| Choices.EmojiChoices | index.js:44-57 | one choice per type in input order, each showing its type at the width of the longest name |
| Choices.ChoicesAligned | index.js:51 | any two choices put the two spaces before the glyph at the same offset |
| Choices.GapAt | index.js:51 | a choice shown at width `w` has its two spaces before the glyph at offset `w` |
| Header.FormatScope | index.js:60-62 | empty exactly for an empty scope; otherwise the scope with one parenthesis on each side |
| Header.ScopeRoundTrip | index.js:60-62 | stripping the parentheses recovers the scope from its formatted text |
| Header.FormatHead | index.js:64-70 | conventional: name, formatted scope, `: `, glyph, space, subject; otherwise glyph, space, formatted scope, space, subject |
| Header.HeadAroundScope | index.js:64-70 | in both layouts the header is a scope-independent lead, the formatted scope, and a scope-independent tail |
| Header.HeadDeterminesScope | index.js:64-70 | for a fixed type, subject and layout, two scopes that give the same header are equal |
| Header.HeadDeterminesSubject | index.js:64-70 | for a fixed type, scope and layout, two subjects that give the same header are equal |
| Header.ConventionalExample | index.js:64-70 | `feat`, `✨`, scope `api`, subject `add login` give `feat(api): ✨ add login` |
| Header.PlainExample | index.js:64-70 | the same answers in the plain layout give `✨ (api) add login` |
| Issues.DigitRun | index.js:73 | the length of the longest run of ASCII digits at the front of a text |
| Issues.IssueRefs | index.js:73 | every match of `/#\d+/g` is a `#` followed by at least one digit |
| Issues.RefStartsSkipDigits | index.js:73 | a run of digits contains no `#` followed by a digit |
| Issues.IssueRefsCount | index.js:73 | the number of matches equals the number of places where `#` is directly followed by a digit, so no reference is missed or split |
| Issues.DigitRunAppend | index.js:73 | a digit run is not extended by text that starts with a non-digit |
| Issues.IssueRefsAppend | index.js:73 | the matches of `a + b`, when `b` starts with a non-digit, are those of `a` followed by those of `b`, so order and duplicates are kept |
| Issues.IssueRefsAppendAtRef | index.js:73 | the same split of the matches when `a` starts with a reference |
| Issues.IssueRefsAppendElsewhere | index.js:73 | the same split of the matches when `a` does not start with a reference |
| Issues.FirstRefInPrefix | index.js:73 | a text starting with a reference is matched first at that reference, which ends within the text |
| Issues.IssueRefsOfRef | index.js:73 | a lone reference is matched as itself |
| Issues.IssueRefsNoHash | index.js:73 | a text without `#` has no match |
| Issues.IssueRefsSkip | index.js:73 | text without `#` in front of a non-digit adds no match |
| Issues.JoinStartsWithHash | index.js:73 | a join of references starts with `#` |
| Issues.IssueRefsStep | index.js:73 | a reference, a separator without `#`, then text starting with `#`: the reference is matched first |
| Issues.IssueRefsOfJoin | index.js:73 | scanning references joined by a separator without `#` that does not start with a digit finds exactly those references |
| Issues.FormatIssues | index.js:72-74 | the footer is empty exactly for an empty issues text; otherwise it is `Closes ` followed by the references of the issues text, in order, separated by `, closes `, and its own references are exactly those of the issues text |
| Issues.FooterTrimmed | index.js:72-74 | a footer holding a reference has no whitespace at either end |
| Issues.JoinOfRefsEndsWithDigit | index.js:73 | references joined by any separator end with a digit |
| Issues.ExampleRefs | index.js:73 | `fixes #12 and #7, see #12` yields `#12`, `#7`, `#12` |
| Issues.FooterExample | index.js:72-74 | that text gives the footer `Closes #12, closes #7, closes #12` |
| Subject.LastWord | index.js:124-126 | the text after the last space: a suffix without spaces, preceded by a space unless it is the whole text |
| Subject.LastPieceIsLastWord | index.js:124-126 | the last piece of `split(' ')` is that last word |
| Subject.RejectMessage | index.js:129-130 | the message is the fixed prompt alone for a minimum up to 1; above 1 it is the prompt and the length note followed by decimal digits that read back as the minimum |
| Subject.Validate | index.js:123-131 | accepted exactly when the subject holds a space and the text after its last space is longer than the minimum; otherwise rejected with that message |
| Subject.TrailingSpaceRejected | index.js:123-131 | a subject ending in a space is rejected for any minimum of 0 or more |
| Subject.TwoWordsAccepted | index.js:123-131 | `fix bug` passes the default minimum 2 |
| Subject.OneWordRejected | index.js:123-131 | `fixbug` is rejected |
| Subject.ShortLastWordRejected | index.js:123-131 | `fix it` is rejected: its last word has length 2, not more than 2 |
| Message.BreakingBlock | index.js:168-171 | no breaking-change text, or a blank one, gives no block; otherwise the block is the wrapped `BREAKING CHANGE: ` followed by the trimmed text |
| Message.BreakingBlockPresent | index.js:168-171 | with a wrapper that maps only empty text to empty text, the block is present exactly when the breaking-change text exists and is not blank |
| Message.Parts | index.js:166-172 | the candidate blocks are four, in order: the truncated header, the wrapped body, the breaking-change block, the issues footer |
| Message.NonEmpty | index.js:175 | `filter(Boolean)` keeps exactly the non-empty texts and never adds any |
| Message.NonEmptyAppend | index.js:175 | the filter works block by block, so it keeps the order |
| Message.Format | index.js:163-178 | the message is the blank-line join of the non-empty blocks with only whitespace cut from each end; it has no whitespace at either end, and is empty exactly when every block is blank |
| Message.AllWhitespaceConcat | index.js:177 | a concatenation is blank exactly when both halves are |
| Message.JoinAllWhitespace | index.js:176-177 | blocks joined by blank lines form a blank text exactly when every block is blank |
| Message.JoinTrimmed | index.js:176 | non-empty trimmed blocks joined by blank lines have no whitespace at either end |
| Message.FormatOfTrimmedParts | index.js:174-177 | when every block is trimmed, the message is exactly the non-empty blocks joined by blank lines |
| Message.FormatStartsWithHeader | index.js:166-177 | a non-empty trimmed header opens the message |
| Message.NonEmptyKeepsFirst | index.js:175 | a non-empty first block stays first after the filter |
| Message.FormatEndsWithFooter | index.js:172-177 | an issues answer holding a reference puts its whole footer at the very end of the message |
| Message.HeaderBodyFooter | index.js:163-178 | trimmed header and body, no breaking change and an issues answer with references give header, blank line, body, blank line, footer |
| Message.NonEmptyDropsBlank | index.js:175 | among four blocks the filter drops exactly the empty third one |
| Message.JoinThree | index.js:176 | three blocks joined are the first, the separator, the second, the separator, the third |
| ConfigResolver.DefaultConfig | index.js:27-34 | the defaults: the built-in types, glyphs shown, nothing skipped, subject lengths 75 and 2, conventional layout, no scopes, no message overrides |
| ConfigResolver.FirstFound | index.js:36-39 | the result is absent exactly when every source is absent; otherwise it is the first source that was found |
| ConfigResolver.Merge | index.js:41 | each field comes from the override when it defines it and from the defaults otherwise; an override's `types` replaces the default list whole |
| ConfigResolver.MergeNothing | index.js:41 | an override that defines nothing leaves the defaults unchanged |
| ConfigResolver.MergeIdempotent | index.js:41 | spreading the same override a second time changes nothing |
| ConfigResolver.MergeFull | index.js:41 | an override that defines every field replaces the defaults entirely |
| ConfigResolver.GetConfig | index.js:26-42 | the manifest's configuration wins, then the project dotfile's, then the home dotfile's, each spread over the defaults; with none the result is the defaults |
| ConfigResolver.FirstOfSources | index.js:36-39 | the generic first-found scan over the three sources picks the manifest, else the project dotfile, else the home dotfile |
| Questions.MessageFor | index.js:101-149 | a configured non-empty message for the question wins; otherwise the built-in message |
| Questions.ScopeChoices | index.js:112 | the scope list is a `[none]` entry with the empty value, then the configured scopes in order |
| Questions.CreateQuestions | index.js:97-152 | always type, scope, subject, body, issues in that order; each message as MessageFor says; scope, body and issues asked exactly when not in `skipQuestions`; scope a list exactly when scopes are set; subject bounded by `subjectMaxLength` |
| Questions.QuestionFor | index.js:98-151 | each question carries its own name and message and is asked exactly as `skipQuestions` allows |
| Questions.QuestionForIgnoresSkip | index.js:113-150 | apart from whether it is asked, a question does not depend on `skipQuestions` |
| Questions.SkipOnlyChangesWhen | index.js:113-150 | `skipQuestions` changes only whether questions are asked, nothing else about them |
| Questions.DefaultQuestions | index.js:97-152 | with the defaults every question is asked with its built-in message, the scope is typed in and the subject is bounded by 75 |
| Questions.TypeSource | index.js:85-105 | while nothing is typed the whole `getEmojiChoices` list of the configuration is shown; otherwise the fuzzy search's result is used |
| Questions.ValidateSubject | index.js:123-131 | the subject question accepts exactly when the subject holds a space and its last word is longer than the configured minimum; otherwise it rejects with the message for that minimum |
| Questions.FilterSubject | index.js:132 | the subject answer is replaced by the header `FormatHead` builds from the type and scope answers in the configured layout, which ends with the typed subject |
| Text.LeadingWhitespace | index.js:169 | the number of leading whitespace characters: all counted ones are whitespace and the next one is not |
| Text.TrailingWhitespace | index.js:169 | the number of trailing whitespace characters: all counted ones are whitespace and the one before is not |
| Text.TrimStart | index.js:169 | the result is a suffix; everything removed is whitespace; it does not start with whitespace |
| Text.TrimEnd | index.js:169 | the result is a prefix; everything removed is whitespace; it does not end with whitespace |
| Text.Trim | index.js:177 | `trim` leaves no whitespace at either end and gives an empty text exactly for a blank one |
| Text.TrimDecomposes | index.js:177 | the text is whitespace, then its trimmed form, then whitespace |
| Text.TrimIdempotent | index.js:177 | trimming twice is trimming once |
| Text.TrimKeepsEnd | index.js:177 | a text ending in a non-empty trimmed part still ends with it after trimming |
| Text.TrimKeepsStart | index.js:177 | a text starting with a non-empty trimmed part still starts with it after trimming |
| Text.TrimKeepsLastBlock | index.js:176-177 | trimming blocks joined by any separator keeps a non-empty trimmed last block whole at the end |
| Text.Join | index.js:176 | `join` (here and at line 73) gives the empty text for no parts and otherwise starts with the first part |
| Text.JoinEndsWithLast | index.js:176 | a join ends with its last piece |
| Text.Split | index.js:124 | `split(' ')` gives at least one piece, and a single piece is the whole text |
| Text.SplitPieces | index.js:124 | no piece holds the separator, and there is more than one piece exactly when the text holds it |
| Text.SplitLast | index.js:124-126 | the last piece is a suffix of the text, preceded by the separator when there is more than one piece |
| Text.SplitLastStep | index.js:124 | the last piece of a text is the last piece of its tail, or the whole text when neither splits; the text splits exactly when it starts with the separator or its tail splits |
| Text.SepBeforeSuffix | index.js:124-126 | every separator lies before a separator-free suffix |
| Text.SplitJoin | index.js:124 | joining the pieces with the separator gives back the text |
| Text.PadRight | index.js:51 | the name is kept at the front and followed by spaces up to the width; a longer name is unchanged |
| Text.NatToDecimal | index.js:129 | the decimal text of the minimum length: digits only, no leading zero |
| Text.DecimalRoundTrip | index.js:129 | reading the decimal text back gives the number |

## Left out

- Reading files, the upward `find-up` search, the home directory and
  `JSON.parse` (index.js:15-24) are left out as input and output. The model
  starts from the three configurations already read, each either absent or
  an `Override`. One consequence is not visible in the model: `loadConfig`
  extracts `config['g-cz-emoji']` from every file, the `.czrc` files
  included.
- Configuration values of the wrong JSON type are left out: `null` fields, a
  non-object configuration, non-integer lengths, non-string scopes or
  messages. Every field is either missing or of the expected type.
- The fuzzy search of the type question (index.js:87-95, 105) is a library
  with approximate scoring. `Questions.TypeSource` takes its result as a
  parameter.
- `cli-truncate` and `wrap-ansi` (index.js:166-170) are terminal-aware
  libraries. They are the `truncate` and `wrap` parameters of
  `Message.Format`. The terminal width `process.stdout.columns` (index.js:164)
  is a parameter too.
- Message.BreakingBlockPresent: it states "present exactly when not blank"
  only for a wrapper that maps just the empty text to the empty text.
  Nothing is known about `wrap-ansi` here.
- The `prompter` entry point (index.js:185-196) is left out. It registers
  prompt plugins and chains the promise to the host's prompt and commit.
  This is host plumbing.
- The contents of `./lib/types` (index.js:13) are not part of this model.
  The default type list is a parameter of `ConfigResolver.DefaultConfig`.
- Lengths are counted in characters (Unicode code points). JavaScript's
  `length` counts UTF-16 code units, so glyphs outside the Basic Multilingual
  Plane count twice there. This affects `Subject.Validate`,
  `Choices.MaxNameLength` and `Text.PadRight`.
- Subject.RejectMessage: the minimum length is written as plain decimal
  digits of any size. JavaScript writes numbers of 10^21 and above in
  exponent form, and non-integer minimums with a fraction; neither is
  modelled.
- Text.PadRight: the `pad` library itself is not part of this model. It is
  modelled as right padding with spaces measured in characters.
- Questions.ValidateSubject: the model applies the closure to the typed
  subject. Which value the prompt library passes to `validate`, and whether
  it runs `filter` (which turns the subject into the whole header) before or
  after `validate`, is decided outside this code and is not modelled.
- Questions.CreateQuestions: the closures of the questions are not fields of
  the question record. The type question's `source` is `Questions.TypeSource`,
  and the subject question's `validate` and `filter` are
  `Questions.ValidateSubject` and `Questions.FilterSubject`. Each takes the
  configuration as an argument.
