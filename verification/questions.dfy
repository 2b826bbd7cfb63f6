/**
 * The question builder (`createQuestions`): the five prompts asked, in
 * order, with their messages, visibility and scope list taken from the
 * resolved configuration.
 */
module Questions {
  import opened Wrappers
  import opened Choices
  import opened Header
  import opened Subject
  import opened ConfigResolver

  /** The prompt type of a question. */
  datatype PromptKind = Autocomplete | List | Input | MaxLengthInput

  /** An entry of a closed list: a name with a separate value, or a plain text that is both. */
  datatype ListChoice = Labelled(name: string, value: string) | Plain(text: string)

  /**
   * A question as handed to the prompt. `choices` and `maxLength` are
   * absent where the question has none; `when` says whether it is asked.
   */
  datatype Question = Question(
    kind: PromptKind,
    name: string,
    message: string,
    choices: Option<seq<ListChoice>>,
    maxLength: Option<int>,
    when: bool)

  /** The five questions. */
  datatype Topic = TypeQuestion | ScopeQuestion | SubjectQuestion | BodyQuestion | IssuesQuestion

  /** The topics in the order they are asked. */
  const Order: seq<Topic> := [TypeQuestion, ScopeQuestion, SubjectQuestion, BodyQuestion, IssuesQuestion]

  /** The name a question goes by, which is also its key in `questions` and `skipQuestions`. */
  function Key(q: Topic): string {
    match q
    case TypeQuestion => "type"
    case ScopeQuestion => "scope"
    case SubjectQuestion => "subject"
    case BodyQuestion => "body"
    case IssuesQuestion => "issues"
  }

  /** The questions that `skipQuestions` can switch off: all but type and subject. */
  predicate Skippable(q: Topic) {
    q == ScopeQuestion || q == BodyQuestion || q == IssuesQuestion
  }

  /** The built-in message of each question. */
  function DefaultMessage(q: Topic): string {
    match q
    case TypeQuestion => "选择提交的更改类型:"
    case ScopeQuestion => "指定一个范围:"
    case SubjectQuestion => "写一个简短的描述:"
    case BodyQuestion => "写一个更详细的描述:"
    case IssuesQuestion => "列出已解决的 issue (#1, #2, 无直接回车):"
  }

  /** A question's message: the configured one when it is set and not empty, the built-in one otherwise. */
  function MessageFor(config: Config, q: Topic): (m: string)
    ensures config.questions.Some? && Key(q) in config.questions.value && config.questions.value[Key(q)] != []
      ==> m == config.questions.value[Key(q)]
    ensures !(config.questions.Some? && Key(q) in config.questions.value && config.questions.value[Key(q)] != [])
      ==> m == DefaultMessage(q)
  {
    var key := Key(q);
    if config.questions.Some? && key in config.questions.value && config.questions.value[key] != [] then
      config.questions.value[key]
    else
      DefaultMessage(q)
  }

  /** Whether a question is asked: always for type and subject, otherwise unless `skipQuestions` names it. */
  predicate Asked(config: Config, q: Topic) {
    !(Skippable(q) && Key(q) in config.skipQuestions)
  }

  /** The scope list: a "[none]" entry with the empty value, then the configured scopes in order. */
  function ScopeChoices(scopes: seq<string>): (r: seq<ListChoice>)
    ensures |r| == |scopes| + 1 && r[0] == Labelled("[none]", "")
    ensures forall i :: 0 <= i < |scopes| ==> r[i + 1] == Plain(scopes[i])
  {
    [Labelled("[none]", "")] + seq(|scopes|, i requires 0 <= i < |scopes| => Plain(scopes[i]))
  }

  /**
   * The questions, always the same five in the same order. Scope, body and
   * issues are asked unless listed in `skipQuestions`; the scope is chosen
   * from a list when scopes are configured and typed in otherwise.
   */
  function CreateQuestions(config: Config): (qs: seq<Question>)
    ensures |qs| == |Order|
    ensures forall i :: 0 <= i < |qs| ==> qs[i].name == Key(Order[i])
    ensures forall i :: 0 <= i < |qs| ==> qs[i].message == MessageFor(config, Order[i])
    ensures forall i :: 0 <= i < |qs| ==> (qs[i].when <==> Asked(config, Order[i]))
    ensures qs[0].kind == Autocomplete && qs[2].kind == MaxLengthInput
    ensures qs[3].kind == Input && qs[4].kind == Input
    ensures qs[1].kind == (if config.scopes.Some? then List else Input)
    ensures qs[1].choices == (if config.scopes.Some? then Some(ScopeChoices(config.scopes.value)) else None)
    ensures qs[2].maxLength == Some(config.subjectMaxLength)
  {
    seq(|Order|, i requires 0 <= i < |Order| => QuestionFor(config, Order[i]))
  }

  /** One question of the list. */
  function QuestionFor(config: Config, q: Topic): (qn: Question)
    ensures qn.name == Key(q) && qn.message == MessageFor(config, q)
    ensures qn.when <==> Asked(config, q)
  {
    match q
    case TypeQuestion => Question(Autocomplete, Key(TypeQuestion), MessageFor(config, TypeQuestion), None, None, true)
    case ScopeQuestion =>
      Question(if config.scopes.Some? then List else Input, Key(ScopeQuestion), MessageFor(config, ScopeQuestion),
        if config.scopes.Some? then Some(ScopeChoices(config.scopes.value)) else None,
        None, Key(ScopeQuestion) !in config.skipQuestions)
    case SubjectQuestion => Question(MaxLengthInput, Key(SubjectQuestion), MessageFor(config, SubjectQuestion), None, Some(config.subjectMaxLength), true)
    case BodyQuestion => Question(Input, Key(BodyQuestion), MessageFor(config, BodyQuestion), None, None, Key(BodyQuestion) !in config.skipQuestions)
    case IssuesQuestion => Question(Input, Key(IssuesQuestion), MessageFor(config, IssuesQuestion), None, None, Key(IssuesQuestion) !in config.skipQuestions)
  }

  /** `skipQuestions` only switches questions off: everything else about them stays the same. */
  lemma SkipOnlyChangesWhen(config: Config, skip: seq<string>)
    ensures var qs, qs' := CreateQuestions(config), CreateQuestions(config.(skipQuestions := skip));
      forall i :: 0 <= i < |qs| ==> qs[i].(when := true) == qs'[i].(when := true)
  {
    var qs, qs' := CreateQuestions(config), CreateQuestions(config.(skipQuestions := skip));
    forall i | 0 <= i < |qs|
      ensures qs[i].(when := true) == qs'[i].(when := true)
    {
      QuestionForIgnoresSkip(config, skip, Order[i]);
    }
  }

  /** A question apart from its `when` flag does not depend on `skipQuestions`. */
  lemma QuestionForIgnoresSkip(config: Config, skip: seq<string>, q: Topic)
    ensures QuestionFor(config, q).(when := true) == QuestionFor(config.(skipQuestions := skip), q).(when := true)
  {
  }

  /** With the defaults, every question is asked with its built-in message and the scope is typed in. */
  lemma DefaultQuestions(types: seq<CommitType>)
    ensures var qs := CreateQuestions(DefaultConfig(types));
      && (forall i :: 0 <= i < |qs| ==> qs[i].when && qs[i].message == DefaultMessage(Order[i]))
      && qs[1].kind == Input && qs[2].maxLength == Some(75)
  {
  }

  /**
   * The type question's `source`: the whole choice list while nothing is
   * typed, otherwise what the fuzzy search returns for the query.
   */
  function TypeSource(config: Config, query: Option<string>, searched: seq<Choice>): (r: seq<Choice>)
    ensures query.None? || query.value == [] ==> r == EmojiChoices(config.types, config.symbol)
    ensures query.Some? && query.value != [] ==> r == searched
  {
    if query.Some? && query.value != [] then searched else EmojiChoices(config.types, config.symbol)
  }

  /** The subject question's `validate`, with the configured minimum length. */
  function ValidateSubject(config: Config, value: string): (r: Verdict)
    ensures r.Accept? <==> ' ' in value && |LastWord(value)| > config.subjectMinLength
    ensures r.Reject? ==> r.message == RejectMessage(config.subjectMinLength)
  {
    Validate(value, config.subjectMinLength)
  }

  /**
   * The subject question's `filter`: the typed subject becomes the whole
   * header, composed from the earlier answers in the configured layout; it
   * ends with the subject.
   */
  function FilterSubject(config: Config, commitType: ChoiceValue, scope: Option<string>, subject: string): (r: string)
    ensures r == FormatHead(commitType, scope, subject, config.conventional)
    ensures |r| > |subject| && r[|r| - |subject|..] == subject
  {
    FormatHead(commitType, scope, subject, config.conventional)
  }
}
