/**
 * The configuration resolver (`getConfig`): the first configuration found
 * among the project manifest, the project dotfile and the home dotfile,
 * spread over the built-in defaults.
 */
module ConfigResolver {
  import opened Wrappers
  import opened Choices

  /** The resolved configuration: every field has a value, except the optional scopes and messages. */
  datatype Config = Config(
    types: seq<CommitType>,
    symbol: bool,
    skipQuestions: seq<string>,
    subjectMaxLength: int,
    subjectMinLength: int,
    conventional: bool,
    scopes: Option<seq<string>>,
    questions: Option<map<string, string>>)

  /** A configuration as found in a file: each field may be missing. */
  datatype Override = Override(
    types: Option<seq<CommitType>>,
    symbol: Option<bool>,
    skipQuestions: Option<seq<string>>,
    subjectMaxLength: Option<int>,
    subjectMinLength: Option<int>,
    conventional: Option<bool>,
    scopes: Option<seq<string>>,
    questions: Option<map<string, string>>)

  /** An override that defines no field. */
  const NoOverride: Override := Override(None, None, None, None, None, None, None, None)

  /** The built-in defaults around the built-in type list. */
  function DefaultConfig(types: seq<CommitType>): (c: Config)
    ensures c.types == types && c.symbol && c.conventional
    ensures c.skipQuestions == [] && c.subjectMaxLength == 75 && c.subjectMinLength == 2
    ensures c.scopes.None? && c.questions.None?
  {
    Config(types, true, [], 75, 2, true, None, None)
  }

  /**
   * The first configuration that was found, scanning the sources in
   * priority order; none when no source yielded one.
   */
  function FirstFound(sources: seq<Option<Override>>): (r: Option<Override>)
    ensures r.None? <==> forall i :: 0 <= i < |sources| ==> sources[i].None?
    ensures r.Some? ==>
      exists i :: 0 <= i < |sources| && sources[i] == r && (forall j :: 0 <= j < i ==> sources[j].None?)
    decreases |sources|
  {
    if sources == [] then None
    else if sources[0].Some? then sources[0]
    else
      var r := FirstFound(sources[1..]);
      assert forall i :: 1 <= i < |sources| ==> sources[1..][i - 1] == sources[i];
      r
  }

  /** A field's value after the spread: the override's when it defines one, the default's otherwise. */
  function Pick<T>(over: Option<T>, default: T): T {
    over.GetOr(default)
  }

  /**
   * `{ ...defaults, ...override }`: a shallow spread, field by field; a
   * field the override defines replaces the default one as a whole.
   */
  function Merge(d: Config, o: Override): (c: Config)
    ensures c.types == (if o.types.Some? then o.types.value else d.types)
    ensures c.symbol == (if o.symbol.Some? then o.symbol.value else d.symbol)
    ensures c.skipQuestions == (if o.skipQuestions.Some? then o.skipQuestions.value else d.skipQuestions)
    ensures c.subjectMaxLength == (if o.subjectMaxLength.Some? then o.subjectMaxLength.value else d.subjectMaxLength)
    ensures c.subjectMinLength == (if o.subjectMinLength.Some? then o.subjectMinLength.value else d.subjectMinLength)
    ensures c.conventional == (if o.conventional.Some? then o.conventional.value else d.conventional)
    ensures c.scopes == (if o.scopes.Some? then o.scopes else d.scopes)
    ensures c.questions == (if o.questions.Some? then o.questions else d.questions)
  {
    Config(
      Pick(o.types, d.types),
      Pick(o.symbol, d.symbol),
      Pick(o.skipQuestions, d.skipQuestions),
      Pick(o.subjectMaxLength, d.subjectMaxLength),
      Pick(o.subjectMinLength, d.subjectMinLength),
      Pick(o.conventional, d.conventional),
      if o.scopes.Some? then o.scopes else d.scopes,
      if o.questions.Some? then o.questions else d.questions)
  }

  /** A configuration written out in full, as a file could hold it. */
  function AsOverride(c: Config): Override {
    Override(Some(c.types), Some(c.symbol), Some(c.skipQuestions), Some(c.subjectMaxLength),
      Some(c.subjectMinLength), Some(c.conventional), c.scopes, c.questions)
  }

  /** An override that defines nothing leaves the defaults as they are. */
  lemma MergeNothing(d: Config)
    ensures Merge(d, NoOverride) == d
  {
  }

  /** Spreading the same override twice changes nothing more. */
  lemma MergeIdempotent(d: Config, o: Override)
    ensures Merge(Merge(d, o), o) == Merge(d, o)
  {
  }

  /** A full configuration read back from a file replaces the defaults entirely, whatever they were. */
  lemma MergeFull(d: Config, c: Config)
    requires c.scopes.Some? && c.questions.Some?
    ensures Merge(d, AsOverride(c)) == c
  {
  }

  /** The three places a configuration is looked for, in priority order. */
  function Sources(packageJson: Option<Override>, projectRc: Option<Override>, homeRc: Option<Override>): seq<Option<Override>> {
    [packageJson, projectRc, homeRc]
  }

  /** The first source found, as the `||` chain of the three lookups picks it. */
  lemma FirstOfSources(packageJson: Option<Override>, projectRc: Option<Override>, homeRc: Option<Override>)
    ensures FirstFound(Sources(packageJson, projectRc, homeRc))
      == if packageJson.Some? then packageJson else if projectRc.Some? then projectRc else homeRc
  {
    var s := Sources(packageJson, projectRc, homeRc);
    assert s[1..] == [projectRc, homeRc];
    assert s[1..][1..] == [homeRc];
    assert [homeRc][1..] == [];
    if packageJson.None? {
      assert FirstFound(s) == FirstFound([projectRc, homeRc]);
      if projectRc.None? {
        assert FirstFound([projectRc, homeRc]) == FirstFound([homeRc]);
        if homeRc.None? {
          assert FirstFound([homeRc]) == FirstFound([]);
        }
      }
    }
  }

  /**
   * `getConfig` over the three already-read sources. Which source wins:
   * the manifest when it has a configuration, else the project dotfile,
   * else the home dotfile; without any, the defaults.
   */
  function GetConfig(types: seq<CommitType>, packageJson: Option<Override>, projectRc: Option<Override>, homeRc: Option<Override>): (c: Config)
    ensures var d := DefaultConfig(types);
      && (packageJson.Some? ==> c == Merge(d, packageJson.value))
      && (packageJson.None? && projectRc.Some? ==> c == Merge(d, projectRc.value))
      && (packageJson.None? && projectRc.None? && homeRc.Some? ==> c == Merge(d, homeRc.value))
      && (packageJson.None? && projectRc.None? && homeRc.None? ==> c == d)
  {
    FirstOfSources(packageJson, projectRc, homeRc);
    Merge(DefaultConfig(types), FirstFound(Sources(packageJson, projectRc, homeRc)).GetOr(NoOverride))
  }
}
