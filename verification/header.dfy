/** The commit header composed from the type, scope and subject answers (`formatScope`, `formatHead`). */
module Header {
  import opened Wrappers
  import opened Choices

  /** The scope in parentheses, or nothing for an empty scope. */
  function FormatScope(scope: string): (r: string)
    ensures r == [] <==> scope == []
    ensures r != [] ==> |r| == |scope| + 2 && r[0] == '(' && r[|r| - 1] == ')' && r[1..|r| - 1] == scope
  {
    if scope != [] then "(" + scope + ")" else ""
  }

  /** Recovers the scope from its formatted text: the inverse of FormatScope. */
  function ScopeOf(formatted: string): string {
    if |formatted| >= 2 then formatted[1..|formatted| - 1] else ""
  }

  lemma ScopeRoundTrip(scope: string)
    ensures ScopeOf(FormatScope(scope)) == scope
  {
  }

  /** An absent scope (the question was skipped) is formatted like an empty one. */
  function ScopeText(scope: Option<string>): string {
    scope.GetOr("")
  }

  /**
   * The header. Conventional: the type's name, the scope in parentheses,
   * a colon, the glyph (or code) and the subject. Otherwise: the glyph,
   * the scope in parentheses and the subject, separated by spaces.
   */
  function FormatHead(t: ChoiceValue, scope: Option<string>, subject: string, conventional: bool): (r: string)
    ensures conventional ==> r == t.name + FormatScope(ScopeText(scope)) + ": " + t.emoji + " " + subject
    ensures !conventional ==> r == t.emoji + " " + FormatScope(ScopeText(scope)) + " " + subject
  {
    var prelude :=
      if conventional then t.name + FormatScope(ScopeText(scope)) + ": " + t.emoji
      else t.emoji + " " + FormatScope(ScopeText(scope));
    prelude + " " + subject
  }

  /** Text framed by the same prefix and suffix is determined by the whole. */
  lemma MiddleCancel(a: string, x: string, y: string, b: string)
    requires a + x + b == a + y + b
    ensures x == y
  {
    var h := a + x + b;
    assert |x| == |y|;
    assert x == h[|a|..|a| + |x|];
    assert y == (a + y + b)[|a|..|a| + |y|];
  }

  /** The header is the same lead, then the formatted scope, then the same tail, whatever the scope. */
  lemma HeadAroundScope(t: ChoiceValue, scope: string, subject: string, conventional: bool)
    ensures var lead := if conventional then t.name else t.emoji + " ";
      var tail := if conventional then ": " + t.emoji + " " + subject else " " + subject;
      FormatHead(t, Some(scope), subject, conventional) == lead + FormatScope(scope) + tail
  {
  }

  /** For a fixed type and subject, different scopes give different headers. */
  lemma HeadDeterminesScope(t: ChoiceValue, s1: string, s2: string, subject: string, conventional: bool)
    requires FormatHead(t, Some(s1), subject, conventional) == FormatHead(t, Some(s2), subject, conventional)
    ensures s1 == s2
  {
    var lead := if conventional then t.name else t.emoji + " ";
    var tail := if conventional then ": " + t.emoji + " " + subject else " " + subject;
    HeadAroundScope(t, s1, subject, conventional);
    HeadAroundScope(t, s2, subject, conventional);
    MiddleCancel(lead, FormatScope(s1), FormatScope(s2), tail);
    ScopeRoundTrip(s1);
    ScopeRoundTrip(s2);
  }

  /** For a fixed type and scope, different subjects give different headers. */
  lemma HeadDeterminesSubject(t: ChoiceValue, scope: Option<string>, x1: string, x2: string, conventional: bool)
    requires FormatHead(t, scope, x1, conventional) == FormatHead(t, scope, x2, conventional)
    ensures x1 == x2
  {
    var h := FormatHead(t, scope, x1, conventional);
    var n := |h| - |x1|;
    assert x1 == h[n..];
    assert x2 == h[n..];
  }

  /** A typical conventional header: `feat(api): ✨ add login`. */
  lemma ConventionalExample()
    ensures FormatHead(ChoiceValue("✨", "feat"), Some("api"), "add login", true) == "feat(api): ✨ add login"
  {
  }

  /** The same answers without the conventional layout: `✨ (api) add login`. */
  lemma PlainExample()
    ensures FormatHead(ChoiceValue("✨", "feat"), Some("api"), "add login", false) == "✨ (api) add login"
  {
  }
}
