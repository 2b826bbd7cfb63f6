/**
 * The formatter (`format`): the commit message built from the answers, as
 * the non-empty blocks among header, body, breaking-change notice and
 * issue footer, separated by blank lines and trimmed.
 */
module Message {
  import opened Wrappers
  import opened Text
  import opened Choices
  import opened Issues

  /**
   * The answers collected by the prompt. `subject` already holds the
   * composed header; an answer whose question was skipped is absent.
   */
  datatype Answers = Answers(
    commitType: ChoiceValue,
    scope: Option<string>,
    subject: string,
    body: Option<string>,
    issues: Option<string>,
    breakingBody: Option<string>)

  /**
   * A text transformation to a terminal width, as supplied by the
   * truncation and word-wrapping libraries.
   */
  type Layout = (string, int) -> string

  /** The transformation gives an empty text exactly for an empty text. */
  ghost predicate KeepsEmptiness(f: Layout) {
    forall s, w :: f(s, w) == [] <==> s == []
  }

  /** The simplest layout: the text as it is. */
  function Unchanged(s: string, columns: int): string {
    s
  }

  lemma UnchangedKeepsEmptiness()
    ensures KeepsEmptiness(Unchanged)
  {
  }

  /** The text of the breaking-change notice before wrapping. */
  const BreakingPrefix: string := "BREAKING CHANGE: "

  /**
   * The breaking-change block: empty unless a breaking-change text is
   * present and not blank, and then the wrapped notice built from the
   * trimmed text.
   */
  function BreakingBlock(breakingBody: Option<string>, columns: int, wrap: Layout): (r: string)
    ensures breakingBody.None? || AllWhitespace(breakingBody.value) ==> r == []
    ensures breakingBody.Some? && !AllWhitespace(breakingBody.value) ==>
      r == wrap(BreakingPrefix + Trim(breakingBody.value), columns)
  {
    if breakingBody.Some? && breakingBody.value != [] && |Trim(breakingBody.value)| != 0 then
      wrap(BreakingPrefix + Trim(breakingBody.value), columns)
    else
      ""
  }

  /** With a wrapper that keeps non-empty text non-empty, the block is present exactly for a non-blank text. */
  lemma BreakingBlockPresent(breakingBody: Option<string>, columns: int, wrap: Layout)
    requires KeepsEmptiness(wrap)
    ensures BreakingBlock(breakingBody, columns, wrap) != [] <==>
      breakingBody.Some? && !AllWhitespace(breakingBody.value)
  {
    if breakingBody.Some? && !AllWhitespace(breakingBody.value) {
      assert wrap(BreakingPrefix + Trim(breakingBody.value), columns) != [];
    }
  }

  /** The four candidate blocks, in order: header, body, breaking-change notice, issue footer. */
  function Parts(a: Answers, columns: int, truncate: Layout, wrap: Layout): (r: seq<string>)
    ensures |r| == 4
    ensures r[0] == truncate(a.subject, columns)
    ensures r[1] == wrap(a.body.GetOr(""), columns)
    ensures r[2] == BreakingBlock(a.breakingBody, columns, wrap)
    ensures r[3] == FormatIssues(a.issues.GetOr(""))
  {
    [ truncate(a.subject, columns),
      wrap(a.body.GetOr(""), columns),
      BreakingBlock(a.breakingBody, columns, wrap),
      FormatIssues(a.issues.GetOr(""))
    ]
  }

  /** `filter(Boolean)` on texts: the non-empty ones, in their order. */
  function NonEmpty(parts: seq<string>): (r: seq<string>)
    ensures |r| <= |parts|
    ensures forall x :: x in r <==> x in parts && x != []
    decreases |parts|
  {
    if parts == [] then []
    else
      var rest := NonEmpty(parts[1..]);
      assert parts == [parts[0]] + parts[1..];
      if parts[0] != [] then [parts[0]] + rest else rest
  }

  /** The filter keeps the order: it works block by block. */
  lemma {:induction false} NonEmptyAppend(a: seq<string>, b: seq<string>)
    ensures NonEmpty(a + b) == NonEmpty(a) + NonEmpty(b)
    decreases |a|
  {
    if a == [] {
      assert a + b == b;
    } else {
      assert (a + b)[1..] == a[1..] + b;
      NonEmptyAppend(a[1..], b);
    }
  }

  /** The blank line that separates two blocks. */
  const BlankLine: string := "\n\n"

  /**
   * The commit message: the non-empty blocks joined by blank lines, with
   * surrounding whitespace removed. The message sits inside that join with
   * only whitespace before and after it, and it is empty exactly when
   * every block is blank.
   */
  function Format(a: Answers, columns: int, truncate: Layout, wrap: Layout): (r: string)
    ensures IsTrimmed(r)
    ensures var j := Join(NonEmpty(Parts(a, columns, truncate, wrap)), BlankLine); var i := LeadingWhitespace(j);
      && i + |r| <= |j|
      && j == j[..i] + r + j[i + |r|..]
      && AllWhitespace(j[..i])
      && AllWhitespace(j[i + |r|..])
    ensures r == [] <==> forall x :: x in Parts(a, columns, truncate, wrap) ==> AllWhitespace(x)
  {
    var parts := Parts(a, columns, truncate, wrap);
    var kept := NonEmpty(parts);
    JoinAllWhitespace(kept, BlankLine);
    TrimDecomposes(Join(kept, BlankLine));
    Trim(Join(kept, BlankLine))
  }

  lemma AllWhitespaceConcat(a: string, b: string)
    ensures AllWhitespace(a + b) <==> AllWhitespace(a) && AllWhitespace(b)
  {
    assert forall i :: 0 <= i < |a| ==> (a + b)[i] == a[i];
    assert forall i :: 0 <= i < |b| ==> (a + b)[|a| + i] == b[i];
    if AllWhitespace(a) && AllWhitespace(b) {
      forall i | 0 <= i < |a + b|
        ensures IsWhitespace((a + b)[i])
      {
        if i >= |a| {
          assert (a + b)[i] == b[i - |a|];
        }
      }
    }
  }

  /** Joining with a whitespace separator gives a blank text exactly when every piece is blank. */
  lemma {:induction false} JoinAllWhitespace(parts: seq<string>, sep: string)
    requires AllWhitespace(sep)
    ensures AllWhitespace(Join(parts, sep)) <==> forall x :: x in parts ==> AllWhitespace(x)
    decreases |parts|
  {
    if |parts| > 1 {
      JoinAllWhitespace(parts[1..], sep);
      AllWhitespaceConcat(sep, Join(parts[1..], sep));
      AllWhitespaceConcat(parts[0], sep + Join(parts[1..], sep));
      assert forall x :: x in parts <==> x == parts[0] || x in parts[1..];
    }
  }

  /** A join of non-empty trimmed blocks is itself trimmed. */
  lemma {:induction false} JoinTrimmed(parts: seq<string>, sep: string)
    requires forall x :: x in parts ==> x != [] && IsTrimmed(x)
    ensures IsTrimmed(Join(parts, sep))
    ensures parts != [] ==> Join(parts, sep) != []
    decreases |parts|
  {
    if |parts| > 1 {
      var rest := Join(parts[1..], sep);
      assert forall x :: x in parts[1..] ==> x in parts;
      JoinTrimmed(parts[1..], sep);
      assert parts[0] in parts;
      assert parts[1..][|parts[1..]| - 1] in parts;
      var j := parts[0] + (sep + rest);
      assert j[0] == parts[0][0];
      assert j[|j| - 1] == rest[|rest| - 1];
    } else if |parts| == 1 {
      assert parts[0] in parts;
    }
  }

  /**
   * Trimming only matters at the outer ends: when every block is trimmed,
   * the message is exactly the non-empty blocks separated by blank lines.
   */
  lemma FormatOfTrimmedParts(a: Answers, columns: int, truncate: Layout, wrap: Layout)
    requires forall x :: x in Parts(a, columns, truncate, wrap) ==> IsTrimmed(x)
    ensures Format(a, columns, truncate, wrap) == Join(NonEmpty(Parts(a, columns, truncate, wrap)), BlankLine)
  {
    var kept := NonEmpty(Parts(a, columns, truncate, wrap));
    JoinTrimmed(kept, BlankLine);
    TrimOfTrimmed(Join(kept, BlankLine));
  }

  /** A non-empty first block stays first after the filter. */
  lemma NonEmptyKeepsFirst(parts: seq<string>)
    requires parts != [] && parts[0] != []
    ensures NonEmpty(parts) != [] && NonEmpty(parts)[0] == parts[0]
  {
  }

  /** A non-empty trimmed header opens the message. */
  lemma FormatStartsWithHeader(a: Answers, columns: int, truncate: Layout, wrap: Layout)
    requires var head := truncate(a.subject, columns); head != [] && IsTrimmed(head)
    ensures var head := truncate(a.subject, columns); var r := Format(a, columns, truncate, wrap);
      |r| >= |head| && r[..|head|] == head
  {
    var parts := Parts(a, columns, truncate, wrap);
    NonEmptyKeepsFirst(parts);
    var kept := NonEmpty(parts);
    TrimKeepsStart(Join(kept, BlankLine), parts[0]);
  }

  /** An issues answer that holds a reference puts its footer at the very end of the message. */
  lemma FormatEndsWithFooter(a: Answers, columns: int, truncate: Layout, wrap: Layout)
    requires a.issues.Some? && IssueRefs(a.issues.value) != []
    ensures var footer := FormatIssues(a.issues.value); var r := Format(a, columns, truncate, wrap);
      |r| >= |footer| && r[|r| - |footer|..] == footer
  {
    var parts := Parts(a, columns, truncate, wrap);
    var footer := parts[3];
    var front := NonEmpty(parts[..3]);
    assert NonEmpty(parts) == front + [footer] by {
      assert footer != [];
      assert parts == parts[..3] + [footer];
      NonEmptyAppend(parts[..3], [footer]);
    }
    assert Format(a, columns, truncate, wrap) == Trim(Join(front + [footer], BlankLine));
    FooterTrimmed(a.issues.value);
    assert (front + [footer])[|front + [footer]| - 1] == footer;
    TrimKeepsLastBlock(front + [footer], BlankLine);
  }

  /**
   * The usual message: a trimmed header, a trimmed body, no breaking
   * change and an issues answer with references give exactly three blocks
   * separated by blank lines.
   */
  lemma HeaderBodyFooter(a: Answers, columns: int, truncate: Layout, wrap: Layout)
    requires var head := truncate(a.subject, columns); head != [] && IsTrimmed(head)
    requires var body := wrap(a.body.GetOr(""), columns); body != [] && IsTrimmed(body)
    requires a.breakingBody.None?
    requires a.issues.Some? && IssueRefs(a.issues.value) != []
    ensures Format(a, columns, truncate, wrap)
      == truncate(a.subject, columns) + (BlankLine + (wrap(a.body.GetOr(""), columns)
         + (BlankLine + FormatIssues(a.issues.value))))
  {
    var parts := Parts(a, columns, truncate, wrap);
    FooterTrimmed(a.issues.value);
    FormatOfTrimmedParts(a, columns, truncate, wrap);
    NonEmptyDropsBlank(parts[0], parts[1], parts[3]);
    JoinThree(parts[0], parts[1], parts[3], BlankLine);
  }

  /** The filter drops the one empty block among four. */
  lemma NonEmptyDropsBlank(head: string, body: string, footer: string)
    requires head != [] && body != [] && footer != []
    ensures NonEmpty([head, body, "", footer]) == [head, body, footer]
  {
    assert [head, body, "", footer] == [head, body] + ["", footer];
    NonEmptyAppend([head, body], ["", footer]);
    assert NonEmpty([head, body]) == [head] + NonEmpty([body]);
    assert NonEmpty(["", footer]) == NonEmpty([footer]);
  }

  /** Three blocks joined: the first, the separator, the second, the separator, the third. */
  lemma JoinThree(head: string, body: string, footer: string, sep: string)
    ensures Join([head, body, footer], sep) == head + (sep + (body + (sep + footer)))
  {
    assert [head, body, footer][1..] == [body, footer];
    assert [body, footer][1..] == [footer];
    assert Join([body, footer], sep) == body + (sep + footer);
  }
}
