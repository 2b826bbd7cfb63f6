/**
 * The issue footer (`formatIssues`): every `#<digits>` reference in the
 * issues answer, in order, behind "Closes " and joined by ", closes ".
 */
module Issues {
  import opened Text

  /** The length of the run of digits at the front of `s`. */
  function DigitRun(s: string): (n: nat)
    ensures n <= |s|
    ensures forall i :: 0 <= i < n ==> IsDigit(s[i])
    ensures n < |s| ==> !IsDigit(s[n])
    decreases |s|
  {
    if s != [] && IsDigit(s[0]) then 1 + DigitRun(s[1..]) else 0
  }

  /** A text the pattern `#\d+` matches as a whole. */
  predicate IsIssueRef(t: string) {
    |t| >= 2 && t[0] == '#' && forall i :: 1 <= i < |t| ==> IsDigit(t[i])
  }

  /**
   * `s.match(/#\d+/g)`: scanning left to right, each `#` followed by a
   * digit starts a match that takes the longest run of digits after it;
   * the scan resumes after the match.
   */
  function IssueRefs(s: string): (r: seq<string>)
    ensures forall k :: 0 <= k < |r| ==> IsIssueRef(r[k])
    decreases |s|
  {
    if |s| < 2 then []
    else if s[0] == '#' && IsDigit(s[1]) then
      var n := 1 + DigitRun(s[1..]);
      [s[..n]] + IssueRefs(s[n..])
    else
      IssueRefs(s[1..])
  }

  /** The places where a reference starts: a `#` directly followed by a digit. */
  function RefStarts(s: string): nat
    decreases |s|
  {
    if |s| < 2 then 0
    else (if s[0] == '#' && IsDigit(s[1]) then 1 else 0) + RefStarts(s[1..])
  }

  /** A run of digits holds no reference start, so skipping it leaves the count unchanged. */
  lemma {:induction false} RefStartsSkipDigits(s: string, n: nat)
    requires n <= |s| && forall i :: 0 <= i < n ==> IsDigit(s[i])
    ensures RefStarts(s) == RefStarts(s[n..])
    decreases n
  {
    if n > 0 {
      assert s[1..][n - 1..] == s[n..];
      RefStartsSkipDigits(s[1..], n - 1);
    }
  }

  /** Every `#` followed by a digit yields exactly one reference, so none is missed. */
  lemma {:induction false} IssueRefsCount(s: string)
    ensures |IssueRefs(s)| == RefStarts(s)
    decreases |s|
  {
    if |s| >= 2 {
      if s[0] == '#' && IsDigit(s[1]) {
        var n := 1 + DigitRun(s[1..]);
        assert s[1..][n - 1..] == s[n..];
        RefStartsSkipDigits(s[1..], n - 1);
        IssueRefsCount(s[n..]);
      } else {
        IssueRefsCount(s[1..]);
      }
    }
  }

  /** A digit run that ends at the end of `a` ends there in `a + b` too, when `b` does not start with a digit. */
  lemma {:induction false} DigitRunAppend(a: string, b: string)
    requires b == [] || !IsDigit(b[0])
    ensures DigitRun(a + b) == DigitRun(a)
    decreases |a|
  {
    if a == [] {
      assert a + b == b;
    } else {
      assert (a + b)[1..] == a[1..] + b;
      DigitRunAppend(a[1..], b);
    }
  }

  /**
   * No match crosses a boundary followed by a non-digit, so the references
   * of `a + b` are those of `a` followed by those of `b`.
   */
  lemma {:induction false} IssueRefsAppend(a: string, b: string)
    requires b == [] || !IsDigit(b[0])
    ensures IssueRefs(a + b) == IssueRefs(a) + IssueRefs(b)
    decreases |a|, 1
  {
    if a == [] {
      assert a + b == b;
    } else if |a + b| < 2 {
      assert b == [] && a + b == a;
    } else if |a| >= 2 && a[0] == '#' && IsDigit(a[1]) {
      IssueRefsAppendAtRef(a, b);
    } else {
      assert (a + b)[0] == a[0];
      assert (a + b)[1] == if |a| >= 2 then a[1] else b[0];
      IssueRefsAppendElsewhere(a, b);
    }
  }

  /** IssueRefsAppend when `a` starts with a reference: the match stays inside `a`. */
  lemma {:induction false} IssueRefsAppendAtRef(a: string, b: string)
    requires b == [] || !IsDigit(b[0])
    requires |a| >= 2 && a[0] == '#' && IsDigit(a[1])
    ensures IssueRefs(a + b) == IssueRefs(a) + IssueRefs(b)
    decreases |a|, 0
  {
    var n := 1 + DigitRun(a[1..]);
    FirstRefInPrefix(a, b);
    IssueRefsAppend(a[n..], b);
    ConsAppend(a[..n], IssueRefs(a[n..]), IssueRefs(b));
  }

  /** The first match of `a + b` is the one of `a`, when `a` starts with a reference and `b` with a non-digit. */
  lemma FirstRefInPrefix(a: string, b: string)
    requires b == [] || !IsDigit(b[0])
    requires |a| >= 2 && a[0] == '#' && IsDigit(a[1])
    ensures var n := 1 + DigitRun(a[1..]);
      IssueRefs(a + b) == [a[..n]] + IssueRefs(a[n..] + b)
  {
    var s := a + b;
    var n := 1 + DigitRun(a[1..]);
    assert s[0] == '#' && IsDigit(s[1]);
    assert s[1..] == a[1..] + b;
    DigitRunAppend(a[1..], b);
    assert s[..n] == a[..n];
    assert s[n..] == a[n..] + b;
  }

  /** IssueRefsAppend when no reference starts at the front of `a + b`: the scan moves one character on. */
  lemma {:induction false} IssueRefsAppendElsewhere(a: string, b: string)
    requires b == [] || !IsDigit(b[0])
    requires a != [] && |a + b| >= 2
    requires !((a + b)[0] == '#' && IsDigit((a + b)[1]))
    ensures IssueRefs(a + b) == IssueRefs(a) + IssueRefs(b)
    decreases |a|, 0
  {
    var s := a + b;
    assert s[1..] == a[1..] + b;
    IssueRefsAppend(a[1..], b);
    assert IssueRefs(a) == IssueRefs(a[1..]) by {
      if |a| >= 2 {
        assert a[0] == s[0] && a[1] == s[1];
      }
    }
  }

  /** A single reference is found as itself. */
  lemma IssueRefsOfRef(t: string)
    requires IsIssueRef(t)
    ensures IssueRefs(t) == [t]
  {
    var n := 1 + DigitRun(t[1..]);
    assert n == |t|;
    assert t[..n] == t;
  }

  /** A text without `#` holds no reference. */
  lemma {:induction false} IssueRefsNoHash(s: string)
    requires '#' !in s
    ensures IssueRefs(s) == []
    decreases |s|
  {
    if |s| >= 2 {
      assert s[0] != '#';
      IssueRefsNoHash(s[1..]);
    }
  }

  /** The text placed between two references in the footer. */
  const Separator: string := ", closes "

  /** A join of references starts with `#`. */
  lemma JoinStartsWithHash(refs: seq<string>, sep: string)
    requires refs != [] && IsIssueRef(refs[0])
    ensures Join(refs, sep) != [] && Join(refs, sep)[0] == '#'
  {
    if |refs| > 1 {
      assert Join(refs, sep) == refs[0] + (sep + Join(refs[1..], sep));
    }
  }

  /** One reference, then the separator, then text starting with `#`: the scan finds the reference first. */
  lemma IssueRefsStep(head: string, sep: string, rest: string)
    requires IsIssueRef(head)
    requires '#' !in sep && (sep == [] || !IsDigit(sep[0]))
    requires rest == [] || rest[0] == '#'
    ensures IssueRefs(head + (sep + rest)) == [head] + IssueRefs(rest)
  {
    var tail := sep + rest;
    assert IssueRefs(tail) == IssueRefs(rest) by {
      IssueRefsNoHash(sep);
      IssueRefsAppend(sep, rest);
      assert IssueRefs(sep) + IssueRefs(rest) == IssueRefs(rest);
    }
    assert IssueRefs(head + tail) == [head] + IssueRefs(tail) by {
      assert tail == [] || !IsDigit(tail[0]);
      IssueRefsAppend(head, tail);
      IssueRefsOfRef(head);
    }
  }

  /**
   * Scanning references joined by a separator that holds no `#` and does
   * not start with a digit finds exactly the references again.
   */
  lemma {:induction false} IssueRefsOfJoin(refs: seq<string>, sep: string)
    requires forall k :: 0 <= k < |refs| ==> IsIssueRef(refs[k])
    requires '#' !in sep && (sep == [] || !IsDigit(sep[0]))
    ensures IssueRefs(Join(refs, sep)) == refs
    decreases |refs|
  {
    if |refs| == 1 {
      IssueRefsOfRef(refs[0]);
    } else if |refs| > 1 {
      IssueRefsOfJoin(refs[1..], sep);
      JoinStartsWithHash(refs[1..], sep);
      var rest := Join(refs[1..], sep);
      IssueRefsStep(refs[0], sep, rest);
      assert refs == [refs[0]] + refs[1..];
    }
  }

  /**
   * The footer line. An empty issues answer gives no footer; any other
   * is "Closes " followed by the references of the answer, in order,
   * duplicates kept, separated by ", closes ", and scanning it again finds
   * exactly those references.
   */
  function FormatIssues(issues: string): (r: string)
    ensures r == [] <==> issues == []
    ensures issues != [] ==> r == "Closes " + Join(IssueRefs(issues), Separator)
    ensures issues != [] ==> |r| >= 7 && r[..7] == "Closes " && IssueRefs(r) == IssueRefs(issues)
    ensures issues != [] && IssueRefs(issues) == [] ==> r == "Closes "
  {
    if issues != [] then
      var refs := IssueRefs(issues);
      var joined := Join(refs, Separator);
      IssueRefsOfJoin(refs, Separator);
      IssueRefsNoHash("Closes ");
      assert joined == [] || joined[0] == '#' by {
        if refs != [] {
          JoinStartsWithHash(refs, Separator);
        }
      }
      IssueRefsAppend("Closes ", joined);
      "Closes " + joined
    else
      ""
  }

  /** Text without `#` in front of a non-digit contributes no reference. */
  lemma IssueRefsSkip(prefix: string, rest: string)
    requires '#' !in prefix && (rest == [] || !IsDigit(rest[0]))
    ensures IssueRefs(prefix + rest) == IssueRefs(rest)
  {
    IssueRefsNoHash(prefix);
    IssueRefsAppend(prefix, rest);
  }

  /** A footer that holds a reference has no surrounding whitespace: it ends with a digit. */
  lemma FooterTrimmed(issues: string)
    requires IssueRefs(issues) != []
    ensures IsTrimmed(FormatIssues(issues))
  {
    var j := Join(IssueRefs(issues), Separator);
    JoinOfRefsEndsWithDigit(IssueRefs(issues), Separator);
    var f := FormatIssues(issues);
    assert f == "Closes " + j;
    assert f[0] == 'C';
    assert f[|f| - 1] == j[|j| - 1];
  }

  /** References joined by any separator end with the last digit of the last reference. */
  lemma JoinOfRefsEndsWithDigit(refs: seq<string>, sep: string)
    requires refs != [] && IsIssueRef(refs[|refs| - 1])
    ensures var j := Join(refs, sep); j != [] && IsDigit(j[|j| - 1])
  {
    JoinEndsWithLast(refs, sep);
    var j, last := Join(refs, sep), refs[|refs| - 1];
    assert j[|j| - 1] == j[|j| - |last|..][|last| - 1];
  }

  /** The references of an issues text with a repeated reference, `fixes #12 and #7, see #12`, piece by piece. */
  lemma ExampleRefs()
    ensures IssueRefs("fixes " + ("#12" + (" and " + ("#7" + (", see " + "#12"))))) == ["#12", "#7", "#12"]
  {
    IssueRefsOfRef("#12");
    IssueRefsStep("#7", ", see ", "#12");
    IssueRefsStep("#12", " and ", "#7" + (", see " + "#12"));
    IssueRefsSkip("fixes ", "#12" + (" and " + ("#7" + (", see " + "#12"))));
  }

  /**
   * The footer for an issues text with a repeated reference
   * (`fixes #12 and #7, see #12`, written piece by piece) keeps the order
   * and the repeated `#12`.
   */
  lemma FooterExample()
    ensures FormatIssues("fixes " + ("#12" + (" and " + ("#7" + (", see " + "#12")))))
         == "Closes #12, closes #7, closes #12"
  {
    assert "Closes " + ("#12" + (Separator + ("#7" + (Separator + "#12"))))
        == "Closes #12, closes #7, closes #12";
    var refs := ["#12", "#7", "#12"];
    ExampleRefs();
    assert refs[1..] == ["#7", "#12"] && refs[1..][1..] == ["#12"];
    assert Join(refs, Separator) == "#12" + (Separator + ("#7" + (Separator + "#12")));
  }
}
