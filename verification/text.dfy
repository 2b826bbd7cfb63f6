/**
 * The JavaScript string primitives the adapter relies on: `trim`, `split`
 * on one character, `join`, the `pad` library's right padding, and the
 * decimal rendering of a number inside a template string.
 */
module Text {

  /** The characters `String.prototype.trim` removes (WhiteSpace and LineTerminator). */
  predicate IsWhitespace(c: char) {
    c == '\t' || c == '\n' || c == '\U{000B}' || c == '\U{000C}' || c == '\r' || c == ' '
    || c == '\U{00A0}' || c == '\U{1680}' || ('\U{2000}' <= c <= '\U{200A}')
    || c == '\U{2028}' || c == '\U{2029}' || c == '\U{202F}' || c == '\U{205F}'
    || c == '\U{3000}' || c == '\U{FEFF}'
  }

  predicate AllWhitespace(s: string) {
    forall i :: 0 <= i < |s| ==> IsWhitespace(s[i])
  }

  /** Neither end of `s` is whitespace. */
  predicate IsTrimmed(s: string) {
    s == [] || (!IsWhitespace(s[0]) && !IsWhitespace(s[|s| - 1]))
  }

  /** The ASCII digits, which is what `\d` matches in a JavaScript regular expression. */
  predicate IsDigit(c: char) {
    '0' <= c <= '9'
  }

  /** How many whitespace characters `s` starts with. */
  function LeadingWhitespace(s: string): (n: nat)
    ensures n <= |s|
    ensures forall i :: 0 <= i < n ==> IsWhitespace(s[i])
    ensures n == |s| || !IsWhitespace(s[n])
    decreases |s|
  {
    if s != [] && IsWhitespace(s[0]) then
      var n := 1 + LeadingWhitespace(s[1..]);
      assert forall i :: 1 <= i < n ==> s[i] == s[1..][i - 1];
      n
    else
      0
  }

  /** How many whitespace characters `s` ends with. */
  function TrailingWhitespace(s: string): (n: nat)
    ensures n <= |s|
    ensures forall i :: |s| - n <= i < |s| ==> IsWhitespace(s[i])
    ensures n == |s| || !IsWhitespace(s[|s| - n - 1])
    decreases |s|
  {
    if s != [] && IsWhitespace(s[|s| - 1]) then
      var n := 1 + TrailingWhitespace(s[..|s| - 1]);
      assert forall i :: |s| - n <= i < |s| - 1 ==> s[i] == s[..|s| - 1][i];
      n
    else
      0
  }

  /** `s` with its leading whitespace removed: a suffix of `s`. */
  function TrimStart(s: string): (r: string)
    ensures |r| <= |s| && r == s[|s| - |r|..]
    ensures AllWhitespace(s[..|s| - |r|])
    ensures r == [] || !IsWhitespace(r[0])
  {
    var n := LeadingWhitespace(s);
    assert forall i :: 0 <= i < n ==> s[..n][i] == s[i];
    s[n..]
  }

  /** `s` with its trailing whitespace removed: a prefix of `s`. */
  function TrimEnd(s: string): (r: string)
    ensures |r| <= |s| && r == s[..|r|]
    ensures AllWhitespace(s[|r|..])
    ensures r == [] || !IsWhitespace(r[|r| - 1])
  {
    var k := |s| - TrailingWhitespace(s);
    assert forall i :: 0 <= i < |s| - k ==> s[k..][i] == s[k + i];
    s[..k]
  }

  /**
   * `String.prototype.trim`: the result is the part of `s` between its
   * leading and its trailing whitespace (see TrimDecomposes), and is empty
   * exactly when `s` is whitespace only.
   */
  function Trim(s: string): (r: string)
    ensures IsTrimmed(r)
    ensures r == [] <==> AllWhitespace(s)
  {
    TrimDecomposes(s);
    TrimEnd(TrimStart(s))
  }

  /** What trimming removes is whitespace: `s` is whitespace, then `Trim(s)`, then whitespace. */
  lemma TrimDecomposes(s: string)
    ensures var r := TrimEnd(TrimStart(s)); var i := |s| - |TrimStart(s)|;
      && i + |r| <= |s|
      && s == s[..i] + r + s[i + |r|..]
      && AllWhitespace(s[..i])
      && AllWhitespace(s[i + |r|..])
  {
    var t := TrimStart(s);
    var r := TrimEnd(t);
    var i := |s| - |t|;
    SliceAround(s, i, t, r);
  }

  /** Cutting a prefix `r` out of the suffix `t` of `s` that starts at `i`. */
  lemma SliceAround(s: string, i: nat, t: string, r: string)
    requires i <= |s| && t == s[i..] && |r| <= |t| && r == t[..|r|]
    ensures i + |r| <= |s| && t[|r|..] == s[i + |r|..]
    ensures s == s[..i] + r + s[i + |r|..]
  {
    assert s == s[..i] + t;
    assert t == r + t[|r|..];
  }

  lemma TrimOfTrimmed(s: string)
    requires IsTrimmed(s)
    ensures Trim(s) == s
  {
  }

  lemma TrimIdempotent(s: string)
    ensures Trim(Trim(s)) == Trim(s)
  {
    TrimOfTrimmed(Trim(s));
  }

  /** Trimming keeps a trimmed, non-empty ending whole at the end. */
  lemma TrimKeepsEnd(s: string, tail: string)
    requires tail != [] && IsTrimmed(tail)
    requires |s| >= |tail| && s[|s| - |tail|..] == tail
    ensures var r := Trim(s); |r| >= |tail| && r[|r| - |tail|..] == tail
  {
    assert s[|s| - 1] == tail[|tail| - 1];
    TrimStartKeeps(s, |s| - |tail|);
    var t := TrimStart(s);
    assert t[|t| - |tail|..] == tail;
    assert t[|t| - 1] == tail[|tail| - 1];
    assert TrimEnd(t) == t;
  }

  /** Trimming keeps a trimmed, non-empty beginning whole at the start. */
  lemma TrimKeepsStart(s: string, head: string)
    requires head != [] && IsTrimmed(head)
    requires |s| >= |head| && s[..|head|] == head
    ensures var r := Trim(s); |r| >= |head| && r[..|head|] == head
  {
    assert s[0] == head[0];
    assert TrimStart(s) == s;
    TrimEndKeeps(s, |head| - 1);
  }

  /** Trimming keeps every character up to a non-whitespace one: the kept part reaches past `k`. */
  lemma TrimEndKeeps(s: string, k: nat)
    requires k < |s| && !IsWhitespace(s[k])
    ensures |TrimEnd(s)| > k
  {
  }

  /** The mirror image of TrimEndKeeps. */
  lemma TrimStartKeeps(s: string, k: nat)
    requires k < |s| && !IsWhitespace(s[k])
    ensures |TrimStart(s)| >= |s| - k
  {
  }

  /** `parts.join(sep)`: empty for no parts, otherwise starting with the first part. */
  function Join(parts: seq<string>, sep: string): (r: string)
    ensures parts == [] ==> r == []
    ensures parts != [] ==> |r| >= |parts[0]| && r[..|parts[0]|] == parts[0]
    decreases |parts|
  {
    if |parts| == 0 then ""
    else if |parts| == 1 then parts[0]
    else parts[0] + (sep + Join(parts[1..], sep))
  }

  /** A join ends with its last piece. */
  lemma {:induction false} JoinEndsWithLast(parts: seq<string>, sep: string)
    requires parts != []
    ensures var j := Join(parts, sep); var last := parts[|parts| - 1];
      |j| >= |last| && j[|j| - |last|..] == last
    decreases |parts|
  {
    if |parts| > 1 {
      JoinEndsWithLast(parts[1..], sep);
    }
  }

  /** A non-empty trimmed last piece closes the joined pieces, and trimming keeps it. */
  lemma TrimKeepsLastBlock(blocks: seq<string>, sep: string)
    requires blocks != [] && blocks[|blocks| - 1] != [] && IsTrimmed(blocks[|blocks| - 1])
    ensures var r := Trim(Join(blocks, sep)); var last := blocks[|blocks| - 1];
      |r| >= |last| && r[|r| - |last|..] == last
  {
    var j, last := Join(blocks, sep), blocks[|blocks| - 1];
    assert |j| >= |last| && j[|j| - |last|..] == last by {
      JoinEndsWithLast(blocks, sep);
    }
    TrimKeepsEnd(j, last);
  }

  /**
   * `s.split(sep)` for a one-character separator: the pieces between
   * separators, empty pieces included, so there is always at least one.
   */
  function Split(s: string, sep: char): (r: seq<string>)
    ensures |r| >= 1
    ensures |r| == 1 ==> r[0] == s
    decreases |s|
  {
    if s == [] then [[]]
    else
      var rest := Split(s[1..], sep);
      if s[0] == sep then
        [[]] + rest
      else
        [[s[0]] + rest[0]] + rest[1..]
  }

  /** No piece holds the separator, and there is more than one piece exactly when the text holds it. */
  lemma {:induction false} SplitPieces(s: string, sep: char)
    ensures var r := Split(s, sep);
      && (forall k :: 0 <= k < |r| ==> sep !in r[k])
      && (|r| > 1 <==> sep in s)
    decreases |s|
  {
    if s != [] {
      SplitPieces(s[1..], sep);
      var rest := Split(s[1..], sep);
      assert s == [s[0]] + s[1..];
      if s[0] != sep {
        var r := Split(s, sep);
        assert forall k :: 1 <= k < |r| ==> r[k] == rest[k];
      }
    }
  }

  /** The last piece of a split is the text after the last separator (all of `s` when there is none). */
  lemma {:induction false} SplitLast(s: string, sep: char)
    ensures var r := Split(s, sep); var last := r[|r| - 1];
      && |last| <= |s| && last == s[|s| - |last|..]
      && (|r| > 1 ==> |last| < |s| && s[|s| - |last| - 1] == sep)
    decreases |s|
  {
    if s != [] {
      SplitLast(s[1..], sep);
      SplitLastStep(s, sep);
      var rest := Split(s[1..], sep);
      var last := rest[|rest| - 1];
      if s[0] != sep && |rest| == 1 {
        assert s[0..] == s;
      } else {
        assert s[1..][|s| - 1 - |last|..] == s[|s| - |last|..];
        if |rest| > 1 {
          assert s[1..][|s| - 1 - |last| - 1] == s[|s| - |last| - 1];
        } else {
          assert last == s[1..];
        }
      }
    }
  }

  /** How the last piece of a non-empty text relates to the last piece of its tail. */
  lemma SplitLastStep(s: string, sep: char)
    requires s != []
    ensures var r, rest := Split(s, sep), Split(s[1..], sep);
      && r[|r| - 1] == (if s[0] != sep && |rest| == 1 then s else rest[|rest| - 1])
      && (|r| > 1 <==> s[0] == sep || |rest| > 1)
  {
    var rest := Split(s[1..], sep);
    if s[0] == sep {
      LastOfCons([], rest);
    } else {
      assert Split(s, sep) == [[s[0]] + rest[0]] + rest[1..];
      if |rest| == 1 {
        assert s == [s[0]] + rest[0];
      } else {
        LastOfCons([s[0]] + rest[0], rest[1..]);
      }
    }
  }

  lemma LastOfCons<T>(x: T, xs: seq<T>)
    requires xs != []
    ensures ([x] + xs)[|xs|] == xs[|xs| - 1]
  {
  }

  /** A separator that occurs in `s` lies before any suffix of `s` that is free of it. */
  lemma SepBeforeSuffix(s: string, x: string, sep: char, j: int)
    requires |x| <= |s| && x == s[|s| - |x|..] && sep !in x
    requires 0 <= j < |s| && s[j] == sep
    ensures j < |s| - |x|
  {
    forall i | |s| - |x| <= i < |s|
      ensures s[i] != sep
    {
      assert s[i] == x[i - (|s| - |x|)];
    }
  }

  /** Joining the pieces of a split with the separator gives back the original text. */
  lemma {:induction false} SplitJoin(s: string, sep: char)
    ensures Join(Split(s, sep), [sep]) == s
    decreases |s|
  {
    if s != [] {
      var rest := Split(s[1..], sep);
      SplitJoin(s[1..], sep);
      assert s == [s[0]] + s[1..];
      if s[0] != sep {
        SplitJoinCons(s[0], rest, sep);
      } else {
        SplitJoinSep(rest, sep);
      }
    }
  }

  /** Joining after an empty first piece puts the separator in front. */
  lemma SplitJoinSep(pieces: seq<string>, sep: char)
    requires |pieces| >= 1
    ensures Join([[]] + pieces, [sep]) == [sep] + Join(pieces, [sep])
  {
    assert ([[]] + pieces)[1..] == pieces;
  }

  /** Gluing a character onto the first piece glues it onto the front of the join. */
  lemma SplitJoinCons(c: char, pieces: seq<string>, sep: char)
    requires |pieces| >= 1
    ensures Join([[c] + pieces[0]] + pieces[1..], [sep]) == [c] + Join(pieces, [sep])
  {
    var r := [[c] + pieces[0]] + pieces[1..];
    if |pieces| > 1 {
      assert r[1..] == pieces[1..];
      ConsAppend(c, pieces[0], [sep] + Join(pieces[1..], [sep]));
    }
  }

  /** Concatenation regroups around a leading element. */
  lemma ConsAppend<T>(x: T, p: seq<T>, q: seq<T>)
    ensures [x] + (p + q) == ([x] + p) + q
  {
  }

  function Spaces(n: nat): (r: string)
    ensures |r| == n && forall i :: 0 <= i < n ==> r[i] == ' '
  {
    seq(n, _ => ' ')
  }

  /**
   * The `pad` library's `pad(text, length)`: `s` followed by spaces up to
   * `width` characters; a text already that long is returned unchanged.
   */
  function PadRight(s: string, width: int): (r: string)
    ensures |r| == if |s| >= width then |s| else width
    ensures r[..|s|] == s
    ensures forall i :: |s| <= i < |r| ==> r[i] == ' '
  {
    if |s| >= width then s else s + Spaces(width - |s|)
  }

  function DigitChar(d: nat): (c: char)
    requires d < 10
    ensures IsDigit(c)
  {
    "0123456789"[d]
  }

  function DigitValue(c: char): nat
    requires IsDigit(c)
  {
    (c as int - '0' as int) as nat
  }

  predicate AllDigits(s: string) {
    forall i :: 0 <= i < |s| ==> IsDigit(s[i])
  }

  /** The decimal text JavaScript produces for a non-negative integer in a template string. */
  function NatToDecimal(n: nat): (r: string)
    ensures |r| >= 1 && AllDigits(r)
    ensures n > 0 ==> r[0] != '0'
    decreases n
  {
    if n < 10 then [DigitChar(n)] else NatToDecimal(n / 10) + [DigitChar(n % 10)]
  }

  /** The number a string of decimal digits denotes. */
  function DecimalValue(s: string): nat
    requires AllDigits(s)
    decreases |s|
  {
    if s == [] then 0 else DecimalValue(s[..|s| - 1]) * 10 + DigitValue(s[|s| - 1])
  }

  /** Reading back the decimal rendering gives the number. */
  lemma {:induction false} DecimalRoundTrip(n: nat)
    ensures DecimalValue(NatToDecimal(n)) == n
    decreases n
  {
    var r := NatToDecimal(n);
    if n < 10 {
      assert r[..0] == [];
    } else {
      DecimalRoundTrip(n / 10);
      assert r[..|r| - 1] == NatToDecimal(n / 10);
    }
  }
}
