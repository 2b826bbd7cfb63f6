/** The subject question's `validate` callback. */
module Subject {
  import opened Text

  /** What `validate` returns: `true`, or the message shown before asking again. */
  datatype Verdict = Accept | Reject(message: string)

  /** "A description of the change is required". */
  const Required: string := "须输入改动描述"

  /** ", at least this long: ", followed by the minimum length. */
  const AtLeast: string := "，长度不少于"

  /**
   * The text after the last space of `s` (all of `s` when it has no space),
   * defined from the back, independently of Split.
   */
  function LastWord(s: string): (w: string)
    ensures |w| <= |s| && w == s[|s| - |w|..]
    ensures ' ' !in w
    ensures |w| < |s| ==> s[|s| - |w| - 1] == ' '
    decreases |s|
  {
    if s == [] || s[|s| - 1] == ' ' then []
    else
      var w := LastWord(s[..|s| - 1]) + [s[|s| - 1]];
      assert s[..|s| - 1][|s| - |w|..] + [s[|s| - 1]] == s[|s| - |w|..];
      w
  }

  /** The last piece of `split(' ')` is the last word. */
  lemma LastPieceIsLastWord(s: string)
    ensures var pieces := Split(s, ' '); pieces[|pieces| - 1] == LastWord(s)
  {
    var pieces := Split(s, ' ');
    var p, w := pieces[|pieces| - 1], LastWord(s);
    SplitLast(s, ' ');
    SplitPieces(s, ' ');
    if |pieces| > 1 {
      SepBeforeSuffix(s, w, ' ', |s| - |p| - 1);
    }
    if |w| < |s| {
      SepBeforeSuffix(s, p, ' ', |s| - |w| - 1);
    }
  }

  /** The rejection message: it names the minimum length, in decimal, only when that is above 1. */
  function RejectMessage(minLength: int): (m: string)
    ensures minLength <= 1 ==> m == Required
    ensures minLength > 1 ==>
      var n := |Required + AtLeast|;
      && |m| > n
      && m[..n] == Required + AtLeast
      && AllDigits(m[n..])
      && m[n] != '0'
      && DecimalValue(m[n..]) == minLength
  {
    if minLength > 1 then
      var digits := NatToDecimal(minLength);
      var m := Required + AtLeast + digits;
      assert m[|Required + AtLeast|..] == digits;
      DecimalRoundTrip(minLength);
      m
    else
      Required
  }

  /**
   * `validate(value)` with the configured minimum length: the subject is
   * accepted exactly when it holds a space and the text after its last
   * space is longer than the minimum.
   */
  function Validate(value: string, minLength: int): (r: Verdict)
    ensures r.Accept? <==> ' ' in value && |LastWord(value)| > minLength
    ensures r.Reject? ==> r.message == RejectMessage(minLength)
  {
    var pieces := Split(value, ' ');
    SplitPieces(value, ' ');
    LastPieceIsLastWord(value);
    if |pieces| > 1 && |pieces[|pieces| - 1]| > minLength then Accept
    else Reject(RejectMessage(minLength))
  }

  /** A subject ending in a space is always rejected, whatever it holds before. */
  lemma TrailingSpaceRejected(value: string, minLength: int)
    requires minLength >= 0
    requires value != [] && value[|value| - 1] == ' '
    ensures Validate(value, minLength).Reject?
  {
  }

  /** `fix bug` passes the default minimum of 2: two words, the last of length 3. */
  lemma TwoWordsAccepted()
    ensures Validate("fix" + " " + "bug", 2) == Accept
  {
    assert LastWord("fix" + " " + "bug") == "bug";
  }

  /** `fixbug` is one word and is rejected with the message naming the minimum. */
  lemma OneWordRejected()
    ensures Validate("fixbug", 2).Reject?
  {
  }

  /** `fix it` has a last word of length 2, which is not longer than 2. */
  lemma ShortLastWordRejected()
    ensures Validate("fix" + " " + "it", 2).Reject?
  {
    assert LastWord("fix" + " " + "it") == "it";
  }
}
