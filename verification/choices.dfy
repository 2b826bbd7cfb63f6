/**
 * The choice builder (`getEmojiChoices`): turns the configured commit types
 * into aligned entries for the type question's list.
 */
module Choices {
  import opened Text

  /** One entry of the configured type list. */
  datatype CommitType = CommitType(code: string, name: string, emoji: string, description: string)

  /** What choosing a type contributes to the answers: the glyph or code, and the type's name. */
  datatype ChoiceValue = ChoiceValue(emoji: string, name: string)

  /** One list entry: the aligned display text, the value chosen, and the type's code. */
  datatype Choice = Choice(name: string, value: ChoiceValue, code: string)

  /**
   * The left fold `types.reduce(..., 0)` that keeps the longest name length
   * seen so far, starting from `acc`.
   */
  function FoldMaxNameLength(types: seq<CommitType>, acc: nat): (m: nat)
    ensures acc <= m
    ensures forall i :: 0 <= i < |types| ==> |types[i].name| <= m
    ensures m == acc || exists i :: 0 <= i < |types| && m == |types[i].name|
    decreases |types|
  {
    if types == [] then acc
    else
      var next := if |types[0].name| > acc then |types[0].name| else acc;
      var m := FoldMaxNameLength(types[1..], next);
      assert forall i :: 1 <= i < |types| ==> types[1..][i - 1] == types[i];
      m
  }

  /** The width every name is padded to: the longest name's length, or 0 without types. */
  function MaxNameLength(types: seq<CommitType>): (m: nat)
    ensures forall i :: 0 <= i < |types| ==> |types[i].name| <= m
    ensures types == [] ==> m == 0
    ensures types != [] ==> exists i :: 0 <= i < |types| && m == |types[i].name|
  {
    var m := FoldMaxNameLength(types, 0);
    assert types != [] && m == 0 ==> m == |types[0].name|;
    m
  }

  /** The value of a choice: the glyph followed by a space when `symbol` is set, otherwise the code. */
  function ValueOf(t: CommitType, symbol: bool): ChoiceValue {
    ChoiceValue(if symbol then t.emoji + " " else t.code, t.name)
  }

  /**
   * How a choice shows type `t` at display width `w`: it keeps the code,
   * its value is ValueOf, and its display text is the name, spaces up to
   * `w`, then two spaces, the glyph, two spaces and the description.
   */
  predicate Shows(c: Choice, t: CommitType, w: nat, symbol: bool) {
    && c.code == t.code
    && c.value.name == t.name
    && c.value.emoji == (if symbol then t.emoji + " " else t.code)
    && |t.name| <= w && |c.name| >= w + 2
    && c.name[..|t.name|] == t.name
    && (forall k :: |t.name| <= k < w ==> c.name[k] == ' ')
    && c.name[w..] == "  " + (t.emoji + ("  " + t.description))
  }

  /** The choice for one type at display width `width`. */
  function MakeChoice(t: CommitType, width: nat, symbol: bool): (c: Choice)
    requires |t.name| <= width
    ensures Shows(c, t, width, symbol)
  {
    var padded := PadRight(t.name, width);
    var c := Choice(padded + ("  " + (t.emoji + ("  " + t.description))), ValueOf(t, symbol), t.code);
    assert c.name[..|padded|] == padded;
    c
  }

  /**
   * One choice per type, in order, all at the width of the longest name,
   * so the glyph column starts at the same offset in every display text.
   */
  function EmojiChoices(types: seq<CommitType>, symbol: bool): (r: seq<Choice>)
    ensures |r| == |types|
    ensures forall i :: 0 <= i < |r| ==> Shows(r[i], types[i], MaxNameLength(types), symbol)
  {
    var w := MaxNameLength(types);
    seq(|types|, i requires 0 <= i < |types| => MakeChoice(types[i], w, symbol))
  }

  /** Two choices built from one list put their glyph columns at the same offset. */
  lemma ChoicesAligned(types: seq<CommitType>, symbol: bool, i: nat, j: nat)
    requires i < |types| && j < |types|
    ensures var r := EmojiChoices(types, symbol); var w := MaxNameLength(types);
      r[i].name[w..w + 2] == r[j].name[w..w + 2] == "  "
  {
    var r := EmojiChoices(types, symbol);
    var w := MaxNameLength(types);
    GapAt(r[i], types[i], w, symbol);
    GapAt(r[j], types[j], w, symbol);
  }

  /** A choice showing a type at width `w` has two spaces at `w`. */
  lemma GapAt(c: Choice, t: CommitType, w: nat, symbol: bool)
    requires Shows(c, t, w, symbol)
    ensures c.name[w..w + 2] == "  "
  {
    assert c.name[w] == c.name[w..][0];
    assert c.name[w + 1] == c.name[w..][1];
  }
}
