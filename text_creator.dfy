/**
 * TextCreatorUtils: the answer text of a challenge is LENGTH characters,
 * each drawn from a fixed 36-slot table from which easily confused glyphs
 * have been removed. The process-wide `java.util.Random` becomes the
 * parameter `rolls`: the successive values of `random.nextInt(36)`.
 */
module TextCreator {

  /** charSequence: 36 slots; 'n' occupies two of them. */
  const CharSequence: seq<char> :=
    [ 'A', 'B', 'D', 'E', 'F', 'G',
      'H', 'J', 'K', 'P', 'Q', 'R',
      'T', 'Y', 'Z', '2', '3', '4',
      '5', '6', '7', '8', '9', 'a',
      'b', 'c', 'd', 'e', 'f', 'y',
      'n', 'm', 'n', 'p', 'w', 'x' ]

  /** LENGTH: the number of characters of every answer text. */
  const Length: nat := 5

  /** Glyphs that are easy to mistake for one another. */
  const Ambiguous: set<char> := {'0', 'O', '1', 'I', 'l', 'L', 'i', 'o'}

  /** The draws `random.nextInt(charSequence.length)` can produce: in [0, 36). */
  predicate ValidRolls(rolls: seq<int>)
  {
    |rolls| >= Length && forall i :: 0 <= i < |rolls| ==> 0 <= rolls[i] < |CharSequence|
  }

  /** The text obtained from the first Length draws. */
  function TextOf(rolls: seq<int>): (text: string)
    requires ValidRolls(rolls)
    ensures |text| == Length && forall c :: c in text ==> c in CharSequence
  {
    seq(Length, i requires 0 <= i < Length => CharSequence[rolls[i]])
  }

  /** getText: one table lookup per draw, appended in order. */
  method GetText(rolls: seq<int>) returns (text: string)
    requires ValidRolls(rolls)
    ensures |text| == Length
    ensures forall i :: 0 <= i < Length ==> text[i] == CharSequence[rolls[i]]
    ensures forall c :: c in text ==> c in CharSequence
    ensures text == TextOf(rolls)
  {
    text := [];
    for i := 0 to Length
      invariant |text| == i
      invariant forall k :: 0 <= k < i ==> text[k] == CharSequence[rolls[k]]
    {
      text := text + [CharSequence[rolls[i]]];
    }
  }

  /** The table avoids every ambiguous glyph. */
  lemma {:induction false} TableAvoidsAmbiguous()
    ensures forall c :: c in Ambiguous ==> c !in CharSequence
  {
    assert forall k :: 0 <= k < |CharSequence| ==> CharSequence[k] !in Ambiguous;
  }

  /** An ASCII letter or digit. */
  predicate IsAlphanumeric(c: char)
  {
    ('0' <= c <= '9') || ('A' <= c <= 'Z') || ('a' <= c <= 'z')
  }

  /** Every slot holds an ASCII letter or digit. */
  lemma {:induction false} TableIsAlphanumeric()
    ensures forall c :: c in CharSequence ==> IsAlphanumeric(c)
  {
    assert forall k :: 0 <= k < |CharSequence| ==> IsAlphanumeric(CharSequence[k]);
  }

  /** 36 slots; 'n' fills exactly slots 30 and 32. */
  lemma TableSlots()
    ensures |CharSequence| == 36
    ensures forall k :: 0 <= k < |CharSequence| ==> (CharSequence[k] == 'n' <==> k == 30 || k == 32)
  {
  }

  /** The first slot holding c, for a character of the table; -1 otherwise. */
  function Rank(c: char): int
  {
    match c
    case 'A' => 0  case 'B' => 1  case 'D' => 2  case 'E' => 3  case 'F' => 4  case 'G' => 5
    case 'H' => 6  case 'J' => 7  case 'K' => 8  case 'P' => 9  case 'Q' => 10 case 'R' => 11
    case 'T' => 12 case 'Y' => 13 case 'Z' => 14 case '2' => 15 case '3' => 16 case '4' => 17
    case '5' => 18 case '6' => 19 case '7' => 20 case '8' => 21 case '9' => 22 case 'a' => 23
    case 'b' => 24 case 'c' => 25 case 'd' => 26 case 'e' => 27 case 'f' => 28 case 'y' => 29
    case 'n' => 30 case 'm' => 31 case 'p' => 33 case 'w' => 34 case 'x' => 35
    case _ => -1
  }

  /** Rank maps the character of each slot back to that slot, except for the second 'n'. */
  lemma RankInvertsTable()
    ensures forall k :: 0 <= k < |CharSequence| ==> k == 32 || Rank(CharSequence[k]) == k
  {
  }

  /**
   * Apart from 'n', no character occupies two slots: draws are uniform over
   * slots, so 'n' comes up twice as often as any other character.
   */
  lemma {:induction false} TableSlotsDistinct()
    ensures forall j, k :: 0 <= j < k < |CharSequence| && CharSequence[j] == CharSequence[k] ==> CharSequence[j] == 'n'
  {
    RankInvertsTable();
  }

  /** No generated text contains an ambiguous glyph. */
  lemma {:induction false} TextAvoidsAmbiguous(rolls: seq<int>)
    requires ValidRolls(rolls)
    ensures |TextOf(rolls)| == Length
    ensures forall c :: c in TextOf(rolls) ==> c in CharSequence && c !in Ambiguous
  {
    TableAvoidsAmbiguous();
  }

  /** Rank finds a slot of every character of the table. */
  lemma {:induction false} RankLocates(c: char)
    requires c in CharSequence
    ensures 0 <= Rank(c) < |CharSequence| && CharSequence[Rank(c)] == c
  {
    RankInvertsTable();
    var k :| 0 <= k < |CharSequence| && CharSequence[k] == c;
    assert CharSequence[30] == 'n';
  }

  /** Every Length-character string over the table is produced by some draws. */
  lemma {:induction false} EveryTextReachable(text: string)
    requires |text| == Length
    requires forall c :: c in text ==> c in CharSequence
    ensures exists rolls :: ValidRolls(rolls) && TextOf(rolls) == text
  {
    forall i | 0 <= i < Length ensures 0 <= Rank(text[i]) < |CharSequence| && CharSequence[Rank(text[i])] == text[i] {
      RankLocates(text[i]);
    }
    var rolls := seq(Length, i requires 0 <= i < Length => Rank(text[i]));
    assert TextOf(rolls) == text;
  }
}
