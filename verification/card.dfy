/** A playing card and its identity string.

    A card is an immutable pair of strings: a value ("Ace", "10", ...) and a
    suit ("Spades", ...). Its identity string, used both as the duplicate key
    of the registry and as the card's printed form, is the value, the
    separator " of ", and the suit run together. Because the key is a plain
    concatenation, two different pairs can share one key.
 */
module Cards {

  /** The text placed between value and suit in an identity string. */
  const Separator: string := " of "

  /** The identity string of the pair (value, suit). */
  function Identity(value: string, suit: string): string {
    value + Separator + suit
  }

  /** An identity string splits back into its parts: the value comes first,
      then the separator, then the suit, and nothing else. */
  lemma IdentityParts(value: string, suit: string)
    ensures |Identity(value, suit)| == |value| + |Separator| + |suit|
    ensures Identity(value, suit)[..|value|] == value
    ensures Identity(value, suit)[|value|..|value| + |Separator|] == Separator
    ensures Identity(value, suit)[|value| + |Separator|..] == suit
  {
  }

  datatype Card = Card(value: string, suit: string) {

    /** The card's identity string, which is also how the card prints. */
    function Key(): string {
      Identity(value, suit)
    }
  }

  /** The identity string is not injective: moving a separator-joined piece
      from the end of the value to the front of the suit keeps the key. */
  lemma IdentityCollides(a: string, b: string, c: string)
    ensures Identity(a + Separator + b, c) == Identity(a, b + Separator + c)
    ensures a + Separator + b != a
  {
  }

  /** In the identity string of a value without spaces, the first space is
      the one the separator starts with. */
  lemma FirstSpaceEndsValue(value: string, suit: string)
    requires ' ' !in value
    ensures forall j :: 0 <= j < |value| ==> Identity(value, suit)[j] != ' '
    ensures Identity(value, suit)[|value|] == ' '
  {
  }

  /** When neither value contains a space, the identity string does determine
      the pair: the first space of the key marks where the value ends. */
  lemma IdentityInjectiveOnSpacelessValues(v1: string, s1: string, v2: string, s2: string)
    requires ' ' !in v1 && ' ' !in v2
    requires Identity(v1, s1) == Identity(v2, s2)
    ensures v1 == v2 && s1 == s2
  {
    var k := Identity(v1, s1);
    IdentityParts(v1, s1);
    IdentityParts(v2, s2);
    FirstSpaceEndsValue(v1, s1);
    FirstSpaceEndsValue(v2, s2);
    assert |v1| == |v2|;
    assert v1 == k[..|v1|] == v2;
  }
}
