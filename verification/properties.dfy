/** What the registry promises its callers, stated through its operations:
    what a fresh add and a removal change and what they leave alone, the
    insertion order of a series of adds, and what the string key means for
    pairs whose identity strings collide.
 */
module CardCollectionProperties {
  import opened Cards
  import opened CardCollection

  /** Adding a card whose identity string is new appends it to the listing
      and to its own suit's listing, records its key, leaves every other
      suit's listing alone, and makes a second identical add a duplicate. */
  lemma AddFreshCard(r: Registry, value: string, suit: string)
    requires Valid(r)
    requires forall c :: c in r.cards ==> c.Key() != Identity(value, suit)
    ensures var (r', outcome) := Add(r, value, suit);
      && outcome == Added(Identity(value, suit))
      && Valid(r')
      && DisplayAll(r') == Listed(r.cards + [Card(value, suit)])
      && FindBySuit(r', suit) == Listed(OfSuit(r.cards, suit) + [Card(value, suit)])
      && (forall t :: t != suit ==> FindBySuit(r', t) == FindBySuit(r, t))
      && r'.cardSet == r.cardSet + {Identity(value, suit)}
      && Add(r', value, suit) == (r', Duplicate(Identity(value, suit)))
  {
    var card := Card(value, suit);
    var r' := Add(r, value, suit).0;
    AddPreservesValid(r, value, suit);
    assert r'.cards == r.cards + [card];
    assert card in r'.cards;
    assert r'.cards[..|r'.cards| - 1] == r.cards;
    assert OfSuit(r'.cards, suit) == OfSuit(r.cards, suit) + [card];
  }

  /** Removing a present card takes out its first (and only) occurrence from
      the listing and its suit's listing, keeps every other card in its
      relative order, forgets its key, leaves other suits alone, and makes a
      second identical removal report not found. */
  lemma RemovePresentCard(r: Registry, value: string, suit: string)
    requires Valid(r)
    requires Card(value, suit) in r.cards
    ensures var (r', outcome) := Remove(r, value, suit);
      && outcome == Removed(Identity(value, suit))
      && Valid(r')
      && (exists i :: 0 <= i < |r.cards| && r.cards[i] == Card(value, suit)
            && r'.cards == r.cards[..i] + r.cards[i + 1..])
      && Card(value, suit) !in r'.cards
      && Identity(value, suit) !in r'.cardSet
      && Bucket(r'.suitMap, suit) == RemoveFirst(Bucket(r.suitMap, suit), Card(value, suit))
      && (forall t :: t != suit ==> FindBySuit(r', t) == FindBySuit(r, t))
      && Remove(r', value, suit) == (r', NotFound(Identity(value, suit)))
  {
    var card := Card(value, suit);
    var i := IndexOf(r.cards, card).value;
    var r' := Remove(r, value, suit).0;
    RemovePreservesValid(r, value, suit);
    RemoveFirstAt(r.cards, card, i);
    assert r'.cards == r.cards[..i] + r.cards[i + 1..];
    KeyNotElsewhere(r.cards, i);
    assert card.Key() !in KeysOf(r'.cards);
    OfSuitRemoveFirst(r.cards, i);
    assert Bucket(r.suitMap, suit) == OfSuit(r.cards, suit);
    assert Bucket(r'.suitMap, suit) == OfSuit(r'.cards, suit);
    forall t | t != suit
      ensures FindBySuit(r', t) == FindBySuit(r, t)
    {
      OfSuitEmpty(r.cards, t);
      OfSuitEmpty(r'.cards, t);
      OfSuitRemoveOther(r.cards, i, t);
    }
  }

  // ---------------------------------------------------------------------------
  // A series of adds
  // ---------------------------------------------------------------------------

  /** The cards named by a series of (value, suit) pairs. */
  function CardsOf(pairs: seq<(string, string)>): (cards: seq<Card>)
    ensures |cards| == |pairs|
    ensures forall i :: 0 <= i < |pairs| ==> cards[i] == Card(pairs[i].0, pairs[i].1)
  {
    if pairs == [] then [] else [Card(pairs[0].0, pairs[0].1)] + CardsOf(pairs[1..])
  }

  /** addCard called once for each pair, in order. */
  function AddEach(r: Registry, pairs: seq<(string, string)>): Registry
    decreases |pairs|
  {
    if pairs == [] then r else AddEach(Add(r, pairs[0].0, pairs[0].1).0, pairs[1..])
  }

  /** Adding pairs whose identity strings are new and pairwise distinct
      appends their cards in the order they were added. */
  lemma {:induction false} AddsInInsertionOrder(r: Registry, pairs: seq<(string, string)>)
    requires Valid(r)
    requires DistinctKeys(r.cards + CardsOf(pairs))
    ensures Valid(AddEach(r, pairs))
    ensures AddEach(r, pairs).cards == r.cards + CardsOf(pairs)
    decreases |pairs|
  {
    if pairs != [] {
      var (value, suit) := pairs[0];
      var card := Card(value, suit);
      var rest := CardsOf(pairs[1..]);
      assert CardsOf(pairs) == [card] + rest;
      assert r.cards + CardsOf(pairs) == (r.cards + [card]) + rest;
      DistinctKeysPrefix(r.cards + [card], rest);
      LastKeyIsNew(r.cards, card);
      AddFreshCard(r, value, suit);
      AddsInInsertionOrder(Add(r, value, suit).0, pairs[1..]);
    }
  }

  /** Listing after a series of distinct adds to an empty registry shows the
      cards in the order they were added. */
  lemma ListingFollowsInsertionOrder(pairs: seq<(string, string)>)
    requires DistinctKeys(CardsOf(pairs))
    ensures DisplayAll(AddEach(Empty(), pairs))
         == if pairs == [] then NoCards else Listed(CardsOf(pairs))
  {
    assert Empty().cards + CardsOf(pairs) == CardsOf(pairs);
    AddsInInsertionOrder(Empty(), pairs);
  }

  // ---------------------------------------------------------------------------
  // The identity string is a key, not a pair
  // ---------------------------------------------------------------------------

  /** Once ("A of B", "C") is registered, adding ("A", "B of C") is rejected as
      a duplicate, because both pairs have the identity string "A of B of C";
      yet removing ("A", "B of C") reports not found, because removal matches
      value and suit, not the key. */
  lemma CollidingPairIsDuplicateButNotRemovable(r: Registry, a: string, b: string, c: string)
    requires Valid(r)
    requires Card(a + Separator + b, c) in r.cards
    ensures Add(r, a, b + Separator + c) == (r, Duplicate(Identity(a, b + Separator + c)))
    ensures Remove(r, a, b + Separator + c) == (r, NotFound(Identity(a, b + Separator + c)))
  {
  }

  // ---------------------------------------------------------------------------
  // The demonstration run
  // ---------------------------------------------------------------------------

  /** The four cards the demonstration adds, in order. */
  const DemoPairs: seq<(string, string)> :=
    [("Ace", "Spades"), ("King", "Hearts"), ("10", "Diamonds"), ("5", "Clubs")]

  /** The cards those pairs name. */
  const DemoCards: seq<Card> :=
    [Card("Ace", "Spades"), Card("King", "Hearts"), Card("10", "Diamonds"), Card("5", "Clubs")]

  /** The demonstration starts by listing the new registry: no cards. */
  lemma DemoInitialDisplay()
    ensures DisplayAll(Empty()) == NoCards
  {
  }

  /** The four demonstration cards have distinct identity strings. */
  lemma DemoKeysDistinct()
    ensures CardsOf(DemoPairs) == DemoCards
    ensures DistinctKeys(DemoCards)
  {
    // The four identity strings already differ in their first character.
    assert DemoCards[0].Key()[0] == 'A' && DemoCards[1].Key()[0] == 'K';
    assert DemoCards[2].Key()[0] == '1' && DemoCards[3].Key()[0] == '5';
  }

  /** The four adds of the demonstration run all succeed, in order. */
  lemma DemoAdds()
    ensures Valid(AddEach(Empty(), DemoPairs))
    ensures AddEach(Empty(), DemoPairs).cards == DemoCards
  {
    DemoKeysDistinct();
    assert Empty().cards + DemoCards == DemoCards;
    AddsInInsertionOrder(Empty(), DemoPairs);
  }

  /** With the four demonstration cards registered, the listing shows them
      in order and each lookup finds its one card. The lookup of Diamonds
      finds the ten of Diamonds, which the run has added by then. */
  lemma DemoLookups(r: Registry)
    requires Valid(r) && r.cards == DemoCards
    ensures DisplayAll(r) == Listed(DemoCards)
    ensures FindBySuit(r, "Hearts") == Listed([Card("King", "Hearts")])
    ensures FindBySuit(r, "Diamonds") == Listed([Card("10", "Diamonds")])
  {
    // The four suits already differ in their first character.
    assert DemoCards[0].suit[0] == 'S' && DemoCards[1].suit[0] == 'H';
    assert DemoCards[2].suit[0] == 'D' && DemoCards[3].suit[0] == 'C';
    OfSuitSplit4(DemoCards, "Hearts");
    OfSuitSplit4(DemoCards, "Diamonds");
  }

  /** With the four demonstration cards registered, adding ("King", "Hearts")
      again is rejected and changes nothing. */
  lemma DemoRepeatedAdd(r: Registry)
    requires Valid(r) && r.cards == DemoCards
    ensures Add(r, "King", "Hearts") == (r, Duplicate("King of Hearts"))
  {
    assert DemoCards[1].Key() == "King of Hearts";
  }

  /** With the four demonstration cards registered, removing ("10",
      "Diamonds") succeeds and the listing keeps the other three in order. */
  lemma DemoRemoval(r: Registry)
    requires Valid(r) && r.cards == DemoCards
    ensures Remove(r, "10", "Diamonds").1 == Removed("10 of Diamonds")
    ensures DisplayAll(Remove(r, "10", "Diamonds").0)
         == Listed([Card("Ace", "Spades"), Card("King", "Hearts"), Card("5", "Clubs")])
  {
    assert DemoCards[2] == Card("10", "Diamonds");
    RemovePresentCard(r, "10", "Diamonds");
    var r' := Remove(r, "10", "Diamonds").0;
    assert IndexOf(DemoCards, Card("10", "Diamonds")) == Some(2);
    assert r'.cards == DemoCards[..2] + DemoCards[3..];
  }

  /** The filter of a four-card list, card by card. */
  lemma OfSuitSplit4(cards: seq<Card>, suit: string)
    requires |cards| == 4
    ensures OfSuit(cards, suit) == OfSuit([cards[0]], suit) + OfSuit([cards[1]], suit)
                                 + OfSuit([cards[2]], suit) + OfSuit([cards[3]], suit)
  {
    assert cards == [cards[0]] + [cards[1]] + [cards[2]] + [cards[3]];
    OfSuitConcat([cards[0]] + [cards[1]] + [cards[2]], [cards[3]], suit);
    OfSuitConcat([cards[0]] + [cards[1]], [cards[2]], suit);
    OfSuitConcat([cards[0]], [cards[1]], suit);
  }
}
