/** The card registry: an insertion-ordered list of cards, the set of their
    identity strings, and an index from suit to the cards of that suit.

    Every operation is a pure function from a registry to a new registry and
    an outcome; the messages CardCollectionSystem prints become outcome
    values, and the lines it prints for a lookup or a listing become a `Listing`.
 */
module CardCollection {
  import opened Cards

  datatype Option<T> = None | Some(value: T)

  /** What addCard and removeCard report, carrying the identity string.
      `NullSuitEntry` stands for the null dereference removeCard would hit
      if its suit had no index entry. */
  datatype Outcome =
    | Added(key: string)
    | Duplicate(key: string)
    | Removed(key: string)
    | NotFound(key: string)
    | NullSuitEntry(key: string)

  /** What findCardsBySuit and displayAllCards report: either "no cards" or
      the cards they print, in order. */
  datatype Listing = NoCards | Listed(cards: seq<Card>)

  /** The three structures the registry keeps in step. */
  datatype Registry = Registry(
    cards: seq<Card>,
    cardSet: set<string>,
    suitMap: map<string, seq<Card>>)

  // ---------------------------------------------------------------------------
  // Views and the registry invariant
  // ---------------------------------------------------------------------------

  /** The suit index entry for `suit`, an absent entry read as empty. */
  function Bucket(suitMap: map<string, seq<Card>>, suit: string): seq<Card> {
    if suit in suitMap then suitMap[suit] else []
  }

  /** The identity strings of the given cards. */
  function KeysOf(cards: seq<Card>): set<string> {
    set c | c in cards :: c.Key()
  }

  /** No two positions of `cards` hold cards with the same identity string. */
  predicate DistinctKeys(cards: seq<Card>) {
    forall i, j :: 0 <= i < j < |cards| ==> cards[i].Key() != cards[j].Key()
  }

  /** The reference filter: the cards of `suit`, in their relative order. */
  function OfSuit(cards: seq<Card>, suit: string): seq<Card>
    decreases |cards|
  {
    if |cards| == 0 then []
    else
      var last := cards[|cards| - 1];
      OfSuit(cards[..|cards| - 1], suit) + (if last.suit == suit then [last] else [])
  }

  /** The invariant the three structures keep: the key set mirrors the list,
      the keys in the list are pairwise distinct, and each suit's index entry
      is the list filtered by that suit. */
  ghost predicate Valid(r: Registry) {
    && r.cardSet == KeysOf(r.cards)
    && DistinctKeys(r.cards)
    && forall suit :: Bucket(r.suitMap, suit) == OfSuit(r.cards, suit)
  }

  // ---------------------------------------------------------------------------
  // Sequence helpers for List.remove(Object)
  // ---------------------------------------------------------------------------

  /** The position of the first occurrence of `card`, if any. */
  function IndexOf(cards: seq<Card>, card: Card): (i: Option<nat>)
    ensures i.None? <==> card !in cards
    ensures i.Some? ==> i.value < |cards| && cards[i.value] == card
    ensures i.Some? ==> forall j :: 0 <= j < i.value ==> cards[j] != card
  {
    if |cards| == 0 then None
    else if cards[0] == card then Some(0)
    else
      match IndexOf(cards[1..], card)
      case None => None
      case Some(j) => Some(j + 1)
  }

  /** The list without the first occurrence of `card`; unchanged if absent. */
  function RemoveFirst(cards: seq<Card>, card: Card): seq<Card> {
    match IndexOf(cards, card)
    case None => cards
    case Some(i) => cards[..i] + cards[i + 1..]
  }

  // ---------------------------------------------------------------------------
  // Operations
  // ---------------------------------------------------------------------------

  /** A registry with no cards. */
  function Empty(): (r: Registry)
    ensures Valid(r)
    ensures r.cards == []
  {
    Registry([], {}, map[])
  }

  /** Add the card (value, suit) unless a card with the same identity string
      is already registered. */
  function Add(r: Registry, value: string, suit: string): (res: (Registry, Outcome))
    ensures res.1 == Added(Identity(value, suit)) || res.1 == Duplicate(Identity(value, suit))
    ensures Valid(r) ==>
      (res.1.Duplicate? <==> exists c :: c in r.cards && c.Key() == Identity(value, suit))
    ensures res.1.Duplicate? ==> res.0 == r
  {
    var key := Identity(value, suit);
    if key in r.cardSet then
      (r, Duplicate(key))
    else
      var card := Card(value, suit);
      var registry := Registry(
        r.cards + [card],
        r.cardSet + {key},
        r.suitMap[suit := Bucket(r.suitMap, suit) + [card]]);
      (registry, Added(key))
  }

  /** The cards of `suit` as the suit index holds them; an absent entry and
      an empty one both report no cards. */
  function FindBySuit(r: Registry, suit: string): (found: Listing)
    ensures found.Listed? ==> found.cards != []
    ensures Valid(r) ==> (found == NoCards <==> forall c :: c in r.cards ==> c.suit != suit)
    ensures Valid(r) && found.Listed? ==> found.cards == OfSuit(r.cards, suit)
  {
    OfSuitEmpty(r.cards, suit);
    if suit !in r.suitMap || r.suitMap[suit] == [] then NoCards
    else Listed(r.suitMap[suit])
  }

  /** Every registered card in insertion order, or no cards. */
  function DisplayAll(r: Registry): (listing: Listing)
    ensures listing == NoCards <==> r.cards == []
    ensures listing.Listed? ==> listing.cards == r.cards
  {
    if r.cards == [] then NoCards else Listed(r.cards)
  }

  /** Remove the first card whose value and suit are (value, suit).
      removeCard looks up the suit index entry without a null check, after it
      has already changed the list and the key set; an absent entry is
      reported as `NullSuitEntry` with the state as it stood at that point.
      Under the invariant that never happens. */
  function Remove(r: Registry, value: string, suit: string): (res: (Registry, Outcome))
    ensures res.1.key == Identity(value, suit)
    ensures res.1.NotFound? <==> Card(value, suit) !in r.cards
    ensures res.1.NotFound? ==> res.0 == r
    ensures Valid(r) ==> res.1 == Removed(Identity(value, suit)) || res.1 == NotFound(Identity(value, suit))
  {
    var key := Identity(value, suit);
    var target := Card(value, suit);
    match IndexOf(r.cards, target)
    case None => (r, NotFound(key))
    case Some(_) =>
      PresentSuitIsIndexed(r, target);
      var cards := RemoveFirst(r.cards, target);
      var cardSet := r.cardSet - {key};
      if suit in r.suitMap then
        (Registry(cards, cardSet, r.suitMap[suit := RemoveFirst(r.suitMap[suit], target)]), Removed(key))
      else
        (Registry(cards, cardSet, r.suitMap), NullSuitEntry(key))
  }

  // ---------------------------------------------------------------------------
  // Lemmas about the views
  // ---------------------------------------------------------------------------

  /** Whenever the list holds a card of some suit, the suit index has an
      entry for that suit holding the card: the lookup in removeCard never
      meets an absent entry. */
  lemma PresentSuitIsIndexed(r: Registry, card: Card)
    ensures Valid(r) && card in r.cards ==>
      card.suit in r.suitMap && card in r.suitMap[card.suit]
  {
    if Valid(r) && card in r.cards {
      OfSuitMembers(r.cards, card.suit);
      assert card in OfSuit(r.cards, card.suit);
      assert Bucket(r.suitMap, card.suit) == OfSuit(r.cards, card.suit);
    }
  }

  /** The filter keeps exactly the cards of the suit. */
  lemma {:induction false} OfSuitMembers(cards: seq<Card>, suit: string)
    ensures forall c :: c in OfSuit(cards, suit) <==> c in cards && c.suit == suit
    decreases |cards|
  {
    if |cards| > 0 {
      var front := cards[..|cards| - 1];
      OfSuitMembers(front, suit);
      assert cards == front + [cards[|cards| - 1]];
    }
  }

  /** The filter is empty exactly when no card has the suit. */
  lemma OfSuitEmpty(cards: seq<Card>, suit: string)
    ensures OfSuit(cards, suit) == [] <==> forall c :: c in cards ==> c.suit != suit
  {
  }

  /** Filtering distributes over concatenation. */
  lemma {:induction false} OfSuitConcat(a: seq<Card>, b: seq<Card>, suit: string)
    ensures OfSuit(a + b, suit) == OfSuit(a, suit) + OfSuit(b, suit)
    decreases |b|
  {
    if |b| == 0 {
      assert a + b == a;
    } else {
      var last := b[|b| - 1];
      var b' := b[..|b| - 1];
      assert (a + b)[..|a + b| - 1] == a + b';
      assert (a + b)[|a + b| - 1] == last;
      OfSuitConcat(a, b', suit);
    }
  }

  /** The keys of a concatenation are the keys of its parts. */
  lemma KeysOfConcat(a: seq<Card>, b: seq<Card>)
    ensures KeysOf(a + b) == KeysOf(a) + KeysOf(b)
  {
  }

  /** The keys of a single card. */
  lemma KeysOfSingleton(card: Card)
    ensures KeysOf([card]) == {card.Key()}
  {
  }

  /** A prefix of a list with distinct keys has distinct keys. */
  lemma DistinctKeysPrefix(a: seq<Card>, b: seq<Card>)
    requires DistinctKeys(a + b)
    ensures DistinctKeys(a)
  {
    forall i, j | 0 <= i < j < |a|
      ensures a[i].Key() != a[j].Key()
    {
      assert (a + b)[i] == a[i] && (a + b)[j] == a[j];
    }
  }

  /** In a list with distinct keys, the last card's key is new to the cards
      before it. */
  lemma LastKeyIsNew(cards: seq<Card>, card: Card)
    requires DistinctKeys(cards + [card])
    ensures forall c :: c in cards ==> c.Key() != card.Key()
  {
    forall c | c in cards
      ensures c.Key() != card.Key()
    {
      var j :| 0 <= j < |cards| && cards[j] == c;
      assert (cards + [card])[j] == c && (cards + [card])[|cards|] == card;
    }
  }

  /** In a valid registry a card sits at one position of the list at most,
      so removing by value removes the very card the scan found. */
  lemma CardHeldOnce(r: Registry, i: nat, j: nat)
    requires Valid(r)
    requires i < |r.cards| && j < |r.cards|
    requires r.cards[i] == r.cards[j]
    ensures i == j
  {
  }

  /** The card at position `i` is the only one with its key. */
  lemma KeyNotElsewhere(cards: seq<Card>, i: nat)
    requires i < |cards|
    requires DistinctKeys(cards)
    ensures cards[i].Key() !in KeysOf(cards[..i] + cards[i + 1..])
  {
  }

  /** Distinct identity strings mean one key per card. */
  lemma {:induction false} KeyCountMatchesCards(cards: seq<Card>)
    requires DistinctKeys(cards)
    ensures |KeysOf(cards)| == |cards|
    decreases |cards|
  {
    if |cards| > 0 {
      var n := |cards| - 1;
      var front := cards[..n];
      assert cards == front + [cards[n]];
      assert front == cards[..n] + cards[n + 1..];
      KeysOfConcat(front, [cards[n]]);
      KeysOfSingleton(cards[n]);
      KeyNotElsewhere(cards, n);
      DistinctKeysWithout(cards, n);
      KeyCountMatchesCards(front);
    }
  }

  /** The key set holds exactly as many strings as the list holds cards. */
  lemma CardCountMatchesKeySet(r: Registry)
    requires Valid(r)
    ensures |r.cardSet| == |r.cards|
  {
    KeyCountMatchesCards(r.cards);
  }

  /** Removing one position keeps the remaining keys distinct. */
  lemma DistinctKeysWithout(cards: seq<Card>, i: nat)
    requires i < |cards|
    requires DistinctKeys(cards)
    ensures DistinctKeys(cards[..i] + cards[i + 1..])
  {
  }

  /** Removing the first occurrence of `card` when it sits at position `i`. */
  lemma RemoveFirstAt(cards: seq<Card>, card: Card, i: nat)
    requires i < |cards| && cards[i] == card && card !in cards[..i]
    ensures RemoveFirst(cards, card) == cards[..i] + cards[i + 1..]
  {
  }

  /** The filter of one card. */
  lemma OfSuitSingleton(card: Card, suit: string)
    ensures OfSuit([card], suit) == if card.suit == suit then [card] else []
  {
  }

  /** The filter of a list, taken around position `i`, and of the list
      without that position. */
  lemma OfSuitAround(cards: seq<Card>, i: nat, suit: string)
    requires i < |cards|
    ensures OfSuit(cards, suit)
         == OfSuit(cards[..i], suit) + OfSuit([cards[i]], suit) + OfSuit(cards[i + 1..], suit)
    ensures OfSuit(cards[..i] + cards[i + 1..], suit)
         == OfSuit(cards[..i], suit) + OfSuit(cards[i + 1..], suit)
  {
    var a := cards[..i];
    var b := cards[i + 1..];
    assert cards == (a + [cards[i]]) + b;
    OfSuitConcat(a + [cards[i]], b, suit);
    OfSuitConcat(a, [cards[i]], suit);
    OfSuitConcat(a, b, suit);
  }

  /** Removing the first occurrence of a card from the whole list removes it
      from the filter for its own suit, at its first occurrence there too. */
  lemma OfSuitRemoveFirst(cards: seq<Card>, i: nat)
    requires i < |cards| && cards[i] !in cards[..i]
    ensures RemoveFirst(OfSuit(cards, cards[i].suit), cards[i])
         == OfSuit(cards[..i] + cards[i + 1..], cards[i].suit)
  {
    var card := cards[i];
    var s := card.suit;
    OfSuitAround(cards, i, s);
    OfSuitSingleton(card, s);
    var p := OfSuit(cards[..i], s);
    var q := OfSuit(cards[i + 1..], s);
    OfSuitMembers(cards[..i], s);
    RemoveFirstSplit(p, card, q);
  }

  /** Removing the first occurrence of `card` from `p + [card] + q`, where
      `p` does not hold it. */
  lemma RemoveFirstSplit(p: seq<Card>, card: Card, q: seq<Card>)
    requires card !in p
    ensures RemoveFirst(p + [card] + q, card) == p + q
  {
    var s := p + [card] + q;
    assert s[..|p|] == p;
    RemoveFirstAt(s, card, |p|);
    assert s[|p| + 1..] == q;
  }

  /** Removing a card leaves the filter for every other suit alone. */
  lemma OfSuitRemoveOther(cards: seq<Card>, i: nat, suit: string)
    requires i < |cards| && cards[i].suit != suit
    ensures OfSuit(cards[..i] + cards[i + 1..], suit) == OfSuit(cards, suit)
  {
    OfSuitAround(cards, i, suit);
    OfSuitSingleton(cards[i], suit);
  }

  // ---------------------------------------------------------------------------
  // The operations keep the invariant
  // ---------------------------------------------------------------------------

  /** addCard keeps the three structures in step. */
  lemma AddPreservesValid(r: Registry, value: string, suit: string)
    requires Valid(r)
    ensures Valid(Add(r, value, suit).0)
  {
    var key := Identity(value, suit);
    if key !in r.cardSet {
      var card := Card(value, suit);
      var r' := Add(r, value, suit).0;
      assert r'.cards == r.cards + [card];
      KeysOfConcat(r.cards, [card]);
      KeysOfSingleton(card);
      forall s
        ensures Bucket(r'.suitMap, s) == OfSuit(r'.cards, s)
      {
        assert r'.cards[..|r'.cards| - 1] == r.cards;
        assert Bucket(r.suitMap, s) == OfSuit(r.cards, s);
      }
    }
  }

  /** removeCard keeps the three structures in step. */
  lemma RemovePreservesValid(r: Registry, value: string, suit: string)
    requires Valid(r)
    ensures Valid(Remove(r, value, suit).0)
  {
    var target := Card(value, suit);
    if target in r.cards {
      var i := IndexOf(r.cards, target).value;
      var rest := r.cards[..i] + r.cards[i + 1..];
      var r' := Remove(r, value, suit).0;
      RemoveFirstAt(r.cards, target, i);
      assert r'.cards == rest;

      // The removed key was the only copy of itself.
      DistinctKeysWithout(r.cards, i);
      KeyNotElsewhere(r.cards, i);
      assert r.cards == r.cards[..i] + [target] + r.cards[i + 1..];
      KeysOfConcat(r.cards[..i] + [target], r.cards[i + 1..]);
      KeysOfConcat(r.cards[..i], [target]);
      KeysOfSingleton(target);
      KeysOfConcat(r.cards[..i], r.cards[i + 1..]);

      // Every bucket is still the filtered list.
      PresentSuitIsIndexed(r, target);
      assert r'.suitMap == r.suitMap[suit := RemoveFirst(r.suitMap[suit], target)];
      assert r.suitMap[suit] == Bucket(r.suitMap, suit) == OfSuit(r.cards, suit);
      OfSuitRemoveFirst(r.cards, i);
      forall s
        ensures Bucket(r'.suitMap, s) == OfSuit(r'.cards, s)
      {
        assert Bucket(r.suitMap, s) == OfSuit(r.cards, s);
        if s != suit {
          OfSuitRemoveOther(r.cards, i, s);
        }
      }
    }
  }
}
