# Card collection registry — a Dafny model

This project models `CardCollectionSystem`, a small in-memory registry of
playing cards, and its value class `Card`. A card is a pair of strings, a
value ("Ace", "10", …) and a suit ("Spades", …). The registry keeps three
structures that must stay in step:

- `cards`: the cards in insertion order;
- `cardSet`: the identity strings of the registered cards, used to reject
  duplicates. A card's identity string is `value + " of " + suit`, which is
  also how the card prints;
- `suitMap`: for each suit, the cards of that suit in insertion order.

Four operations act on them: `addCard`, `findCardsBySuit`, `displayAllCards`
and `removeCard`. The model is functional. `Registry` is an immutable record
of a `seq<Card>`, a `set<string>` and a `map<string, seq<Card>>`. Each
operation is a pure function. `Add` and `Remove` return the new registry
together with an `Outcome`:

- `Added`, `Duplicate`, `Removed` or `NotFound`, each carrying the identity
  string, in place of the printed messages;
- `NullSuitEntry`, for the null dereference `removeCard` would hit if the
  suit had no index entry.

`FindBySuit` and `DisplayAll` return a `Listing`: either `NoCards` or the
cards they print, in order.

`Valid` is the registry invariant, and `Empty`, `Add` and `Remove` keep it.
It says:

- the key set is exactly the set of identity strings of the listed cards;
- those identity strings are pairwise distinct;
- for every suit, its index entry is the listed cards filtered by that suit,
  in the same order. An absent entry counts as empty.

Consequences:

- the unchecked `suitMap.get(suit)` in `removeCard` never meets an absent
  entry;
- a lookup reports no cards exactly when no registered card has that suit;
- the key set has as many strings as the list has cards.

The identity string is a key, not a pair. ("A of B", "C") and ("A", "B of C")
both have the key "A of B of C". So once the first pair is registered, adding
the second is rejected as a duplicate. Removing the second still reports not
found, because removal matches value and suit, not the key. The model keeps
this behaviour and proves it (`CollidingPairIsDuplicateButNotRemovable`). It
also proves that the key does determine the pair when the values contain no
space (`IdentityInjectiveOnSpacelessValues`). Values free of " of " would not
be enough: ("A", "of B") and ("A of", "B") share the key "A of of B".

Files:

- `card.dfy` (module `Cards`): the card and its identity string;
- `registry.dfy` (module `CardCollection`): the registry, its invariant, the
  operations, and the lemmas that the operations keep the invariant;
- `properties.dfy` (module `CardCollectionProperties`): what the operations
  promise their callers, including the demonstration run in `main`.

The program's own test notes and its demonstration disagree on one step.
Test Case 4 (Exp4.2.java:55-60) expects the lookup of Diamonds to print
"No cards found for Diamonds.". The demonstration adds "10 of Diamonds"
(Exp4.2.java:197) before that lookup runs (Exp4.2.java:206), so the code
finds that card. The model follows the code; `DemoLookups` states its result.

## Model

| member | source | states |
|---|---|---|
| Cards.IdentityParts | Exp4.2.java:110-113 | A card's identity string (its printed form) is its value, then " of ", then its suit, and nothing else. |
| Cards.IdentityCollides | Exp4.2.java:128 | Different (value, suit) pairs can share one identity string: moving a " of "-joined piece from the end of the value to the front of the suit keeps the key. |
| Cards.IdentityInjectiveOnSpacelessValues | Exp4.2.java:128-129 | When neither value contains a space, equal identity strings mean equal pairs. |
| CardCollection.Empty | Exp4.2.java:121-125 | The new registry has no cards and satisfies the registry invariant. |
| CardCollection.Add | Exp4.2.java:127-141 | The outcome carries the identity string. When the registry is valid, the add is a duplicate exactly when some registered card has the same identity string, and a duplicate add leaves the registry unchanged. |
| CardCollection.AddPreservesValid | Exp4.2.java:133-138 | Appending to the list, inserting the key and appending to the suit's entry (created if absent) keep all three structures in step. |
| CardCollection.FindBySuit | Exp4.2.java:143-152 | When the registry is valid, the lookup reports no cards exactly when no registered card has the suit, whether the entry is absent or empty. Otherwise it lists exactly the registered cards of that suit, in insertion order. |
| CardCollection.DisplayAll | Exp4.2.java:154-162 | The listing reports no cards exactly when the list is empty; otherwise it lists every card in insertion order. |
| CardCollection.IndexOf | Exp4.2.java:168-173 | The scan finds the first position holding the card with that value and suit, or reports that no position does. |
| CardCollection.RemoveFirstAt | Exp4.2.java:176 | Removing a card from a list removes its first occurrence and keeps the rest in order. |
| CardCollection.Remove | Exp4.2.java:164-183 | The outcome carries the identity string. Not found is reported exactly when no card has that value and suit, and then nothing changes. When the registry is valid, the outcome is always removed or not found, never the null dereference. |
| CardCollection.PresentSuitIsIndexed | Exp4.2.java:178 | In a valid registry, the suit of every registered card has an index entry, and that entry holds the card, so the unchecked lookup never dereferences null. |
| CardCollection.CardHeldOnce | Exp4.2.java:176-178 | In a valid registry no card appears at two positions of the list, so removing the first card equal by value and suit removes exactly the object the scan found. |
| CardCollection.RemovePreservesValid | Exp4.2.java:175-178 | Removing the card from the list, its key from the key set and the card from its suit's entry keeps all three structures in step. |
| CardCollection.CardCountMatchesKeySet | Exp4.2.java:117-118 | In a valid registry, the key set holds exactly as many strings as the list holds cards. |
| CardCollectionProperties.AddFreshCard | Exp4.2.java:133-140 | Adding a card with a new identity string: the outcome is added; the card goes to the end of the listing and of its suit's listing; its key joins the key set; other suits' listings do not change; repeating the add is a duplicate. |
| CardCollectionProperties.RemovePresentCard | Exp4.2.java:168-179 | Removing a present card takes out its first and only occurrence and keeps the other cards in order, in the list and in its own suit's entry. Its key leaves the key set, other suits' listings do not change, the registry stays valid, and repeating the removal reports not found. |
| CardCollectionProperties.AddsInInsertionOrder | Exp4.2.java:133-134 | A series of adds with new, pairwise distinct identity strings appends their cards in the order of the adds, and the registry stays valid. |
| CardCollectionProperties.ListingFollowsInsertionOrder | Exp4.2.java:154-161 | After a series of distinct adds to an empty registry, the listing shows the cards in the order they were added. |
| CardCollectionProperties.CollidingPairIsDuplicateButNotRemovable | Exp4.2.java:128-169 | Once ("a of b", "c") is registered, adding ("a", "b of c") is a duplicate. Removing ("a", "b of c") reports not found and changes nothing. |
| CardCollectionProperties.DemoInitialDisplay | Exp4.2.java:189-191 | Listing the new, empty registry reports no cards. |
| CardCollectionProperties.DemoKeysDistinct | Exp4.2.java:195-198 | The four cards of the demonstration have distinct identity strings. |
| CardCollectionProperties.DemoAdds | Exp4.2.java:194-198 | The demonstration's four adds all succeed and register the cards in order. |
| CardCollectionProperties.DemoLookups | Exp4.2.java:200-210 | With the four cards registered, Hearts lists only the King of Hearts, Diamonds lists only the ten of Diamonds, and the listing shows all four in order. |
| CardCollectionProperties.DemoRepeatedAdd | Exp4.2.java:212-214 | Adding the King of Hearts again is a duplicate and changes nothing. |
| CardCollectionProperties.DemoRemoval | Exp4.2.java:216-222 | Removing the ten of Diamonds succeeds, and the listing then shows the other three cards in order. |

## Left out

- Console output: the printed messages and the printed card lines become
  `Outcome` and `Listing` values. Their exact text is not modelled.
- The `main` driver's console I/O and its unused `Scanner`. Its sequence of
  calls, from the first listing of the empty registry to the last listing,
  is stated as the `Demo…` lemmas.
- Java object identity in `List.remove(Object)`. `Card` does not override
  `equals`, so Java removes a card by reference; the model removes the first
  card equal by value and suit. Under the invariant the registry holds at
  most one such card (`CardHeldOnce`), and it is the card the scan found,
  so the two agree.
- Hashing and the internals of `HashMap` and `HashSet`. These become Dafny's
  `set<string>` and `map<string, seq<Card>>`.
- Exceptions. The null dereference of `removeCard` is reported as the
  `NullSuitEntry` outcome. It carries the state as it stood when the
  dereference happened: the list and key set already changed, the index
  untouched. Java would throw instead of returning, and the invariant rules
  the case out.
- Null arguments. The model's strings are never null, so a null value or
  suit is not modelled.
