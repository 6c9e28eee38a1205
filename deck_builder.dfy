/**
 * The list rules of the deck builder: adding a catalog card by name (at most
 * 20 cards, no name twice), removing by index with the scroll correction,
 * clearing, clamping the scroll offset of the deck panel, the statistics
 * panel's integer fields, the gallery's pagination and the filtering of a
 * saved deck on load.  Drawing, fonts, images and the event loop's mouse
 * handling are not part of this model.
 */
module DeckBuilder {
  import opened Wrappers
  import opened Cards

  const MaxDeckCards: nat := 20
  const CardsPerPage: nat := 6
  /** Height of one entry of the deck list, in pixels. */
  const DeckCardHeight: nat := 50
  /** Height of the deck panel taken by its title and margins, in pixels. */
  const DeckPanelChrome: nat := 70

  /** Saved decks resolve against the full catalog. */
  predicate AllKnown(names: seq<string>) {
    forall i :: 0 <= i < |names| ==> KnownName(names[i])
  }

  predicate NoDuplicates(names: seq<string>) {
    forall i, j :: 0 <= i < j < |names| ==> names[i] != names[j]
  }

  /** The deck as the builder keeps it when cards are only added through it. */
  predicate DeckRules(names: seq<string>) {
    |names| <= MaxDeckCards && NoDuplicates(names)
  }

  /** Why an addition was refused; the builder shows one warning per refusal. */
  datatype AddWarning = DeckFull | CardNotFound | AlreadyInDeck

  /** The integer fields of the statistics panel. */
  datatype CardStats = CardStats(totalCards: nat, totalPower: int, uniqueCards: nat)

  // ---------------------------------------------------------------------
  // Loading a saved deck
  // ---------------------------------------------------------------------

  /** The names of a saved deck that the catalog knows, in their saved order. */
  function KnownOnly(names: seq<string>): seq<string> {
    if names == [] then []
    else
      var init := KnownOnly(names[..|names| - 1]);
      if KnownName(names[|names| - 1]) then init + [names[|names| - 1]] else init
  }

  /** Filtering distributes over concatenation: it keeps the saved order and drops nothing but unknown names. */
  lemma {:induction false} KnownOnlyAppend(s: seq<string>, t: seq<string>)
    ensures KnownOnly(s + t) == KnownOnly(s) + KnownOnly(t)
    decreases |t|
  {
    if t == [] {
      assert s + t == s;
    } else {
      var t' := t[..|t| - 1];
      assert (s + t)[..|s + t| - 1] == s + t';
      KnownOnlyAppend(s, t');
    }
  }

  /** A name survives the filter exactly when it was saved and the catalog knows it. */
  lemma {:induction false} KnownOnlyMembers(names: seq<string>)
    ensures AllKnown(KnownOnly(names))
    ensures |KnownOnly(names)| <= |names|
    ensures forall x :: x in KnownOnly(names) <==> x in names && KnownName(x)
  {
    if names != [] {
      var init := names[..|names| - 1];
      KnownOnlyMembers(init);
      assert names == init + [names[|names| - 1]];
    }
  }

  /** A deck of known names loads unchanged. */
  lemma {:induction false} KnownOnlyKeepsKnownDeck(names: seq<string>)
    requires AllKnown(names)
    ensures KnownOnly(names) == names
  {
    if names != [] {
      var init := names[..|names| - 1];
      KnownOnlyKeepsKnownDeck(init);
      assert names == init + [names[|names| - 1]];
    }
  }

  /** The check run over a saved deck: every name the catalog does not know is dropped. */
  method FilterKnownNames(savedNames: seq<string>) returns (validCards: seq<string>)
    ensures validCards == KnownOnly(savedNames)
  {
    validCards := [];
    var i := 0;
    while i < |savedNames|
      invariant 0 <= i <= |savedNames|
      invariant validCards == KnownOnly(savedNames[..i])
    {
      assert savedNames[..i + 1][..i] == savedNames[..i];
      if KnownName(savedNames[i]) {
        validCards := validCards + [savedNames[i]];
      }
      i := i + 1;
    }
    assert savedNames[..|savedNames|] == savedNames;
  }

  // ---------------------------------------------------------------------
  // Statistics
  // ---------------------------------------------------------------------

  /** The power of the first card of `cards` with this name, and nothing for an unknown name. */
  function PowerIn(cards: seq<Card>, name: string): int {
    match FindCard(cards, name)
    case Some(c) => c.power
    case None => 0
  }

  /** The total catalog power of a list of names. */
  function DeckPower(names: seq<string>): int {
    if names == [] then 0
    else DeckPower(names[..|names| - 1]) + PowerIn(CardsList, names[|names| - 1])
  }

  function Distinct(names: seq<string>): set<string> {
    set x | x in names
  }

  /** The total power of two lists put together is the sum of their totals. */
  lemma {:induction false} DeckPowerAppend(s: seq<string>, t: seq<string>)
    ensures DeckPower(s + t) == DeckPower(s) + DeckPower(t)
    decreases |t|
  {
    if t == [] {
      assert s + t == s;
    } else {
      var t' := t[..|t| - 1];
      assert (s + t)[..|s + t| - 1] == s + t';
      DeckPowerAppend(s, t');
    }
  }

  /** Catalog powers are never negative, so neither is a deck's total. */
  lemma {:induction false} DeckPowerNonNegative(names: seq<string>)
    ensures DeckPower(names) >= 0
  {
    if names != [] {
      DeckPowerNonNegative(names[..|names| - 1]);
      var r := GetCardByName(names[|names| - 1]);
      if r.Some? {
        CatalogCardPlayable(r.value);
      }
    }
  }

  /**
   * The number of distinct names is at most the number of names, and equals
   * it exactly when no name occurs twice.
   */
  lemma {:induction false} DistinctCount(names: seq<string>)
    ensures |Distinct(names)| <= |names|
    ensures |Distinct(names)| == |names| <==> NoDuplicates(names)
  {
    if names != [] {
      var init, last := names[..|names| - 1], names[|names| - 1];
      DistinctCount(init);
      assert names == init + [last];
      assert Distinct(names) == Distinct(init) + {last};
      if last in init {
        var k :| 0 <= k < |init| && init[k] == last;
        assert names[k] == names[|names| - 1];
        assert Distinct(names) == Distinct(init);
      } else {
        assert NoDuplicates(names) <==> NoDuplicates(init);
      }
    }
  }

  /** The inner search of the statistics loop: the first card of the catalog with this name adds its power. */
  method FirstMatchPower(cards: seq<Card>, cardName: string) returns (power: int)
    ensures power == PowerIn(cards, cardName)
  {
    FindCardSpec(cards, cardName);
    power := 0;
    var j := 0;
    while j < |cards|
      invariant 0 <= j <= |cards|
      invariant forall k :: 0 <= k < j ==> cards[k].name != cardName
    {
      if cards[j].name == cardName {
        power := cards[j].power;
        return;
      }
      j := j + 1;
    }
  }

  // ---------------------------------------------------------------------
  // Pagination of the catalog gallery
  // ---------------------------------------------------------------------

  /** The number of gallery pages: the division of the card count by the page size, rounded up. */
  function TotalPages(count: nat, perPage: nat): nat
    requires perPage > 0
  {
    (count + perPage - 1) / perPage
  }

  /** The slice of the catalog shown on a page, clamped to the end as a list slice is. */
  function PageCards(all: seq<Card>, page: nat, perPage: nat): seq<Card> {
    var start := if page * perPage <= |all| then page * perPage else |all|;
    var end := if page * perPage + perPage <= |all| then page * perPage + perPage else |all|;
    all[start..end]
  }

  /** The page count is the least number of pages that holds every card. */
  lemma TotalPagesIsCeiling(count: nat, perPage: nat)
    requires perPage > 0
    ensures TotalPages(count, perPage) * perPage >= count
    ensures count > 0 ==> (TotalPages(count, perPage) - 1) * perPage < count
    ensures count == 0 <==> TotalPages(count, perPage) == 0
  {
    var q, r := (count + perPage - 1) / perPage, (count + perPage - 1) % perPage;
    assert count + perPage - 1 == q * perPage + r;
  }

  /**
   * A page holds at most `perPage` cards, the catalog's cards from index
   * `page * perPage` on, in order, and a page that ends within the catalog
   * is full.
   */
  lemma PageCardsSpec(all: seq<Card>, page: nat, perPage: nat)
    ensures var r := PageCards(all, page, perPage);
            && |r| <= perPage
            && (forall i :: 0 <= i < |r| ==> r[i] == all[page * perPage + i])
            && ((page + 1) * perPage <= |all| ==> |r| == perPage)
  {
    assert (page + 1) * perPage == page * perPage + perPage;
  }

  /** A page is empty exactly when it comes after the last page. */
  lemma PageEmptyPastEnd(all: seq<Card>, page: nat, perPage: nat)
    requires perPage > 0
    ensures PageCards(all, page, perPage) == [] <==> page >= TotalPages(|all|, perPage)
  {
    TotalPagesIsCeiling(|all|, perPage);
    var n := TotalPages(|all|, perPage);
    if page >= n {
      MulMonotone(n, page, perPage);
    } else {
      MulMonotone(page, n - 1, perPage);
    }
  }

  lemma MulMonotone(a: nat, b: nat, c: nat)
    requires a <= b
    ensures a * c <= b * c
  {
  }

  /** The pages before page k, put together, are the catalog up to where page k starts. */
  lemma {:induction false} PagesCover(all: seq<Card>, perPage: nat, k: nat)
    requires perPage > 0
    ensures Pages(all, perPage, k) == all[..if k * perPage <= |all| then k * perPage else |all|]
  {
    if k > 0 {
      PagesCover(all, perPage, k - 1);
      assert (k - 1) * perPage + perPage == k * perPage;
    }
  }

  /** The concatenation of pages 0 to k - 1. */
  function Pages(all: seq<Card>, perPage: nat, k: nat): seq<Card> {
    if k == 0 then [] else Pages(all, perPage, k - 1) + PageCards(all, k - 1, perPage)
  }

  /** Leafing through every page shows the whole catalog, each card once and in order. */
  lemma AllPagesShowCatalog(all: seq<Card>, perPage: nat)
    requires perPage > 0
    ensures Pages(all, perPage, TotalPages(|all|, perPage)) == all
  {
    TotalPagesIsCeiling(|all|, perPage);
    PagesCover(all, perPage, TotalPages(|all|, perPage));
  }

  // ---------------------------------------------------------------------
  // Scrolling the deck panel
  // ---------------------------------------------------------------------

  /** How many deck entries fit in a panel of this height; Python's floor division, Euclidean here since the divisor is positive. */
  function MaxVisible(panelHeight: int): int {
    (panelHeight - DeckPanelChrome) / DeckCardHeight
  }

  /** The scroll offset after the scrollbar update. */
  function ClampedOffset(offset: int, total: nat, maxVisible: int): int {
    if total <= maxVisible then 0
    else
      var maxScroll := total - maxVisible;
      var lower := if offset <= maxScroll then offset else maxScroll;
      if 0 >= lower then 0 else lower
  }

  /**
   * With every card visible the offset is reset to zero; otherwise it lands
   * in [0, total - maxVisible], unchanged when it already was there, so a
   * second update changes nothing.
   */
  lemma ClampedOffsetSpec(offset: int, total: nat, maxVisible: int)
    ensures var r := ClampedOffset(offset, total, maxVisible);
            && (total <= maxVisible ==> r == 0)
            && (total > maxVisible ==> 0 <= r <= total - maxVisible)
            && (total > maxVisible && 0 <= offset <= total - maxVisible ==> r == offset)
            && ClampedOffset(r, total, maxVisible) == r
  {
  }

  // ---------------------------------------------------------------------
  // The deck builder
  // ---------------------------------------------------------------------

  class DeckCreator {
    var deckCards: seq<string>
    var deckScrollOffset: int
    var currentPage: nat

    /** Every name in the deck is a catalog name, the scroll offset is not negative and the page exists. */
    ghost predicate Valid()
      reads this
    {
      && AllKnown(deckCards)
      && deckScrollOffset >= 0
      && currentPage < TotalPages(|CardsList|, CardsPerPage)
    }

    /**
     * Opens the builder on the saved deck, `None` when there is no file or it
     * cannot be read or has an unknown format; names the catalog does not
     * know are dropped.
     */
    constructor (saved: Option<seq<string>>)
      ensures Valid()
      ensures deckCards == (if saved.Some? then KnownOnly(saved.value) else [])
      ensures deckScrollOffset == 0 && currentPage == 0
    {
      var loaded: seq<string> := [];
      if saved.Some? {
        loaded := FilterKnownNames(saved.value);
        KnownOnlyMembers(saved.value);
      }
      deckCards := loaded;
      deckScrollOffset := 0;
      currentPage := 0;
    }

    /**
     * Adds a catalog card by name.  Refused with a warning, in this order of
     * checks, when the deck already holds 20 cards, when no catalog card has
     * the name, and when the name is already in the deck.
     */
    method AddToDeck(cardName: string) returns (added: bool, warning: Option<AddWarning>)
      requires Valid()
      modifies this`deckCards
      ensures Valid()
      ensures added <==> warning == None
      ensures warning == Some(DeckFull) <==> |old(deckCards)| >= MaxDeckCards
      ensures warning == Some(CardNotFound) <==> |old(deckCards)| < MaxDeckCards && !KnownName(cardName)
      ensures warning == Some(AlreadyInDeck) <==>
                |old(deckCards)| < MaxDeckCards && KnownName(cardName) && cardName in old(deckCards)
      ensures deckCards == if added then old(deckCards) + [cardName] else old(deckCards)
      ensures DeckRules(old(deckCards)) ==> DeckRules(deckCards)
    {
      if |deckCards| >= MaxDeckCards {
        return false, Some(DeckFull);
      }
      if !KnownName(cardName) {
        return false, Some(CardNotFound);
      }
      if cardName in deckCards {
        return false, Some(AlreadyInDeck);
      }
      if DeckRules(deckCards) {
        AdditionKeepsRules(deckCards, cardName);
      }
      deckCards := deckCards + [cardName];
      return true, None;
    }

    /**
     * Removes the entry at `cardIndex` when there is one; the scroll offset
     * moves up by one, not below zero, when the removed entry was above the
     * first visible one.
     */
    method RemoveFromDeck(cardIndex: int) returns (removed: bool)
      requires Valid()
      modifies this`deckCards, this`deckScrollOffset
      ensures Valid()
      ensures removed <==> 0 <= cardIndex < |old(deckCards)|
      ensures removed ==> deckCards == old(deckCards)[..cardIndex] + old(deckCards)[cardIndex + 1..]
      ensures !removed ==> deckCards == old(deckCards)
      ensures DeckRules(old(deckCards)) ==> DeckRules(deckCards)
      ensures deckScrollOffset ==
                if removed && cardIndex < old(deckScrollOffset) then old(deckScrollOffset) - 1
                else old(deckScrollOffset)
    {
      if 0 <= cardIndex < |deckCards| {
        RemovalKeepsRules(deckCards, cardIndex);
        deckCards := deckCards[..cardIndex] + deckCards[cardIndex + 1..];
        if cardIndex < deckScrollOffset {
          deckScrollOffset := if 0 >= deckScrollOffset - 1 then 0 else deckScrollOffset - 1;
        }
        return true;
      }
      return false;
    }

    /** Empties the deck and scrolls back to the top. */
    method ClearDeck()
      requires Valid()
      modifies this`deckCards, this`deckScrollOffset
      ensures Valid()
      ensures deckCards == [] && deckScrollOffset == 0
    {
      deckCards := [];
      deckScrollOffset := 0;
    }

    /** Keeps the deck panel's scroll offset within the entries that can be scrolled to. */
    method UpdateScrollbar(panelHeight: int)
      requires Valid()
      modifies this`deckScrollOffset
      ensures Valid()
      ensures deckScrollOffset == ClampedOffset(old(deckScrollOffset), |deckCards|, MaxVisible(panelHeight))
    {
      var maxVisibleCards := MaxVisible(panelHeight);
      var totalCards := |deckCards|;
      if totalCards <= maxVisibleCards {
        deckScrollOffset := 0;
        return;
      }
      var maxScroll := totalCards - maxVisibleCards;
      var lower := if deckScrollOffset <= maxScroll then deckScrollOffset else maxScroll;
      deckScrollOffset := if 0 >= lower then 0 else lower;
    }

    /** The gallery's "previous" button, active from the second page on. */
    method PreviousPage()
      requires Valid()
      modifies this`currentPage
      ensures Valid()
      ensures currentPage == if old(currentPage) > 0 then old(currentPage) - 1 else old(currentPage)
    {
      if currentPage > 0 {
        currentPage := currentPage - 1;
      }
    }

    /** The gallery's "next" button, active up to the last page. */
    method NextPage()
      requires Valid()
      modifies this`currentPage
      ensures Valid()
      ensures currentPage ==
                if old(currentPage) < TotalPages(|CardsList|, CardsPerPage) - 1 then old(currentPage) + 1
                else old(currentPage)
    {
      if currentPage < TotalPages(|CardsList|, CardsPerPage) - 1 {
        currentPage := currentPage + 1;
      }
    }

    /** The catalog cards on the current gallery page: a full page but for the last, never an empty one. */
    method GetCurrentPageCards() returns (page: seq<Card>)
      requires Valid()
      ensures page == PageCards(CardsList, currentPage, CardsPerPage)
      ensures 0 < |page| <= CardsPerPage
    {
      var startIdx := currentPage * CardsPerPage;
      var endIdx := startIdx + CardsPerPage;
      page := CardsList[(if startIdx <= |CardsList| then startIdx else |CardsList|)..(if endIdx <= |CardsList| then endIdx else |CardsList|)];
      PageCardsSpec(CardsList, currentPage, CardsPerPage);
      PageEmptyPastEnd(CardsList, currentPage, CardsPerPage);
    }

    /**
     * The statistics panel: the number of entries, the catalog power of the
     * deck's names and the number of distinct names, which is at most the
     * number of entries and equal to it when no name repeats.
     */
    method GetCardStats() returns (stats: CardStats)
      ensures stats.totalCards == |deckCards|
      ensures stats.totalPower == DeckPower(deckCards) && stats.totalPower >= 0
      ensures stats.uniqueCards == |Distinct(deckCards)| <= stats.totalCards
      ensures stats.uniqueCards == stats.totalCards <==> NoDuplicates(deckCards)
    {
      var totalPower := 0;
      var i := 0;
      while i < |deckCards|
        invariant 0 <= i <= |deckCards|
        invariant totalPower == DeckPower(deckCards[..i])
      {
        assert deckCards[..i + 1][..i] == deckCards[..i];
        var power := FirstMatchPower(CardsList, deckCards[i]);
        totalPower := totalPower + power;
        i := i + 1;
      }
      assert deckCards[..|deckCards|] == deckCards;
      DeckPowerNonNegative(deckCards);
      DistinctCount(deckCards);
      stats := CardStats(|deckCards|, totalPower, |Distinct(deckCards)|);
    }
  }

  /** Adding through the builder keeps a deck within 20 cards and free of repeated names. */
  lemma AdditionKeepsRules(names: seq<string>, cardName: string)
    requires DeckRules(names)
    requires |names| < MaxDeckCards && cardName !in names
    ensures DeckRules(names + [cardName])
  {
    var r := names + [cardName];
    forall i, j | 0 <= i < j < |r| ensures r[i] != r[j] {
      if j == |names| {
        assert r[i] == names[i];
      }
    }
  }

  /**
   * Removing the entry at index i keeps the other entries in their order and
   * drops exactly one occurrence of that name.
   */
  lemma RemovalShifts(names: seq<string>, i: nat)
    requires i < |names|
    ensures var r := names[..i] + names[i + 1..];
            && |r| == |names| - 1
            && (forall k :: 0 <= k < |r| ==> r[k] == if k < i then names[k] else names[k + 1])
            && multiset(r) == multiset(names) - multiset{names[i]}
  {
    assert names == names[..i] + [names[i]] + names[i + 1..];
  }

  /** Removing an entry keeps catalog names and the deck rules. */
  lemma RemovalKeepsRules(names: seq<string>, i: nat)
    requires i < |names|
    ensures AllKnown(names) ==> AllKnown(names[..i] + names[i + 1..])
    ensures DeckRules(names) ==> DeckRules(names[..i] + names[i + 1..])
  {
    var r := names[..i] + names[i + 1..];
    RemovalShifts(names, i);
    if AllKnown(names) {
      forall k | 0 <= k < |r| ensures KnownName(r[k]) {
        assert KnownName(names[if k < i then k else k + 1]);
      }
    }
    if DeckRules(names) {
      forall k, l | 0 <= k < l < |r| ensures r[k] != r[l] {
        var k', l' := if k < i then k else k + 1, if l < i then l else l + 1;
        assert r[k] == names[k'] && r[l] == names[l'] && k' < l';
      }
    }
  }
}
