/**
 * The card catalog of the game: card definitions, the fixed list of thirty
 * cards and the lookup that hands out a copy of a catalog card by name.
 * The abilities a card may carry are named here; what they do to the
 * battlefield is in module Abilities.
 */
module Cards {
  import opened Wrappers

  /** The two kinds of battlefield row a card may be allowed into. */
  datatype Line = Front | Back

  /** The ability a card triggers when it is placed, one per ability procedure. */
  datatype Ability =
    | OakBardLights  // +1 to every card in the row it is placed in
    | Frost          // -1 to every enemy front-row card, the bandit excepted
    | Fog            // -1 to every enemy back-row card
    | Engineer       // +3 to the weakest other card of its row
    | MageSynergy    // the one-shot +2 for the fire mage / ice mage pair
    | Dragon         // destroys the strongest enemy front-row card, the bandit excepted

  /** A card definition; the image path is not modelled. */
  datatype Card = Card(name: string, power: int, allowedLines: seq<Line>, ability: Option<Ability>)

  /** The card immune to Frost and to the Dragon. */
  const Bandit: string := "Разбойник"
  const FireMage: string := "Огненный маг"
  const IceMage: string := "Ледяной маг"

  /** The catalog, in its source order. */
  const CardsList: seq<Card> := [
    Card("Ведьмак", 10, [Front], None),
    Card("Химик", 4, [Back], None),
    Card("Мудрый дуб", 2, [Back], Some(OakBardLights)),
    Card("Стужа", 0, [Front], Some(Frost)),
    Card("Гном", 1, [Back], None),
    Card("Каменный голем", 8, [Front], None),
    Card("Элитный рыцарь", 5, [Front], None),
    Card("Лучник", 5, [Back], None),
    Card("Арбалетчик", 5, [Back], None),
    Card("Инженер", 1, [Back], Some(Engineer)),
    Card("Бард", 3, [Front], Some(OakBardLights)),
    Card(FireMage, 5, [Back], Some(MageSynergy)),
    Card(IceMage, 5, [Back], Some(MageSynergy)),
    Card("Дракон", 8, [Back], Some(Dragon)),
    Card("Мгла", 0, [Back], Some(Fog)),
    Card("Крестьянин", 6, [Front], None),
    Card("Зверобой", 4, [Front], None),
    Card("Чародейка", 7, [Back], None),
    Card("Нордлинг", 8, [Front], None),
    Card("Ручной медведь", 8, [Front], None),
    Card("Драккар", 5, [Front], None),
    Card("Требушет", 8, [Back], None),
    Card("Бродяга", 3, [Front], None),
    Card("Страж леса", 4, [Back], None),
    Card("Лучница из племени", 3, [Back], None),
    Card("Ворон", 4, [Back], None),
    Card("Луналикая", 6, [Back], None),
    Card(Bandit, 7, [Front], None),
    Card("Химера", 4, [Front], None),
    Card("Сигнальные огни", 0, [Front], Some(OakBardLights))
  ]

  /** True when some catalog card carries this name. */
  predicate KnownName(name: string) {
    FindCard(CardsList, name).Some?
  }

  /**
   * A card is the catalog card of its own name, that is, a copy obtained from
   * the lookup; cards in decks and hands are always such copies.
   * CatalogCardIsListed shows this is membership in the catalog.
   */
  predicate IsCatalogCard(c: Card) {
    FindCard(CardsList, c.name) == Some(c)
  }

  /** The first card of `cards` named `name`, if any. */
  function FindCard(cards: seq<Card>, name: string): Option<Card> {
    if cards == [] then None
    else if cards[0].name == name then Some(cards[0])
    else FindCard(cards[1..], name)
  }

  /**
   * The search finds a card exactly when one carries the name, and what it
   * finds is the first such card.
   */
  lemma {:induction false} FindCardSpec(cards: seq<Card>, name: string)
    ensures var r := FindCard(cards, name);
            && (r.None? <==> forall i :: 0 <= i < |cards| ==> cards[i].name != name)
            && (r.Some? ==> exists i :: 0 <= i < |cards| && cards[i] == r.value && cards[i].name == name &&
                              forall j :: 0 <= j < i ==> cards[j].name != name)
  {
    if cards != [] && cards[0].name != name {
      var tail := cards[1..];
      FindCardSpec(tail, name);
      var r := FindCard(tail, name);
      forall i | 0 <= i < |tail| ensures tail[i] == cards[i + 1] { }
      if r.Some? {
        var i :| 0 <= i < |tail| && tail[i] == r.value && tail[i].name == name &&
                 forall j :: 0 <= j < i ==> tail[j].name != name;
        forall j | 0 <= j < i + 1 ensures cards[j].name != name {
          if j > 0 { assert cards[j] == tail[j - 1]; }
        }
        assert cards[i + 1] == r.value;
      } else {
        forall i | 0 <= i < |cards| ensures cards[i].name != name {
          if i > 0 { assert cards[i] == tail[i - 1]; }
        }
      }
    } else if cards != [] {
      assert cards[0] == FindCard(cards, name).value;
    }
  }

  /**
   * The catalog lookup: a copy of the catalog card with this name, or None.
   * Cards are values here, so the copy can never alias the catalog entry.
   */
  function GetCardByName(name: string): (r: Option<Card>)
    ensures r.Some? <==> KnownName(name)
    ensures r.Some? ==> r.value.name == name && IsCatalogCard(r.value)
  {
    FindCardSpec(CardsList, name);
    FindCard(CardsList, name)
  }

  /** A name is known exactly when some catalog card carries it. */
  lemma KnownNameListed(name: string)
    ensures KnownName(name) <==> exists i :: 0 <= i < |CardsList| && CardsList[i].name == name
  {
    FindCardSpec(CardsList, name);
  }

  /** No two catalog cards share a name, so a name-keyed dictionary holds all thirty. */
  lemma CatalogNamesUnique()
    ensures forall i, j :: 0 <= i < j < |CardsList| ==> CardsList[i].name != CardsList[j].name
  {
  }

  /** The lookup returns exactly the catalog card of that name, as the name-keyed dictionary does. */
  lemma GetCardByNameIsCatalogEntry(i: nat)
    requires i < |CardsList|
    ensures GetCardByName(CardsList[i].name) == Some(CardsList[i])
  {
    CatalogNamesUnique();
    FindCardSpec(CardsList, CardsList[i].name);
    var r := GetCardByName(CardsList[i].name);
    var k :| 0 <= k < |CardsList| && CardsList[k] == r.value &&
             forall j :: 0 <= j < k ==> CardsList[j].name != CardsList[i].name;
    assert k == i;
  }

  /** Being the catalog card of one's own name is the same as being listed in the catalog. */
  lemma CatalogCardIsListed(c: Card)
    ensures IsCatalogCard(c) <==> c in CardsList
  {
    FindCardSpec(CardsList, c.name);
    if c in CardsList {
      var i :| 0 <= i < |CardsList| && CardsList[i] == c;
      GetCardByNameIsCatalogEntry(i);
    }
  }

  /**
   * What a match relies on about a card in a deck or hand: its power is not
   * negative, and if it is the Dragon it can only go to a back row.
   */
  predicate Playable(c: Card) {
    c.power >= 0 && (c.ability == Some(Dragon) ==> Front !in c.allowedLines)
  }

  /** Every catalog card is playable; in particular the Dragon is a back-row card only. */
  lemma CatalogCardPlayable(c: Card)
    requires IsCatalogCard(c)
    ensures Playable(c)
  {
    FindCardSpec(CardsList, c.name);
    var i :| 0 <= i < |CardsList| && CardsList[i] == c;
    ListedCardPlayable(i);
  }

  lemma ListedCardPlayable(i: nat)
    requires i < |CardsList|
    ensures Playable(CardsList[i])
  {
  }
}
