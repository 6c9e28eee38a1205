/**
 * The authoritative match state of the game server and its transitions:
 * deck submission ("ready"), card placement, passing, dealing, score
 * recomputation and round resolution.  Actions arrive one at a time; the
 * network, the database and the transient on-screen message are not part of
 * this model.
 */
module Server {
  import opened Wrappers
  import opened Cards
  import opened Abilities

  /** A value per player, as the source's {"p1": ..., "p2": ...} dictionaries. */
  datatype PerPlayer<T> = PerPlayer(p1: T, p2: T) {
    function Get(p: Player): T {
      match p
      case P1 => p1
      case P2 => p2
    }

    function Set(p: Player, v: T): (r: PerPlayer<T>)
      ensures r.Get(p) == v && r.Get(p.Other()) == Get(p.Other())
    {
      match p
      case P1 => this.(p1 := v)
      case P2 => this.(p2 := v)
    }
  }

  /** Two per-player values agreeing on both players are equal. */
  lemma SamePerPlayer<T>(x: PerPlayer<T>, y: PerPlayer<T>, p: Player)
    requires x.Get(p) == y.Get(p) && x.Get(p.Other()) == y.Get(p.Other())
    ensures x == y
  {
    match p
    case P1 =>
    case P2 =>
  }

  datatype Winner = Draw | Won(player: Player)

  datatype ReadyOutcome = WrongDeckSize | UnknownCardName | DeckAccepted

  datatype PlaceOutcome = NotYourTurn | NoSuchCard | LineNotAllowed | Placed

  const DeckSize: nat := 20
  const StartingHand: nat := 10
  const RoundDraw: nat := 5
  const StartingLives: int := 2

  function Min(a: int, b: int): int {
    if a <= b then a else b
  }

  // ---------------------------------------------------------------------
  // Scores
  // ---------------------------------------------------------------------

  /** The sum of the powers of a row. */
  function RowTotal(s: seq<PlacedCard>): int {
    if s == [] then 0 else RowTotal(s[..|s| - 1]) + s[|s| - 1].power
  }

  /** Each player's score: the sum of the powers in the two zones whose key carries that player's tag. */
  function Scores(b: Board): PerPlayer<int> {
    PerPlayer(RowTotal(b.p1Back) + RowTotal(b.p1Front), RowTotal(b.p2Front) + RowTotal(b.p2Back))
  }

  /** What the score loop has accumulated for p after the first k zones of the iteration order. */
  function PartialScore(b: Board, p: Player, k: nat): int
    requires k <= |AllZones|
  {
    if k == 0 then 0
    else PartialScore(b, p, k - 1) + (if AllZones[k - 1].Side() == p then RowTotal(b.Get(AllZones[k - 1])) else 0)
  }

  /** Walking all four zones adds up each player's two zones and nothing else. */
  lemma PartialScoreComplete(b: Board, p: Player)
    ensures PartialScore(b, p, |AllZones|) == Scores(b).Get(p)
  {
    assert PartialScore(b, p, 1) == (if p == P1 then RowTotal(b.p1Back) else 0);
    assert PartialScore(b, p, 2) == (if p == P1 then RowTotal(b.p1Back) + RowTotal(b.p1Front) else 0);
    assert PartialScore(b, p, 3) == (if p == P1 then Scores(b).p1 else RowTotal(b.p2Front));
  }

  /** An empty battlefield scores zero for both players. */
  lemma EmptyBoardScoresZero()
    ensures Scores(EmptyBoard) == PerPlayer(0, 0)
  {
  }

  /** Non-negative powers give non-negative scores. */
  lemma {:induction false} RowTotalNonNegative(s: seq<PlacedCard>)
    requires RowNonNegative(s)
    ensures RowTotal(s) >= 0
  {
    if s != [] {
      RowTotalNonNegative(s[..|s| - 1]);
    }
  }

  // ---------------------------------------------------------------------
  // Round resolution rules
  // ---------------------------------------------------------------------

  /** Life loss at the end of a round: a strictly higher score costs the opponent one life, a tie costs both one. */
  function LivesAfter(lives: PerPlayer<int>, score: PerPlayer<int>): PerPlayer<int> {
    if score.p1 > score.p2 then lives.(p2 := lives.p2 - 1)
    else if score.p2 > score.p1 then lives.(p1 := lives.p1 - 1)
    else PerPlayer(lives.p1 - 1, lives.p2 - 1)
  }

  /** The declared winner once some life total is at most zero. */
  function WinnerOf(lives: PerPlayer<int>): Winner {
    if lives.p1 == lives.p2 then Draw
    else if lives.p1 > 0 then Won(P1)
    else Won(P2)
  }

  /** Who opens a round: player 1 on odd rounds, player 2 on even ones. */
  function FirstTurn(round: int): Player {
    if round % 2 != 0 then P1 else P2
  }

  /**
   * From a state where both players still have lives, one resolution takes
   * exactly one life from the round's loser (from both on a tie), never from
   * the round's winner, and when the game ends the declared winner is the
   * player left with strictly more lives, which are positive.
   */
  lemma RoundResolutionRules(lives: PerPlayer<int>, score: PerPlayer<int>)
    requires 1 <= lives.p1 && 1 <= lives.p2
    ensures var l := LivesAfter(lives, score);
            && (score.p1 > score.p2 ==> l.p1 == lives.p1 && l.p2 == lives.p2 - 1)
            && (score.p2 > score.p1 ==> l.p2 == lives.p2 && l.p1 == lives.p1 - 1)
            && (score.p1 == score.p2 ==> l.p1 == lives.p1 - 1 && l.p2 == lives.p2 - 1)
            && l.p1 + l.p2 < lives.p1 + lives.p2
            && ((l.p1 <= 0 || l.p2 <= 0) ==>
                  match WinnerOf(l)
                  case Draw => l.p1 == l.p2 == 0
                  case Won(p) => l.Get(p) > 0 && l.Get(p) > l.Get(p.Other()))
  {
  }

  /**
   * Resolution does not check for a finished game: resolving again from lives
   * (1, 0), where player 1 has won, on tied scores leaves (0, -1), and the
   * declared winner becomes player 2, who has fewer lives.
   */
  lemma ResolutionAfterGameOverFlipsWinner()
    ensures WinnerOf(PerPlayer(1, 0)) == Won(P1)
    ensures var l := LivesAfter(PerPlayer(1, 0), PerPlayer(0, 0));
            l == PerPlayer(0, -1) && WinnerOf(l) == Won(P2) && l.p2 < l.p1
  {
  }

  // ---------------------------------------------------------------------
  // Dealing
  // ---------------------------------------------------------------------

  /** The hand after drawing up to n cards from the front of the deck. */
  function DealtHand(hand: seq<Card>, deck: seq<Card>, n: nat): seq<Card> {
    hand + deck[..Min(n, |deck|)]
  }

  /** The deck after drawing up to n cards from its front. */
  function DealtDeck(deck: seq<Card>, n: nat): seq<Card> {
    deck[Min(n, |deck|)..]
  }

  /** Drawing moves cards from deck to hand: nothing is lost, duplicated or reordered. */
  lemma DealingConserves(hand: seq<Card>, deck: seq<Card>, n: nat)
    ensures DealtHand(hand, deck, n) + DealtDeck(deck, n) == hand + deck
    ensures |DealtHand(hand, deck, n)| == |hand| + Min(n, |deck|)
    ensures multiset(DealtHand(hand, deck, n)) + multiset(DealtDeck(deck, n)) == multiset(hand) + multiset(deck)
  {
    var k := Min(n, |deck|);
    assert deck[..k] + deck[k..] == deck;
    assert DealtHand(hand, deck, n) + DealtDeck(deck, n) == hand + (deck[..k] + deck[k..]);
  }

  /** Every element is a copy of a catalog card. */
  predicate CatalogCards(s: seq<Card>) {
    forall c :: c in s ==> IsCatalogCard(c)
  }

  /** Every element is playable. */
  predicate PlayableCards(s: seq<Card>) {
    forall c :: c in s ==> Playable(c)
  }

  // ---------------------------------------------------------------------
  // Deck submission
  // ---------------------------------------------------------------------

  /** The catalog copies of the resolvable names, in order; unknown names are dropped. */
  function KnownCards(names: seq<string>): seq<Card> {
    if names == [] then []
    else
      var rest := KnownCards(names[..|names| - 1]);
      match GetCardByName(names[|names| - 1])
      case Some(c) => rest + [c]
      case None => rest
  }

  /** Converting never produces more cards than names. */
  lemma {:induction false} KnownCardsShorter(names: seq<string>)
    ensures |KnownCards(names)| <= |names|
  {
    if names != [] {
      KnownCardsShorter(names[..|names| - 1]);
    }
  }

  /** Converting produces catalog cards only: each is the catalog card of its name. */
  lemma {:induction false} KnownCardsCatalog(names: seq<string>)
    ensures CatalogCards(KnownCards(names))
  {
    if names != [] {
      KnownCardsCatalog(names[..|names| - 1]);
    }
  }

  /** When every name is known, the conversion is one card per name, in order, each carrying its name. */
  lemma {:induction false} KnownCardsAllKnown(names: seq<string>)
    requires forall i :: 0 <= i < |names| ==> KnownName(names[i])
    ensures |KnownCards(names)| == |names|
    ensures forall i :: 0 <= i < |names| ==> KnownCards(names)[i].name == names[i]
  {
    if names != [] {
      var init, last := names[..|names| - 1], names[|names| - 1];
      assert forall i :: 0 <= i < |init| ==> init[i] == names[i];
      KnownCardsAllKnown(init);
      var c := GetCardByName(last);
      assert c.Some?;
      assert KnownCards(names) == KnownCards(init) + [c.value];
    }
  }

  /** The converted deck consists of playable cards. */
  lemma KnownCardsPlayable(names: seq<string>)
    ensures PlayableCards(KnownCards(names))
  {
    KnownCardsCatalog(names);
    forall c | c in KnownCards(names) ensures Playable(c) {
      CatalogCardPlayable(c);
    }
  }

  /** An unknown name is dropped, so the conversion comes out short. */
  lemma {:induction false} KnownCardsDropsUnknown(names: seq<string>, k: nat)
    requires k < |names| && !KnownName(names[k])
    ensures |KnownCards(names)| < |names|
  {
    var init := names[..|names| - 1];
    KnownCardsShorter(init);
    if k < |names| - 1 {
      assert init[k] == names[k];
      KnownCardsDropsUnknown(init, k);
    }
  }

  /** A deck of names converts to a deck of the same size exactly when every name is known. */
  lemma ConversionComplete(names: seq<string>)
    ensures |KnownCards(names)| <= |names|
    ensures |KnownCards(names)| == |names| <==> forall k :: 0 <= k < |names| ==> KnownName(names[k])
  {
    KnownCardsShorter(names);
    if forall k :: 0 <= k < |names| ==> KnownName(names[k]) {
      KnownCardsAllKnown(names);
    } else {
      var k :| 0 <= k < |names| && !KnownName(names[k]);
      KnownCardsDropsUnknown(names, k);
    }
  }

  /** The name-to-card conversion loop of the "ready" action. */
  method ConvertDeck(deckNames: seq<string>) returns (deckObjects: seq<Card>)
    ensures deckObjects == KnownCards(deckNames)
  {
    deckObjects := [];
    var i := 0;
    while i < |deckNames|
      invariant 0 <= i <= |deckNames|
      invariant deckObjects == KnownCards(deckNames[..i])
    {
      assert deckNames[..i + 1][..i] == deckNames[..i];
      var cardObj := GetCardByName(deckNames[i]);
      if cardObj.Some? {
        deckObjects := deckObjects + [cardObj.value];
      }
      i := i + 1;
    }
    assert deckNames[..|deckNames|] == deckNames;
  }

  /**
   * The checks of "ready" before anything is stored: the deck must have
   * exactly 20 names, and every name must resolve to a catalog card.
   */
  method CheckDeck(deckNames: seq<string>) returns (outcome: ReadyOutcome, deckObjects: seq<Card>)
    ensures outcome == WrongDeckSize <==> |deckNames| != DeckSize
    ensures outcome == UnknownCardName <==>
              |deckNames| == DeckSize && exists i :: 0 <= i < |deckNames| && !KnownName(deckNames[i])
    ensures outcome == DeckAccepted ==> deckObjects == KnownCards(deckNames) && PlayableCards(deckObjects)
  {
    if |deckNames| != DeckSize {
      return WrongDeckSize, [];
    }
    deckObjects := ConvertDeck(deckNames);
    ConversionComplete(deckNames);
    if |deckObjects| != DeckSize {
      return UnknownCardName, deckObjects;
    }
    KnownCardsPlayable(deckNames);
    outcome := DeckAccepted;
  }

  /** A reordering of playable cards is playable. */
  lemma ShuffleKeepsPlayable(s: seq<Card>, t: seq<Card>)
    requires PlayableCards(s) && multiset(s) == multiset(t)
    ensures PlayableCards(t)
  {
    forall c | c in t ensures Playable(c) {
      assert c in multiset(t);
    }
  }

  /** Swapping two entries keeps the same cards. */
  lemma SwapKeepsMultiset(s: seq<Card>, i: nat, j: nat)
    requires i < |s| && j < |s|
    ensures multiset(s[i := s[j]][j := s[i]]) == multiset(s)
  {
    if i != j {
      var t := s[i := s[j]][j := s[i]];
      calc {
        multiset(t);
        multiset(s[i := s[j]]) - multiset{s[j]} + multiset{s[i]};
        multiset(s) - multiset{s[i]} + multiset{s[j]} - multiset{s[j]} + multiset{s[i]};
        multiset(s);
      }
    }
  }

  /**
   * The shuffle applied to an accepted deck, as random.shuffle does it
   * (Fisher-Yates from the back); `draws` stands for the random numbers,
   * and once they run out the remaining positions stay in place.
   */
  method Shuffle(cards: seq<Card>, draws: seq<nat>) returns (r: seq<Card>)
    ensures |r| == |cards|
    ensures multiset(r) == multiset(cards)
  {
    r := cards;
    var i := |r| - 1;
    var k := 0;
    while i > 0
      invariant -1 <= i < |r|
      invariant |r| == |cards|
      invariant multiset(r) == multiset(cards)
    {
      var j := if k < |draws| then draws[k] % (i + 1) else i;
      SwapKeepsMultiset(r, i, j);
      r := r[i := r[j]][j := r[i]];
      i := i - 1;
      k := k + 1;
    }
  }

  // ---------------------------------------------------------------------
  // Placement
  // ---------------------------------------------------------------------

  /** The battlefield record of a card leaving the hand. */
  function Placement(c: Card, owner: Player): PlacedCard {
    PlacedCard(c.name, c.power, owner, false)
  }

  /** The battlefield after appending the card to the row. */
  function Appended(b: Board, c: Card, owner: Player, z: Zone): Board {
    b.Set(z, b.Get(z) + [Placement(c, owner)])
  }

  /**
   * The battlefield after a placement: the card is appended to the end of the
   * row, then the synergy scan runs, then the card's own ability (whose
   * played card is the last one of the row).
   */
  function Resolve(b: Board, c: Card, owner: Player, z: Zone): Board {
    var appended := Appended(b, c, owner, z);
    var synergized := MageSynergyEffect(appended).board;
    match c.ability
    case None => synergized
    case Some(a) => AbilityEffect(a, synergized, z, |appended.Get(z)| - 1)
  }

  /**
   * A placed card stays where it was put: the row grows by exactly one and its
   * last card is the placed card, with its name and owner, whatever abilities
   * ran (the Dragon only removes from the enemy's front row, never from the
   * row it was placed in).
   */
  lemma PlacedCardStays(b: Board, c: Card, owner: Player, z: Zone)
    ensures var r := Resolve(b, c, owner, z);
            && |r.Get(z)| == |b.Get(z)| + 1
            && r.Get(z)[|b.Get(z)|].name == c.name
            && r.Get(z)[|b.Get(z)|].owner == owner
  {
    var appended := Appended(b, c, owner, z);
    var synergized := MageSynergyEffect(appended).board;
    MageSynergyKeepsSlots(appended);
    assert SameSlots(appended.Get(z), synergized.Get(z));
    match c.ability
    case None =>
    case Some(a) =>
      AbilityKeepsSlots(a, synergized, z, |appended.Get(z)| - 1, z);
  }

  /** A mage's own ability right after the placement's synergy scan changes nothing. */
  lemma MageAbilityAfterScanIsNoOp(b: Board, c: Card, owner: Player, z: Zone)
    requires c.ability == Some(MageSynergy)
    ensures Resolve(b, c, owner, z) == MageSynergyEffect(Appended(b, c, owner, z)).board
  {
    var synergized := MageSynergyEffect(Appended(b, c, owner, z)).board;
    MageSynergyAtMostOnce(Appended(b, c, owner, z));
    MageSynergySpec(synergized);
  }

  /** A placement never makes a power negative. */
  lemma ResolveKeepsNonNegative(b: Board, c: Card, owner: Player, z: Zone)
    requires NonNegative(b) && c.power >= 0
    ensures NonNegative(Resolve(b, c, owner, z))
  {
    var appended := Appended(b, c, owner, z);
    AppendedNonNegative(b, c, owner, z);
    MageSynergyKeepsNonNegative(appended);
    var synergized := MageSynergyEffect(appended).board;
    match c.ability
    case None =>
      assert Resolve(b, c, owner, z) == synergized;
    case Some(a) =>
      var self := |appended.Get(z)| - 1;
      assert Resolve(b, c, owner, z) == AbilityEffect(a, synergized, z, self);
      AbilityKeepsNonNegative(a, synergized, z, self);
  }

  lemma AppendedNonNegative(b: Board, c: Card, owner: Player, z: Zone)
    requires NonNegative(b) && c.power >= 0
    ensures NonNegative(Appended(b, c, owner, z))
  {
    var appended := Appended(b, c, owner, z);
    forall y: Zone ensures RowNonNegative(appended.Get(y)) {
      assert RowNonNegative(b.Get(y));
    }
  }

  // ---------------------------------------------------------------------
  // The match state
  // ---------------------------------------------------------------------

  class GameServer {
    var readyPlayers: int
    var readySet: set<Player>    // the players whose entry in game_state["players"] says ready
    var gameStarted: bool
    var currentTurn: Player
    var lives: PerPlayer<int>
    var passed: PerPlayer<bool>
    var score: PerPlayer<int>
    var round: int
    var gameOver: bool
    var winner: Option<Winner>
    var lineCards: Board
    var decks: PerPlayer<seq<Card>>
    var hands: PerPlayer<seq<Card>>

    /**
     * The match invariant: the ready counter counts the ready players; lives
     * start at 2 and every round costs at least one life in all, so there are
     * at most three rounds; the game is over exactly when some life total is
     * at most zero, and only then is there a winner; the scores are those of
     * the battlefield, no power is negative, and every card in the decks and
     * hands is playable (non-negative power, the Dragon on the back row only).
     */
    ghost predicate Valid()
      reads this
    {
      ReadyValid() && ProgressValid() && BoardValid() && CardsValid()
    }

    /** The ready counter counts the ready players, and the game starts only with both ready. */
    ghost predicate ReadyValid()
      reads this`readyPlayers, this`readySet, this`gameStarted
    {
      readyPlayers == |readySet| && (gameStarted ==> readyPlayers == 2)
    }

    /** Lives, rounds, game over and winner agree. */
    ghost predicate ProgressValid()
      reads this`round, this`lives, this`gameOver, this`winner
    {
      && 1 <= round <= 3
      && lives.p1 <= StartingLives && lives.p2 <= StartingLives
      && (gameOver <==> lives.p1 <= 0 || lives.p2 <= 0)
      && (!gameOver ==> lives.p1 + lives.p2 + round <= 5)
      && (winner.Some? <==> gameOver)
    }

    /** The scores are those of the battlefield, where no power is negative. */
    ghost predicate BoardValid()
      reads this`score, this`lineCards
    {
      score == Scores(lineCards) && NonNegative(lineCards)
    }

    /** Every card in the decks and hands is playable: non-negative power, the Dragon on the back row only. */
    ghost predicate CardsValid()
      reads this`decks, this`hands
    {
      AllPlayable(decks) && AllPlayable(hands)
    }

    constructor ()
      ensures Valid()
      ensures readyPlayers == 0 && readySet == {} && !gameStarted
      ensures currentTurn == P1 && round == 1 && !gameOver && winner == None
      ensures lives == PerPlayer(StartingLives, StartingLives)
      ensures passed == PerPlayer(false, false) && score == PerPlayer(0, 0)
      ensures lineCards == EmptyBoard
      ensures decks == PerPlayer([], []) && hands == PerPlayer([], [])
    {
      readyPlayers := 0;
      readySet := {};
      gameStarted := false;
      currentTurn := P1;
      lives := PerPlayer(StartingLives, StartingLives);
      passed := PerPlayer(false, false);
      score := PerPlayer(0, 0);
      round := 1;
      gameOver := false;
      winner := None;
      lineCards := EmptyBoard;
      decks := PerPlayer([], []);
      hands := PerPlayer([], []);
    }

    /** Moves up to `count` cards from the front of the player's deck to the end of the hand. */
    method DrawCards(player: Player, count: nat)
      modifies this`decks, this`hands
      ensures hands == old(hands).Set(player, DealtHand(old(hands.Get(player)), old(decks.Get(player)), count))
      ensures decks == old(decks).Set(player, DealtDeck(old(decks.Get(player)), count))
    {
      var cardsDrawn := 0;
      while cardsDrawn < count
        invariant cardsDrawn <= count && cardsDrawn <= |old(decks.Get(player))|
        invariant hands.Get(player) == old(hands.Get(player)) + old(decks.Get(player))[..cardsDrawn]
        invariant hands.Get(player.Other()) == old(hands.Get(player.Other()))
        invariant decks.Get(player) == old(decks.Get(player))[cardsDrawn..]
        invariant decks.Get(player.Other()) == old(decks.Get(player.Other()))
      {
        var deck := decks.Get(player);
        if |deck| > 0 {
          var card := deck[0];
          decks := decks.Set(player, deck[1..]);
          hands := hands.Set(player, hands.Get(player) + [card]);
          assert old(decks.Get(player))[..cardsDrawn + 1] == old(decks.Get(player))[..cardsDrawn] + [card];
          cardsDrawn := cardsDrawn + 1;
        } else {
          break;
        }
      }
      SamePerPlayer(hands, old(hands).Set(player, DealtHand(old(hands.Get(player)), old(decks.Get(player)), count)), player);
      SamePerPlayer(decks, old(decks).Set(player, DealtDeck(old(decks.Get(player)), count)), player);
    }

    /** Sets each player's score to the total power of that player's two zones. */
    method RecalcScores()
      modifies this`score
      ensures score == Scores(lineCards)
    {
      var totals := PerPlayer(0, 0);
      var k := 0;
      while k < |AllZones|
        invariant 0 <= k <= |AllZones|
        invariant totals == PerPlayer(PartialScore(lineCards, P1, k), PartialScore(lineCards, P2, k))
      {
        var zone := AllZones[k];
        var player := zone.Side();
        var cards := lineCards.Get(zone);
        ghost var before := totals;
        var i := 0;
        while i < |cards|
          invariant 0 <= i <= |cards|
          invariant totals == before.Set(player, before.Get(player) + RowTotal(cards[..i]))
        {
          assert cards[..i + 1][..i] == cards[..i];
          totals := totals.Set(player, totals.Get(player) + cards[i].power);
          i := i + 1;
        }
        assert cards[..|cards|] == cards;
        k := k + 1;
      }
      PartialScoreComplete(lineCards, P1);
      PartialScoreComplete(lineCards, P2);
      score := totals;
    }

    /** The synergy check the server runs on every placement; reports whether it buffed the pair. */
    method CheckAndApplyMageSynergy() returns (applied: bool)
      modifies this`lineCards
      ensures SynergyResult(lineCards, applied) == MageSynergyEffect(old(lineCards))
    {
      lineCards, applied := MageSynergyAbility(lineCards);
    }

    /**
     * The battlefield part of a placement: the card is appended to the row,
     * the synergy check runs, then the card's own ability.
     */
    method ResolvePlacement(cardObj: Card, player: Player, zone: Zone)
      modifies this`lineCards
      ensures lineCards == Resolve(old(lineCards), cardObj, player, zone)
      ensures NonNegative(old(lineCards)) && cardObj.power >= 0 ==> NonNegative(lineCards)
    {
      ghost var appended := Appended(lineCards, cardObj, player, zone);
      if NonNegative(lineCards) && cardObj.power >= 0 {
        ResolveKeepsNonNegative(lineCards, cardObj, player, zone);
      }
      lineCards := lineCards.Set(zone, lineCards.Get(zone) + [Placement(cardObj, player)]);
      assert lineCards == appended;
      var self := |lineCards.Get(zone)| - 1;
      var synergyApplied := CheckAndApplyMageSynergy();
      ghost var synergized := lineCards;
      assert synergized == MageSynergyEffect(appended).board;
      if cardObj.ability.Some? {
        lineCards := RunAbility(cardObj.ability.value, lineCards, zone, self);
        assert lineCards == AbilityEffect(cardObj.ability.value, synergized, zone, self);
      }
    }

    /** Starts the game: each player draws ten cards, player 1 first. */
    method StartGame()
      modifies this`gameStarted, this`decks, this`hands
      ensures gameStarted
      ensures hands == PerPlayer(DealtHand(old(hands.p1), old(decks.p1), StartingHand),
                                 DealtHand(old(hands.p2), old(decks.p2), StartingHand))
      ensures decks == PerPlayer(DealtDeck(old(decks.p1), StartingHand), DealtDeck(old(decks.p2), StartingHand))
    {
      gameStarted := true;
      DrawCards(P1, StartingHand);
      DrawCards(P2, StartingHand);
    }

    /**
     * The relation between the state before and after a round resolution,
     * `passedBefore` being the passed flags when it began.
     */
    twostate predicate RoundResolved(passedBefore: PerPlayer<bool>)
      reads this
    {
      var l := LivesAfter(old(lives), old(score));
      && lives == l
      && (if l.p1 <= 0 || l.p2 <= 0 then
            && gameOver && winner == Some(WinnerOf(l))
            && round == old(round) && passed == passedBefore && currentTurn == old(currentTurn)
            && lineCards == old(lineCards) && decks == old(decks) && hands == old(hands)
          else
            && gameOver == old(gameOver) && winner == old(winner)
            && round == old(round) + 1
            && passed == PerPlayer(false, false)
            && lineCards == EmptyBoard
            && hands == PerPlayer(DealtHand(old(hands.p1), old(decks.p1), RoundDraw),
                                  DealtHand(old(hands.p2), old(decks.p2), RoundDraw))
            && decks == PerPlayer(DealtDeck(old(decks.p1), RoundDraw), DealtDeck(old(decks.p2), RoundDraw))
            && currentTurn == FirstTurn(round))
      && score == Scores(lineCards)
    }

    /**
     * Resolves the round: life loss, then either game over with a winner or
     * the next round with an empty battlefield, fresh cards, reset passes and
     * the opening turn given by the round's parity.
     */
    method EndRound()
      requires Valid()
      modifies this`lives, this`gameOver, this`winner, this`round, this`passed
      modifies this`lineCards, this`decks, this`hands, this`currentTurn, this`score
      ensures ProgressValid() && BoardValid() && CardsValid()
      ensures RoundResolved(old(passed))
    {
      ApplyRoundLosses();
      if lives.p1 <= 0 || lives.p2 <= 0 {
        DeclareWinner();
      } else {
        StartNextRound();
      }
      RecalcScores();
    }

    /** Takes one life from the round's loser, or from both players on a tie. */
    method ApplyRoundLosses()
      modifies this`lives
      ensures lives == LivesAfter(old(lives), score)
    {
      var p1Score, p2Score := score.p1, score.p2;
      if p1Score > p2Score {
        lives := lives.(p2 := lives.p2 - 1);
      } else if p2Score > p1Score {
        lives := lives.(p1 := lives.p1 - 1);
      } else {
        lives := PerPlayer(lives.p1 - 1, lives.p2 - 1);
      }
    }

    /** Ends the game: a draw when the life totals are equal, otherwise the player with lives left wins. */
    method DeclareWinner()
      modifies this`gameOver, this`winner
      ensures gameOver && winner == Some(WinnerOf(lives))
    {
      gameOver := true;
      if lives.p1 == lives.p2 {
        winner := Some(Draw);
      } else {
        winner := Some(if lives.p1 > 0 then Won(P1) else Won(P2));
      }
    }

    /**
     * The new-round branch of the round resolution: the round counter
     * advances, passes are reset, the battlefield is cleared, each player
     * draws five cards and the round's parity decides who opens it.
     */
    method StartNextRound()
      requires Valid() && !gameOver
      requires lives.p1 + lives.p2 + round < 5  // the round just resolved cost a life
      modifies this`round, this`passed, this`lineCards, this`decks, this`hands, this`currentTurn
      ensures ProgressValid() && CardsValid() && NonNegative(lineCards)
      ensures round == old(round) + 1
      ensures passed == PerPlayer(false, false)
      ensures lineCards == EmptyBoard
      ensures hands == PerPlayer(DealtHand(old(hands.p1), old(decks.p1), RoundDraw),
                                 DealtHand(old(hands.p2), old(decks.p2), RoundDraw))
      ensures decks == PerPlayer(DealtDeck(old(decks.p1), RoundDraw), DealtDeck(old(decks.p2), RoundDraw))
      ensures currentTurn == FirstTurn(round)
    {
      round := round + 1;
      passed := PerPlayer(false, false);
      lineCards := EmptyBoard;
      PlayableDealt(hands.p1, decks.p1, RoundDraw);
      PlayableDealt(hands.p2, decks.p2, RoundDraw);
      DrawCards(P1, RoundDraw);
      DrawCards(P2, RoundDraw);
      currentTurn := if round % 2 != 0 then P1 else P2;
    }

    /**
     * The "ready" action: a deck of exactly 20 names that all resolve is
     * converted, shuffled and stored; anything else is rejected with no
     * change.
     */
    method Ready(player: Player, deckNames: seq<string>, draws: seq<nat>) returns (outcome: ReadyOutcome)
      requires Valid()
      modifies this`readyPlayers, this`readySet, this`gameStarted, this`decks, this`hands
      ensures Valid()
      ensures outcome == WrongDeckSize <==> |deckNames| != DeckSize
      ensures outcome == UnknownCardName <==>
                |deckNames| == DeckSize && exists i :: 0 <= i < |deckNames| && !KnownName(deckNames[i])
      ensures outcome != DeckAccepted ==> unchanged(this)
      ensures outcome == DeckAccepted ==>
                exists deck :: multiset(deck) == multiset(KnownCards(deckNames)) && DeckStored(player, deck)
    {
      var deckObjects;
      outcome, deckObjects := CheckDeck(deckNames);
      if outcome != DeckAccepted {
        return;
      }
      var deck := ShuffleAndAccept(player, deckObjects, draws);
      assert multiset(deck) == multiset(KnownCards(deckNames)) && DeckStored(player, deck);
    }

    /** The accepted branch of "ready": the converted deck is shuffled and stored. */
    method ShuffleAndAccept(player: Player, deckObjects: seq<Card>, draws: seq<nat>) returns (deck: seq<Card>)
      requires Valid() && PlayableCards(deckObjects)
      modifies this`readyPlayers, this`readySet, this`gameStarted, this`decks, this`hands
      ensures Valid()
      ensures multiset(deck) == multiset(deckObjects) && DeckStored(player, deck)
    {
      deck := Shuffle(deckObjects, draws);
      ShuffleKeepsPlayable(deckObjects, deck);
      AcceptDeck(player, deck);
    }

    /**
     * The state after the player's converted and shuffled deck was stored:
     * the player is counted as ready once, and when this makes two ready
     * players in a game not yet started, the game starts and both players
     * draw their opening hands from the front of their decks.
     */
    twostate predicate DeckStored(player: Player, deck: seq<Card>)
      reads this
    {
      var d := old(decks).Set(player, deck);
      && readySet == old(readySet) + {player}
      && readyPlayers == old(readyPlayers) + (if player in old(readySet) then 0 else 1)
      && gameStarted == (old(gameStarted) || (player !in old(readySet) && old(readyPlayers) == 1))
      && (if gameStarted == old(gameStarted) then decks == d && hands == old(hands)
          else
            && decks == PerPlayer(DealtDeck(d.p1, StartingHand), DealtDeck(d.p2, StartingHand))
            && hands == PerPlayer(DealtHand(old(hands.p1), d.p1, StartingHand),
                                  DealtHand(old(hands.p2), d.p2, StartingHand)))
    }

    /** The accepted branch of "ready". */
    method AcceptDeck(player: Player, deck: seq<Card>)
      requires Valid() && PlayableCards(deck)
      modifies this`readyPlayers, this`readySet, this`gameStarted, this`decks, this`hands
      ensures ReadyValid() && CardsValid() && DeckStored(player, deck)
    {
      HandsStayPlayable(decks, player, deck);
      decks := decks.Set(player, deck);
      if player !in readySet {
        ReadySetBound(readySet, player);
        readyPlayers := readyPlayers + 1;
        readySet := readySet + {player};
        if readyPlayers == 2 && !gameStarted {
          PlayableDealt(hands.p1, decks.p1, StartingHand);
          PlayableDealt(hands.p2, decks.p2, StartingHand);
          StartGame();
        }
      }
    }

    /**
     * The "place_card" action.  It is refused with no change when the player
     * is not the one to move, when the hand has no card at that index, or
     * when the card is not allowed in that kind of row (the row may belong to
     * either player).  Otherwise the card leaves the hand, the battlefield is
     * resolved, scores are recomputed, the player is no longer passed, and the
     * turn goes to the other player exactly when the other has not passed.
     */
    method PlaceCard(player: Player, cardIndex: nat, zone: Zone) returns (outcome: PlaceOutcome)
      requires Valid()
      modifies this`hands, this`lineCards, this`score, this`passed, this`currentTurn
      ensures Valid()
      ensures outcome == NotYourTurn <==> player != old(currentTurn)
      ensures outcome == NoSuchCard <==> player == old(currentTurn) && cardIndex >= |old(hands.Get(player))|
      ensures outcome == LineNotAllowed <==>
                player == old(currentTurn) && cardIndex < |old(hands.Get(player))| &&
                zone.Kind() !in old(hands.Get(player))[cardIndex].allowedLines
      ensures outcome != Placed ==> unchanged(this)
      ensures outcome == Placed ==> CardPlayed(old(hands.Get(player))[cardIndex], player, cardIndex, zone)
    {
      outcome := PlacementOutcome(player, cardIndex, zone);
      if outcome == Placed {
        PlayCard(player, cardIndex, zone);
      }
    }

    /** The refusals of "place_card", in the order the server tests them; `Placed` when none applies. */
    function PlacementOutcome(player: Player, cardIndex: nat, zone: Zone): (outcome: PlaceOutcome)
      reads this`currentTurn, this`hands
      ensures outcome == NotYourTurn <==> player != currentTurn
      ensures outcome == NoSuchCard <==> player == currentTurn && cardIndex >= |hands.Get(player)|
      ensures outcome == LineNotAllowed <==>
                player == currentTurn && cardIndex < |hands.Get(player)| &&
                zone.Kind() !in hands.Get(player)[cardIndex].allowedLines
    {
      if currentTurn != player then NotYourTurn
      else if cardIndex >= |hands.Get(player)| then NoSuchCard
      else if zone.Kind() !in hands.Get(player)[cardIndex].allowedLines then LineNotAllowed
      else Placed
    }

    /**
     * The state after the card `card`, taken from index `cardIndex` of the
     * player's hand, was played into `zone`.
     */
    twostate predicate CardPlayed(card: Card, player: Player, cardIndex: nat, zone: Zone)
      reads this
    {
      && cardIndex < |old(hands.Get(player))|
      && hands == old(hands).Set(player, old(hands.Get(player))[..cardIndex] + old(hands.Get(player))[cardIndex + 1..])
      && lineCards == Resolve(old(lineCards), card, player, zone)
      && score == Scores(lineCards)
      && passed == old(passed).Set(player, false)
      && currentTurn == (if old(passed.Get(player.Other())) then player else player.Other())
    }

    /** Removes and returns the card at `cardIndex` of the player's hand. */
    method TakeFromHand(player: Player, cardIndex: nat) returns (cardObj: Card)
      requires CardsValid() && cardIndex < |hands.Get(player)|
      modifies this`hands
      ensures CardsValid() && Playable(cardObj)
      ensures cardObj == old(hands.Get(player))[cardIndex]
      ensures hands == old(hands).Set(player, old(hands.Get(player))[..cardIndex] + old(hands.Get(player))[cardIndex + 1..])
    {
      var hand := hands.Get(player);
      cardObj := hand[cardIndex];
      assert cardObj in hand;
      RemovalKeepsPlayable(hand, cardIndex);
      HandsStayPlayable(hands, player, hand[..cardIndex] + hand[cardIndex + 1..]);
      hands := hands.Set(player, hand[..cardIndex] + hand[cardIndex + 1..]);
    }

    /** The accepted branch of "place_card": the card moves from the hand to the battlefield and the turn advances. */
    method PlayCard(player: Player, cardIndex: nat, zone: Zone)
      requires BoardValid() && CardsValid() && currentTurn == player
      requires cardIndex < |hands.Get(player)| && zone.Kind() in hands.Get(player)[cardIndex].allowedLines
      modifies this`hands, this`lineCards, this`score, this`passed, this`currentTurn
      ensures BoardValid() && CardsValid()
      ensures CardPlayed(old(hands.Get(player))[cardIndex], player, cardIndex, zone)
    {
      var cardObj := TakeFromHand(player, cardIndex);
      PlaceAndAdvance(cardObj, player, zone);
    }

    /** The battlefield and turn half of an accepted placement. */
    method PlaceAndAdvance(cardObj: Card, player: Player, zone: Zone)
      requires BoardValid() && Playable(cardObj) && currentTurn == player
      modifies this`lineCards, this`score, this`passed, this`currentTurn
      ensures BoardValid()
      ensures lineCards == Resolve(old(lineCards), cardObj, player, zone)
      ensures passed == old(passed).Set(player, false)
      ensures currentTurn == if old(passed.Get(player.Other())) then player else player.Other()
    {
      PlaceOnBoard(cardObj, player, zone);
      AdvanceTurn(player);
    }

    /** After a placement: the turn goes to the other player unless that player has passed, and the placing player is no longer passed. */
    method AdvanceTurn(player: Player)
      requires currentTurn == player
      modifies this`passed, this`currentTurn
      ensures passed == old(passed).Set(player, false)
      ensures currentTurn == if old(passed.Get(player.Other())) then player else player.Other()
    {
      var otherPlayer := player.Other();
      if !passed.Get(otherPlayer) {
        currentTurn := otherPlayer;
      }
      passed := passed.Set(player, false);
    }

    /** Puts a playable card on the battlefield and brings the scores up to date. */
    method PlaceOnBoard(cardObj: Card, player: Player, zone: Zone)
      requires BoardValid() && Playable(cardObj)
      modifies this`lineCards, this`score
      ensures BoardValid()
      ensures lineCards == Resolve(old(lineCards), cardObj, player, zone)
    {
      ResolvePlacement(cardObj, player, zone);
      RecalcScores();
    }

    /**
     * The "pass_turn" action, accepted whoever is to move: the player is
     * marked passed; when both have passed the round is resolved, otherwise
     * the turn goes to the other player if that player has not passed.
     */
    method PassTurn(player: Player)
      requires Valid()
      modifies this`lives, this`gameOver, this`winner, this`round, this`passed
      modifies this`lineCards, this`decks, this`hands, this`currentTurn, this`score
      ensures Valid()
      ensures var flags := old(passed).Set(player, true);
              if flags.p1 && flags.p2 then RoundResolved(flags)
              else
                && passed == flags
                && currentTurn == player.Other()
                && lives == old(lives) && round == old(round) && score == old(score)
                && lineCards == old(lineCards) && decks == old(decks) && hands == old(hands)
                && gameOver == old(gameOver) && winner == old(winner)
    {
      passed := passed.Set(player, true);
      if passed.p1 && passed.p2 {
        EndRound();
      } else {
        var otherPlayer := player.Other();
        if !passed.Get(otherPlayer) {
          currentTurn := otherPlayer;
        }
      }
    }
  }

  /** Both players' cards are playable. */
  predicate AllPlayable(cards: PerPlayer<seq<Card>>) {
    PlayableCards(cards.p1) && PlayableCards(cards.p2)
  }

  lemma HandsStayPlayable(cards: PerPlayer<seq<Card>>, p: Player, s: seq<Card>)
    requires AllPlayable(cards) && PlayableCards(s)
    ensures AllPlayable(cards.Set(p, s))
  {
    match p
    case P1 =>
    case P2 =>
  }

  /** Removing one card from a hand of playable cards leaves playable cards. */
  lemma RemovalKeepsPlayable(hand: seq<Card>, i: nat)
    requires PlayableCards(hand) && i < |hand|
    ensures PlayableCards(hand[..i] + hand[i + 1..])
  {
    forall c | c in hand[..i] + hand[i + 1..] ensures Playable(c) {
      assert c in hand[..i] || c in hand[i + 1..];
    }
  }

  /** Dealing from a playable deck into a playable hand keeps playable cards on both sides. */
  lemma PlayableDealt(hand: seq<Card>, deck: seq<Card>, n: nat)
    requires PlayableCards(hand) && PlayableCards(deck)
    ensures PlayableCards(DealtHand(hand, deck, n)) && PlayableCards(DealtDeck(deck, n))
  {
    var k := Min(n, |deck|);
    assert deck == deck[..k] + deck[k..];
  }

  /** With two players, a set of ready players that lacks one of them has at most one member. */
  lemma ReadySetBound(s: set<Player>, p: Player)
    requires p !in s
    ensures |s| <= 1
  {
    forall x | x in s ensures x == p.Other() {
      match x
      case P1 => assert p == P2;
      case P2 => assert p == P1;
    }
    if s != {} {
      var x :| x in s;
      assert s == {x};
    }
  }
}
