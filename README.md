# Gambit card game: rules core in Dafny

This project models the rules core of a two-player, turn-based card battle. The model has four parts:
- **Cards**: the card catalog and its lookup.
- **Abilities**: the six placement abilities, acting on a four-row battlefield.
- **Server**: the match authority `GameServer`. It accepts and shuffles decks, deals hands, handles card placement and passing, recomputes scores and resolves rounds into lives, rounds and a winner.
- **DeckBuilder**: the list rules of the deck builder (`DeckCreator`). These cover adding and removing cards, scroll clamping, deck statistics, gallery pagination and filtering a saved deck on load.

Files:
- `wrappers.dfy`: the `Option` type.
- `cards.dfy`: the catalog.
- `abilities.dfy`: the battlefield and the abilities.
- `server.dfy`: the match state and its transitions.
- `deck_builder.dfy`: the deck builder.

How the source is represented:
- **Abilities.** Each ability is a specification function on the battlefield value. It is paired with a method that runs the source's loop, proved equal to that function. Lemmas state what the function does to each row.
- **Match state.** The server and the deck builder are classes whose fields mirror the source's mutable state. Each action is a method with `modifies` frames and a class invariant `Valid()`.
- **Battlefield.** It is a value with four rows, `p1_back`, `p1_front`, `p2_front` and `p2_back`, in that iteration order. Each row holds placed cards: name, current power, owner and the one-shot synergy flag.
- **Identity of the card an ability acts on.** The played card is identified by its index in its row. This is always the last index, because the card is appended and the synergy scan keeps row lengths. The card the dragon destroys is the first non-bandit card of maximal power. `list.remove` compares dictionaries by value, and each placed dictionary holds its own copy of the card, so the first equal entry is that card.

Where the code and the design description of the system disagree, the model follows the code:
- `pass_turn` is accepted from either player, whoever is to move (server.py:256-272).
- Neither `place_card` nor `pass_turn` checks `game_over` (server.py:203-274). After the game ends, both actions are still accepted, and a pass re-runs round resolution. That re-resolution can move the declared winner to the player with fewer lives (Server.ResolutionAfterGameOverFlipsWinner).
- A deck may repeat a card name on the server (server.py:173-180). The deck builder forbids repeats (deck_creator.py:369-371).

## Model

| member | source | states |
|---|---|---|
| Cards.FindCardSpec | cards.py:376-387 | The lookup finds a card exactly when some catalog card has the name, and it returns the first card with that name. |
| Cards.GetCardByName | cards.py:378-387 | The lookup returns a card exactly for catalog names, never for any other string. The card it returns carries the requested name and is the catalog's card of that name. |
| Cards.KnownNameListed | deck_creator.py:364 | A name is known exactly when some catalog card carries it (the `any(card.name == name ...)` test). |
| Cards.CatalogNamesUnique | cards.py:159-370 | No two catalog cards share a name. So the name-keyed dictionary at cards.py:376 loses no card, and the first match is the only one. |
| Cards.GetCardByNameIsCatalogEntry | cards.py:376-387 | Looking up the name of the i-th catalog card returns exactly that card. |
| Cards.CatalogCardIsListed | cards.py:376-387 | A card is what the lookup hands out for its name exactly when it is an entry of the catalog list. |
| Cards.CatalogCardPlayable | cards.py:159-370 | Every card the lookup can hand out has non-negative power. The dragon is allowed only in the back row (cards.py:251-257). |
| Cards.ListedCardPlayable | cards.py:159-370 | Each entry of the catalog list has non-negative power, and the dragon entry is back-row only. |
| Abilities.Zone.Enemy | cards.py:35 | The enemy of a row's player is "p2" for a "p1" key and "p1" otherwise, never the row's own side. |
| Abilities.FrontOf | cards.py:36 | The `{enemy}_front` key is that player's front row. |
| Abilities.BackOf | cards.py:55 | The `{enemy}_back` key is that player's back row. |
| Abilities.OakBardLightsEffect | cards.py:13-29 | Every card of the played row gains exactly 1 power. The played card is included, and names, owners and flags are kept. Every other row is unchanged, and powers stay non-negative. |
| Abilities.OakBardLightsAbility | cards.py:13-29 | The source's loop over the played row computes exactly the area buff. |
| Abilities.FrostEffect | cards.py:31-47 | In the enemy front row, each card with positive power that is not the bandit loses exactly 1. Cards at zero and the bandit are untouched, and every other row is unchanged. |
| Abilities.FogEffect | cards.py:49-62 | In the enemy back row, each card with positive power loses exactly 1, with no immunity. Every other row is unchanged. |
| Abilities.WeakenRow | cards.py:39-47 | The weakening loop returns the row weakened card by card, with the bandit spared when asked. |
| Abilities.FrostAbility | cards.py:31-47 | The frost procedure computes exactly the frost effect. |
| Abilities.FogAbility | cards.py:49-62 | The fog procedure computes exactly the fog effect. |
| Abilities.WeakestBefore | cards.py:71-78 | It finds a card other than the engineer exactly when one exists. What it finds has the least power, and it is the first such card, as `min` keeps the first minimum. |
| Abilities.EngineerEffectSpec | cards.py:64-83 | With no other card in its row, the engineer changes nothing. Otherwise exactly the first weakest other card gains 3 and every other card is unchanged. Powers stay non-negative. |
| Abilities.EngineerAbility | cards.py:64-83 | The engineer procedure computes exactly the engineer effect. |
| Abilities.StrongestBefore | cards.py:138-146 | It finds a target exactly when some card is not the bandit. What it finds is a non-bandit card of greatest power, and it is the first such card, as `max` keeps the first maximum. |
| Abilities.DragonEffectSpec | cards.py:129-151 | With an eligible card in the enemy front row, exactly one card is removed: the first non-bandit card of maximal power. The rest keep their order, and without an eligible card nothing changes. Other rows are unchanged. |
| Abilities.DragonRowNonNegative | cards.py:149 | Removing the target from a row of non-negative powers leaves non-negative powers. |
| Abilities.DragonKeepsNonNegative | cards.py:129-151 | The dragon never leaves a negative power on the battlefield. |
| Abilities.DragonAbility | cards.py:129-151 | The dragon procedure computes exactly the dragon effect. |
| Abilities.StrongestIndex | cards.py:138-146 | The scan over the enemy front row returns the dragon's target index. |
| Abilities.LastNamedBefore | cards.py:99-103 | The scan keeps the last card with the name: nothing after it carries the name, and it finds nothing exactly when no card does. |
| Abilities.LastNamedDependsOnNames | cards.py:99-103 | Which card the mage scan picks depends only on the cards' names, not on their powers or flags. |
| Abilities.UpdateFlat | cards.py:119-124 | Writing one card of the flattened battlefield changes exactly that entry, and every row keeps its length. |
| Abilities.MageSynergySpec | cards.py:85-127 | The last fire mage and the last ice mage are found. When both exist and neither is flagged, each gains exactly 2 and both become flagged, and every other card is unchanged. Otherwise nothing changes, and the result reports which case happened. |
| Abilities.MageSynergyKeepsSlots | cards.py:85-127 | The synergy keeps every row's length and every card's name and owner. |
| Abilities.MageSynergyKeepsNonNegative | cards.py:119-120 | The synergy only adds power, so powers stay non-negative. |
| Abilities.MageSynergyAtMostOnce | cards.py:115-124 | A second scan right after a first one never buffs again, so the pair is buffed at most once. |
| Abilities.MageSynergyAbility | server.py:93-126 | The server's synergy check computes exactly the synergy effect, and it reports whether the pair was buffed. |
| Abilities.RunAbility | server.py:228-230 | It dispatches the placed card's ability to its procedure and computes that ability's effect. |
| Abilities.AbilityKeepsNonNegative | cards.py:13-151 | No ability drives a card's power below zero. |
| Abilities.AbilityKeepsSlots | cards.py:13-151 | Every ability but the dragon keeps each row's cards in place with their names and owners. The dragon does the same for every row but the enemy front row. |
| Server.PartialScoreComplete | server.py:317-323 | Summing the four rows, each into the score of the player whose tag its key contains, gives that player's own two rows' total. |
| Server.EmptyBoardScoresZero | server.py:318-319 | An empty battlefield scores zero for both players. |
| Server.RowTotalNonNegative | server.py:322-323 | A row of non-negative powers has a non-negative total. |
| Server.RoundResolutionRules | server.py:326-351 | The higher score costs the opponent exactly one life, and a tie costs both one. The round winner loses nothing, and the total number of lives strictly drops. These rules hold for a resolution from positive lives, which is every resolution before the game ends. When such a resolution ends the game, "Draw" means both totals are zero. Otherwise the declared winner has strictly more lives than the other player, and those lives are positive. |
| Server.ResolutionAfterGameOverFlipsWinner | server.py:326-351 | Resolution does not check for a finished game. From lives (1, 0), where player 1 has won, a tied round leaves (0, -1). The declared winner then becomes player 2, who has fewer lives. |
| Server.DealingConserves | server.py:298-313 | Dealing moves up to n cards from the front of the deck to the end of the hand, in order. It moves fewer only when the deck runs out, and no card is lost or duplicated. |
| Server.KnownCardsShorter | server.py:173-179 | Converting names never yields more cards than names. |
| Server.KnownCardsCatalog | server.py:173-179 | Every converted card is a catalog card. |
| Server.KnownCardsAllKnown | server.py:173-179 | When every name is known, conversion keeps the length, and the i-th card carries the i-th name. |
| Server.KnownCardsDropsUnknown | server.py:173-179 | One unknown name makes the converted deck strictly shorter than the list of names. |
| Server.KnownCardsPlayable | server.py:173-179 | Converted cards are playable: non-negative power, and the dragon is back-row only. |
| Server.ConversionComplete | server.py:173-187 | The converted deck has as many cards as names exactly when every name is known. So the second size check rejects exactly the decks with an unknown name. |
| Server.ConvertDeck | server.py:172-179 | The conversion loop yields exactly the known names' cards, in order. |
| Server.CheckDeck | server.py:161-187 | A deck is rejected for size exactly when it does not have 20 names. It is rejected as invalid exactly when it has 20 names and one of them is unknown. An accepted deck converts to playable cards. |
| Server.ShuffleKeepsPlayable | server.py:190 | A reordering of playable cards is playable. |
| Server.Shuffle | server.py:190 | The shuffle keeps the deck's length and exactly its cards, each as often as before. |
| Server.PlacedCardStays | server.py:224-230 | The placed card stays on the battlefield after the synergy check and its own ability. It remains the last card of its row, with its name and owner. |
| Server.MageAbilityAfterScanIsNoOp | server.py:226-230 | Right after the server's synergy scan, a mage's own synergy ability changes nothing, so the pair is never buffed twice in one placement. |
| Server.ResolveKeepsNonNegative | server.py:224-230 | Placing a card of non-negative power keeps every power on the battlefield non-negative. |
| Server.AppendedNonNegative | server.py:224 | Appending a card of non-negative power keeps every power non-negative. |
| Server.GameServer.constructor | server.py:21-48 | The initial state: nobody ready, player 1 to move, round 1, 2 lives each, no passes, zero scores, an empty battlefield, and empty decks and hands. The match invariant holds. |
| Server.GameServer.DrawCards | server.py:298-315 | The drawing loop moves up to `count` cards from the front of the player's deck to the end of the player's hand. The other player's cards are untouched. |
| Server.GameServer.RecalcScores | server.py:317-323 | The scores become each player's total power over that player's two rows. |
| Server.GameServer.CheckAndApplyMageSynergy | server.py:93-126 | The battlefield becomes its synergy result, and the method reports whether the pair was buffed. |
| Server.GameServer.ResolvePlacement | server.py:224-232 | The battlefield becomes: the card appended to its row, then the synergy check, then the card's own ability. Non-negative powers are kept. |
| Server.GameServer.StartGame | server.py:288-291 | The game starts, and each player draws 10 cards, player 1 first. |
| Server.GameServer.EndRound | server.py:325-378 | Lives are updated by the round's scores. When a life total reaches zero, the game is over with the declared winner and the battlefield is kept. Otherwise the next round starts: the round counter advances, passes are reset, the battlefield is cleared, each player draws 5 cards, and the round's parity picks who opens. Scores are recomputed, and the match invariant is restored. |
| Server.GameServer.ApplyRoundLosses | server.py:326-338 | The round's loser loses one life, or both players do on a tie. |
| Server.GameServer.DeclareWinner | server.py:346-351 | The game is over. The result is a draw when the life totals are equal, otherwise the player with lives left wins. |
| Server.GameServer.StartNextRound | server.py:357-375 | The round advances, passes are reset, the battlefield is emptied, and each player draws 5 cards. Player 1 opens odd rounds and player 2 opens even ones. |
| Server.GameServer.Ready | server.py:159-201 | A deck without exactly 20 names, or with an unknown name, is refused with nothing changed, and each refusal reason holds exactly in its case. Otherwise a reordering of the converted deck is stored as the player's deck and the player is counted ready once. When this makes two ready players in a game not yet started, the game starts and both draw 10. |
| Server.GameServer.ShuffleAndAccept | server.py:189-201 | The stored deck is a reordering of the converted deck, and the match invariant holds. |
| Server.GameServer.AcceptDeck | server.py:191-201 | The deck is stored, and the ready counter counts each player once. The game starts, dealing 10 cards each, exactly when the second player becomes ready before the start. |
| Server.GameServer.PlaceCard | server.py:203-254 | Each refusal holds exactly in its case, and a refusal changes nothing. A player not to move is refused first, then a missing hand index, then a row kind the card does not allow (in either player's rows). On acceptance, the card leaves the hand and the battlefield is resolved. Scores are recomputed and the player is no longer passed. The turn goes to the other player exactly when that player has not passed. |
| Server.GameServer.PlacementOutcome | server.py:203-213 | Each refusal holds exactly in its case, tested in the server's order: first a player not to move, then a hand index past the end, then a row kind the card does not allow. Otherwise the outcome is `Placed`. |
| Server.GameServer.TakeFromHand | server.py:209-214 | The card at the index is removed from the player's hand, and the rest keep their order. The card is returned. |
| Server.GameServer.PlayCard | server.py:209-250 | The accepted placement: the new hand, the battlefield, the scores, the passed flags and the turn, as in PlaceCard. |
| Server.GameServer.PlaceAndAdvance | server.py:224-250 | The battlefield is resolved for the card and the scores match it. The player is no longer passed. The turn goes to the other player exactly when that player has not passed. |
| Server.GameServer.AdvanceTurn | server.py:245-250 | The player's passed flag is cleared. The turn goes to the other player exactly when that player has not passed; otherwise it stays with the player. |
| Server.GameServer.PlaceOnBoard | server.py:224-237 | The battlefield is resolved for the card, and the scores then match the battlefield. |
| Server.GameServer.PassTurn | server.py:256-272 | The player is marked passed. When both have passed, the round is resolved. Otherwise the turn goes to the other player, who has not passed, and nothing else changes. The match invariant is kept. |
| Server.HandsStayPlayable | server.py:191 | Replacing one player's cards with playable cards keeps both players' cards playable. |
| Server.RemovalKeepsPlayable | server.py:214 | Removing a card from a playable hand leaves a playable hand. |
| Server.PlayableDealt | server.py:298-313 | Dealing between a playable deck and a playable hand keeps both playable. |
| Server.ReadySetBound | server.py:195-200 | With two players, a ready set that lacks the current player holds at most one player. So the counter never exceeds 2. |
| DeckBuilder.KnownOnlyAppend | deck_creator.py:280-288 | Filtering distributes over concatenation: the saved order is kept, and only unknown names are dropped. |
| DeckBuilder.KnownOnlyMembers | deck_creator.py:280-288 | A name survives the filter exactly when it was saved and the catalog knows it. The result is no longer than the saved list. |
| DeckBuilder.KnownOnlyKeepsKnownDeck | deck_creator.py:280-288 | A saved deck of known names loads unchanged. |
| DeckBuilder.FilterKnownNames | deck_creator.py:281-288 | The validation loop keeps exactly the known names, in order. |
| DeckBuilder.DeckPowerAppend | deck_creator.py:337-341 | The total power of two lists put together is the sum of their totals. |
| DeckBuilder.DeckPowerNonNegative | deck_creator.py:337-341 | A deck's total catalog power is never negative. |
| DeckBuilder.DistinctCount | deck_creator.py:334 | The number of distinct names is at most the number of names. It equals it exactly when no name repeats. |
| DeckBuilder.FirstMatchPower | deck_creator.py:338-341 | The inner loop adds the power of the first catalog card with the name, and nothing for an unknown name. |
| DeckBuilder.TotalPagesIsCeiling | deck_creator.py:354-356 | The page count is the least number of pages holding every card, zero exactly for an empty catalog. |
| DeckBuilder.PageCardsSpec | deck_creator.py:348-352 | A page holds at most 6 cards: the catalog's cards from `page * 6` on, in order. A page ending within the catalog is full. |
| DeckBuilder.PageEmptyPastEnd | deck_creator.py:348-356 | A page is empty exactly when it is past the last page. |
| DeckBuilder.PagesCover | deck_creator.py:348-356 | The first k pages, put together, are the catalog up to where page k starts. |
| DeckBuilder.AllPagesShowCatalog | deck_creator.py:348-356 | Leafing through all pages shows the whole catalog, each card once and in order. |
| DeckBuilder.ClampedOffsetSpec | deck_creator.py:529-545 | When every card fits, the offset is reset to 0. Otherwise it lands in [0, total - visible], and is unchanged when it was already there. A second update changes nothing. |
| DeckBuilder.DeckCreator.constructor | deck_creator.py:261-294 | The builder opens on the saved deck minus the names the catalog does not know, or empty without a usable file. The offset and the page start at 0. |
| DeckBuilder.DeckCreator.AddToDeck | deck_creator.py:358-375 | The checks run in order: a deck of 20 is refused as full, an unknown name as not found, a name already present as a duplicate. Each refusal holds exactly in its case and leaves the deck unchanged. Otherwise the name is appended. A deck of at most 20 distinct names stays that way. |
| DeckBuilder.DeckCreator.RemoveFromDeck | deck_creator.py:377-395 | The removal succeeds exactly for an index within the deck, and removes exactly that entry. The offset drops by one, not below zero, only when the removed entry lay above it. An out-of-range index changes nothing. |
| DeckBuilder.DeckCreator.ClearDeck | deck_creator.py:316-320 | The deck is emptied and the offset reset to 0. |
| DeckBuilder.DeckCreator.UpdateScrollbar | deck_creator.py:529-545 | The offset becomes the clamped offset for the panel's visible entry count. |
| DeckBuilder.DeckCreator.PreviousPage | deck_creator.py:964-965 | The page goes back by one, except on the first page (also the left arrow key, deck_creator.py:921-923). |
| DeckBuilder.DeckCreator.NextPage | deck_creator.py:967-968 | The page advances by one, except on the last page (also the right arrow key, deck_creator.py:924-926). |
| DeckBuilder.DeckCreator.GetCurrentPageCards | deck_creator.py:348-352 | It returns the current page's slice of the catalog, which is never empty and holds at most 6 cards. |
| DeckBuilder.DeckCreator.GetCardStats | deck_creator.py:328-346 | `total_cards` is the deck's length, and `total_power` is the non-negative catalog power of its names. `unique_cards` is the number of distinct names: at most the length, and equal to it exactly when no name repeats. |
| DeckBuilder.AdditionKeepsRules | deck_creator.py:358-375 | Appending a name absent from a deck of fewer than 20 distinct names keeps at most 20 distinct names. |
| DeckBuilder.RemovalShifts | deck_creator.py:379-380 | `pop(i)` keeps the other entries in order and removes exactly one occurrence of that name. |
| DeckBuilder.RemovalKeepsRules | deck_creator.py:379-380 | Removing an entry keeps known names, and keeps at most 20 distinct names. |

## Left out

- Networking: sockets, framing, threads, `broadcast`, `send_message`, `receive_message`, `handle_client` and `disconnect_client`. Actions are method calls applied one at a time.
- Chat relay (server.py:276-282): it changes no game state.
- The transient on-screen message and its timer (`show_message`, `show_warning`). The `time.sleep` before round resolution is also left out.
- The database: session logging and card statistics (`log_action`, `update_card_statistics`, `insert_game_session`, `end_game_session`). The game-data snapshot sent to clients (`get_game_data`) is left out too.
- Server.Shuffle: `random.shuffle` is modelled as a Fisher-Yates pass driven by a parameter `draws` of random numbers. The model promises a reordering of the same cards, not a uniform distribution.
- Server.GameServer.PlaceCard: `card_index` is a natural number. Python's negative indexing from the end of the hand is not modelled.
- Server.GameServer.PlaceCard: the row is a `Zone` value, so a `line_key` outside the four rows cannot be expressed. If the derived row kind is allowed for the card, the source first removes the card from the hand (server.py:214) and then fails with a `KeyError` at server.py:224. That exception ends the client's connection (server.py:135-138). If the kind is not allowed, the source takes its "cannot place here" branch.
- Server.GameServer.ResolvePlacement: the `try`/`except` around an ability is not modelled. None of the modelled abilities raises on a battlefield that has all four rows.
- The ability procedures' checks for a missing row key (`if played_line in line_cards`, `line_cards.get(...)`) are not modelled. The battlefield always has its four rows, so those branches cannot be taken.
- Server.GameServer.Valid: decks and hands are stated to hold playable cards, that is non-negative power with the dragon back-row only. That they are catalog copies is proved for converted decks (Server.KnownCardsCatalog) but is not kept in the invariant.
- Card images and `image_path`, `get_asset_path`, and the stub catalog that deck_creator.py falls back to when cards.py cannot be imported (deck_creator.py:13-63).
- DeckBuilder.DeckCreator.GetCardStats: `avg_power` is a floating-point division and is not modelled. The integer fields are.
- `save_deck` and the file reading of `load_existing_deck` are file I/O. The constructor takes the parsed deck, or `None` when the file is missing, unreadable or of unknown format.
- DeckBuilder.DeckCreator.RemoveFromDeck: the visible-entry count it computes is unused (both of its branches do nothing) and is not modelled. The removal hint and selection fields are UI state.
- DeckBuilder.DeckCreator.UpdateScrollbar: only the offset clamping is modelled. The scrollbar and thumb rectangles are drawing.
- Drawing, fonts, mouse and keyboard handling in deck_creator.py. The only event-loop actions modelled are the page buttons and arrow keys (PreviousPage, NextPage). Dragging the scrollbar thumb and clicking the scrollbar track are left out.
- client.py, launcher.py, settings.py and database.py are not part of this model.
