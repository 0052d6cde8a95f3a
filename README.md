# Blackjack engine

This is a model of the game logic of a browser blackjack game (`script.js`) for one
player against a dealer. The model covers:

- the 52-card deck and a Fisher-Yates shuffle of it;
- dealing from the top of the deck, and hand scoring with aces worth 11 or 1;
- the game's state machine: start, hit, stand, the dealer's turn, resolution and the end-of-game latch.

The project has five modules:

- `Wrappers`: an `Option` type.
- `Cards`:
  - the card types and `CardValue` (`getCardValue`);
  - the ordered deck that `createDeck` builds (`FullDeck`);
  - the shuffle as a function of the random choices (`Shuffled`).
- `Scoring`:
  - the score of a hand as a function (`Score`), and `GetScore`, the source's two loops proved to compute it;
  - the proof that the score is the best total reachable by counting aces as 1.
- `Rules`:
  - a snapshot of the game's global state (`Table`) and one function per action of the game;
  - the lemmas about those functions: the game-over latch, dealing only from the top, the dealer's 17 rule, conservation of the cards, and the outcome precedence.
- `Engine`: the class `Game`. It holds the global variables as fields: the deck is an array whose first `deckSize` cells are the cards still in it, with the top card last. Its methods carry out each action step by step, the way the source does. Each method's `ensures` gives the whole new state: for the game actions, the snapshot the matching `Rules` function computes from the snapshot before the call; for `CreateDeck`, `ShuffleDeck`, `DealCard` and `DealOpeningHands`, the new deck (`FullDeck`, `Shuffled`, the old deck without its top card, `Rules.Deal` of the old deck) with the rest of the state as stated.

`Math.random` becomes a parameter `picks`: `picks[i]` is the index, from 0 to `i`, that the shuffle swaps with position `i`. Every property of the shuffle and of `startGame` holds for every such choice. The messages the game shows at the end become the `Outcome` datatype, one value per message.

## Model

| member | source | states |
|---|---|---|
| Cards.CardValue | script.js:56-64 | An ace is worth 11, J/Q/K and 10 are worth 10, and any other numeral is worth its number. Every value lies between 2 and 11. |
| Cards.FullDeckHasEveryCardOnce | script.js:32-49 | The deck `createDeck` builds has 52 cards: every (suit, rank) card appears in it, and no card appears twice. |
| Cards.ShuffledPermutes | script.js:69-75 | Whatever index at most `i` each step picks, the shuffled deck has the same length and the same multiset of cards as before. |
| Scoring.DemoteIsLeast | script.js:406-409 | The demotion loop demotes the fewest aces that bring the total to 21 or less, or all of them if no number does. |
| Scoring.ScoreIsReachable | script.js:391-412 | The score is the sum minus 10·k for some k up to the ace count. |
| Scoring.ScoreIsBest | script.js:391-412 | No total reachable by demoting aces beats the score without busting, and when the score busts it is the smallest reachable total. |
| Scoring.ScoreIsBestTotal | script.js:391-412 | The score is the sum minus 10·k for some k up to the ace count. It is the largest such total that is at most 21, or the smallest of them when all bust. |
| Scoring.TwoCardsNeverBust | script.js:391-412 | No two-card hand scores over 21, and two aces score 12. |
| Scoring.ScoreExamples | script.js:391-412 | The empty hand scores 0, A+K scores 21, and A+A+9 scores 21. |
| Scoring.GetScore | script.js:391-412 | The summing loop followed by the demotion loop computes `Score(hand)`. |
| Rules.DealIsFourPops | script.js:116-131 | Four pops from the top of the deck hand the player the 1st and 3rd cards, hide the 2nd and show the 4th for the dealer. The deck keeps the rest, in order. |
| Rules.StartFacts | script.js:98-139 | After `startGame`, the player holds the 1st and 3rd cards from the top of the shuffled deck. The game is over exactly when either side has a blackjack, counting the dealer's hidden card. It is then revealed and ended with the initial outcome. Otherwise the game runs with the card still hidden. |
| Rules.StartHoldsFullDeck | script.js:98-139 | After `startGame`, the deck, both hands and the hidden card together hold exactly the 52 cards of a fresh deck. |
| Rules.InitialOutcomeAgreesWithWinner | script.js:277-283 | When a two-card hand has a blackjack, the outcome announced at the deal (push if both, otherwise the side with the blackjack) is the one `determineWinner` would pick. |
| Rules.CheckInitialBlackjackConservesCards | script.js:259-286 | Checking for blackjack leaves the deck and the player's hand as they were, and the dealer's hand followed by the hidden card is unchanged (only the hidden card may move), so the cards on the table are unchanged. |
| Rules.HitFacts | script.js:144-164 | On a running game with a card left, `hit` appends exactly the top card to the player's hand. On an empty deck it is a stand. The game ends exactly when the deck was empty or the player is on 21 or more. A bust ends it as a player bust. On 21 it is a stand on the new table, and the outcome is the winner of 21 against the dealer's final hand. Below 21 only the top card has moved. |
| Rules.HitConservesCards | script.js:144-164 | `hit` moves cards and never creates or loses one. |
| Rules.OverIsLatched | script.js:144-175 | Once the game is over, `hit`, `stand` and `endGame` change nothing. |
| Rules.StandFacts | script.js:169-224 | `stand` on a running game reveals the hidden card first. The dealer then takes cards from the top of the deck only while scoring below 17, and stops at 17 or more or on an empty deck. The game ends with the winner of the final hands. |
| Rules.DealerPlayResolves | script.js:197-223 | The interval ends with the game over: the dealer is on 17 or more, or the deck is empty, and the outcome is the winner of the final hands. |
| Rules.DealerPlayDraws | script.js:207-218 | The dealer's hand grows only by the deck's top cards, in order, each drawn while the hand scored below 17. |
| Rules.DealerPlayConserves | script.js:197-223 | The dealer's drawing moves cards from the deck to the dealer's hand and loses none. |
| Rules.StandConservesCards | script.js:169-224 | `stand` keeps the multiset of cards on the table. |
| Rules.RevealConserves | script.js:293-305 | Revealing the hidden card, or ending the game, keeps the multiset of cards on the table. |
| Rules.ActionsKeepConsistent | script.js:144-175 | `hit` and `stand` preserve the latch invariant. A finished game has no hidden card and has an outcome. A running game has no outcome and no blackjack flag. |
| Rules.ResolutionNeverBlackjack | script.js:237-253 | Because the game ends at the deal when a blackjack was dealt, the resolution after the dealer's turn never announces one of the three blackjack outcomes. |
| Rules.EndGameFacts | script.js:293-305 | The first `endGame` latches the game, records the outcome and moves the hidden card to the end of the dealer's hand; a second call changes nothing. |
| Rules.WinnerCharacterised | script.js:237-253 | `determineWinner` announces exactly one outcome, the one whose condition holds while the earlier ones fail. The order is: player bust, dealer bust, the three blackjack cases, higher score, push. |
| Rules.WinnerIsSymmetric | script.js:237-253 | The precedence treats the two sides alike, except when both bust: then the player's bust is checked first. |
| Cards.FullDeck | script.js:32-49 | The deck `createDeck` builds, suit by suit in the order hearts, diamonds, clubs, spades and rank by rank from A to K; it has 52 cards (its properties are in `Cards.FullDeckHasEveryCardOnce`). |
| Cards.Shuffled | script.js:69-75 | The Fisher-Yates swaps from the last position down to 1, position `i` swapped with `picks[i]`; the length is kept (the permutation is `Cards.ShuffledPermutes`). |
| Scoring.Score | script.js:391-412 | `getScore`: 0 for the empty hand, otherwise the sum with aces demoted while over 21; its meaning is `Scoring.ScoreIsBestTotal` and `Scoring.GetScore` computes it. |
| Rules.Winner | script.js:237-253 | The precedence of `determineWinner`; characterised outcome by outcome in `Rules.WinnerCharacterised`. |
| Rules.EndGame | script.js:293-305 | `endGame` on a snapshot; its properties are `Rules.EndGameFacts`. |
| Rules.Resolve | script.js:229-254 | `determineWinner` on a snapshot: ends the game with the `Winner` of the current scores and flags. |
| Rules.DealerTick | script.js:197-223 | One firing of the dealer's interval callback on a snapshot. |
| Rules.DealerPlay | script.js:197-223 | The callback fired until it clears the interval; its properties are `Rules.DealerPlayResolves`, `Rules.DealerPlayDraws` and `Rules.DealerPlayConserves`. |
| Rules.DealerTurn | script.js:180-224 | `dealerTurn`: the hidden card revealed, then `DealerPlay`. |
| Rules.Stand | script.js:169-175 | `stand` on a snapshot; its properties are `Rules.StandFacts` and `Rules.StandConservesCards`. |
| Rules.Hit | script.js:144-164 | `hit` on a snapshot; its properties are `Rules.HitFacts` and `Rules.HitConservesCards`. |
| Rules.CheckInitialBlackjack | script.js:259-286 | `checkInitialBlackjack` on a snapshot; its properties are `Rules.StartFacts` and `Rules.CheckInitialBlackjackConservesCards`. |
| Rules.Deal | script.js:116-131 | The four deals from the top of a deck; tied to four pops by `Rules.DealIsFourPops`. |
| Rules.Start | script.js:98-139 | `startGame` with shuffle choices `picks`; its properties are `Rules.StartFacts` and `Rules.StartHoldsFullDeck`. |
| Engine.Game.constructor | script.js:12-20 | The initial globals: empty deck and hands, no hidden card, the game not over. |
| Engine.Game.CreateDeck | script.js:32-49 | Replaces the deck with a new array holding the ordered 52-card deck and changes nothing else. |
| Engine.Game.ShuffleDeck | script.js:69-75 | The in-place swap loop leaves the deck equal to `Shuffled` of the old deck under the same choices. |
| Engine.Game.DealCard | script.js:81-91 | On an empty deck, returns nothing and changes nothing. Otherwise it returns the old top card and the deck becomes the old deck without it. |
| Engine.Game.EndGame | script.js:293-305 | The state becomes `Rules.EndGame` of the old one. On a running game it latches the game, records the outcome and appends the hidden card to the dealer's hand. On a finished game nothing changes. The deck is untouched. |
| Engine.Game.DetermineWinner | script.js:229-254 | The if-chain over freshly computed scores ends the game with exactly the outcome `Winner` picks for the current hands and flags (`Rules.Resolve`). |
| Engine.Game.DealerTick | script.js:197-223 | One firing of the interval callback. It reports that the interval is cleared exactly when the game is over, the dealer is on 17 or more, or the deck is empty. Otherwise it moves the top card to the dealer's hand. When it stops on a running game, it resolves the game (`Rules.DealerTick`). |
| Engine.Game.DealerTurn | script.js:180-224 | Reveals the hidden card, then fires the callback until it clears the interval. The loop ends because every firing that does not stop pops a card. The resulting state is `Rules.DealerTurn`, whose properties `Rules.StandFacts` proves. |
| Engine.Game.Stand | script.js:169-175 | Does nothing once the game is over. Otherwise it runs the dealer's turn. The resulting state is `Rules.Stand`, whose properties `Rules.StandFacts` proves. |
| Engine.Game.Hit | script.js:144-164 | Does nothing once the game is over. An empty deck means a stand. Otherwise one card is popped onto the player's hand, and a bust or 21 is decided on the score of the new hand. The resulting state is `Rules.Hit`, whose properties `Rules.HitFacts` proves. |
| Engine.Game.CheckInitialBlackjack | script.js:259-286 | Sets each blackjack flag: two cards scoring 21, the dealer's hand counted with its hidden card. On either flag it reveals the hidden card and ends the game with the initial outcome (`Rules.CheckInitialBlackjack`). The deck is untouched. |
| Engine.Game.DealOpeningHands | script.js:116-131 | The four deals leave the state `Rules.Deal` of the deck before them. |
| Engine.Game.StartGame | script.js:98-139 | Reset, create, shuffle with `picks`, deal and check for blackjack leave the state `Rules.Start(picks)`, whose properties `Rules.StartFacts` and `Rules.StartHoldsFullDeck` prove. None of the four deals comes back empty. |

## Left out

- DOM lookups, event listeners, `updateUI`, `renderCards`, `createCardElement` and `toggleButtons`: browser rendering and button visibility. They change no game state, apart from the display caches below.
- The `playerScore`/`dealerScore` globals are not fields. They are display caches. Where the source reads one (`hit`, the dealer's interval, `determineWinner`), the model computes `getScore` of the hand at that point, which is the value the cache holds there.
- The console output and the message strings: each final message is an `Outcome`, and the intermediate "your turn", "dealer is hitting" and "deck is empty" messages are not modelled.
- `Math.random`/`Math.floor` in the shuffle: the model takes the chosen indices as the parameter `picks` and proves its results for every choice. It cannot state that the shuffle is uniform.
- `setInterval`/`clearInterval` and the one-second pacing: the dealer's turn runs the callback to completion in a loop. That no other action interleaves with it holds in the game only because the buttons are disabled during the dealer's turn. The model does not capture this.
- The `suitSymbol` and `value` fields of a card object: the symbol is display data, and the value is always `getCardValue` of the rank, so `Value(c)` computes it.
- The failed-deal branch of `startGame` (script.js:121-126) is not modelled as a reachable state. The deck has just been built with 52 cards, so the model proves that all four deals return a card.
- The `!card` skip and the `!hand` test in `getScore`: in the model a hand is always a sequence of cards, since `dealCard`'s missing result is never pushed.
- The deck is a 52-cell array with a size, not a JavaScript array that grows and shrinks. `pop` lowers the size, and `createDeck` allocates a new array.
