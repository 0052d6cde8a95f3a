/**
  The game's global state and the functions that drive it, as one object:
  the deck is an array whose first `deckSize` cells are the cards still in
  it (its last card is the top), the hands are sequences the methods extend.
  Every method is proved to leave the state that the matching function of
  `Rules` computes from the state before the call.
 */
module Engine {
  import opened Wrappers
  import opened Cards
  import opened Scoring
  import Rules

  class Game {
    var deck: array<Card>
    var deckSize: nat
    var playerHand: seq<Card>
    var dealerHand: seq<Card>
    var dealerHiddenCard: Option<Card>
    var isGameOver: bool
    var playerBlackjack: bool
    var dealerBlackjack: bool
    /** The final message, `None` while the game runs. */
    var outcome: Option<Rules.Outcome>

    ghost predicate Valid()
      reads this`deck, this`deckSize
    {
      deckSize <= deck.Length
    }

    /** The cards still in the deck, bottom first. */
    function Deck(): seq<Card>
      reads this`deck, this`deckSize, deck
      requires Valid()
    {
      deck[..deckSize]
    }

    function Snapshot(): Rules.Table
      reads this, deck
      requires Valid()
    {
      Rules.Table(Deck(), playerHand, dealerHand, dealerHiddenCard,
                  isGameOver, playerBlackjack, dealerBlackjack, outcome)
    }

    /** The globals' initial values: no deck, no cards, the game not over. */
    constructor ()
      ensures Valid()
      ensures Snapshot() == Rules.Table([], [], [], None, false, false, false, None)
    {
      deck := new Card[0];
      deckSize := 0;
      playerHand, dealerHand, dealerHiddenCard := [], [], None;
      isGameOver, playerBlackjack, dealerBlackjack := false, false, false;
      outcome := None;
    }

    /** `createDeck`: a new deck, suit by suit and rank by rank. */
    method CreateDeck()
      requires Valid()
      modifies this
      ensures Valid() && fresh(deck)
      ensures Snapshot() == old(Snapshot()).(deck := FullDeck())
    {
      var cards := new Card[52];
      var n := 0;
      var si := 0;
      while si < 4
        modifies cards
        invariant 0 <= si <= 4 && n == 13 * si
        invariant forall k :: 0 <= k < n ==> cards[k] == FullDeck()[k]
      {
        var ri := 0;
        while ri < 13
          modifies cards
          invariant 0 <= ri <= 13 && n == 13 * si + ri
          invariant forall k :: 0 <= k < n ==> cards[k] == FullDeck()[k]
        {
          cards[n] := Card(SuitAt(si), RankAt(ri));
          n := n + 1;
          ri := ri + 1;
        }
        si := si + 1;
      }
      deck, deckSize := cards, n;
      assert Deck() == FullDeck();
    }

    /**
      `shuffleDeck`: Fisher-Yates in place; `picks[i]` is the random index,
      at most `i`, drawn when position `i` is settled.
     */
    method ShuffleDeck(picks: seq<int>)
      requires Valid() && ValidPicks(picks, deckSize)
      modifies deck
      ensures Valid() && Deck() == Shuffled(old(Deck()), picks)
    {
      var i := deckSize as int - 1;
      while i > 0
        invariant -1 <= i < deckSize
        invariant ShuffleFrom(Deck(), picks, i) == Shuffled(old(Deck()), picks)
      {
        ghost var before := Deck();
        var j := picks[i];
        deck[i], deck[j] := deck[j], deck[i];
        assert Deck() == Swap(before, i, j);
        i := i - 1;
      }
    }

    /** `dealCard`: pops the top card, or yields nothing from an empty deck. */
    method DealCard() returns (card: Option<Card>)
      requires Valid()
      modifies this`deckSize
      ensures Valid()
      ensures old(deckSize) == 0 ==> card.None? && Snapshot() == old(Snapshot())
      ensures old(deckSize) > 0 ==> card.Some? && old(Deck()) == Deck() + [card.value]
      ensures old(deckSize) > 0 ==> Snapshot() == old(Snapshot()).(deck := Rules.Rest(old(Deck())))
    {
      if deckSize == 0 {
        return None;
      }
      card := Some(deck[deckSize - 1]);
      deckSize := deckSize - 1;
      assert old(Deck()) == Deck() + [card.value];
    }

    /** `endGame`: the first call latches the game over and reveals the hidden card. */
    method EndGame(o: Rules.Outcome)
      requires Valid()
      modifies this`isGameOver, this`outcome, this`dealerHand, this`dealerHiddenCard
      ensures Valid()
      ensures Snapshot() == Rules.EndGame(old(Snapshot()), o)
    {
      if isGameOver {
        return;
      }
      isGameOver := true;
      outcome := Some(o);
      if dealerHiddenCard.Some? {
        dealerHand := dealerHand + [dealerHiddenCard.value];
        dealerHiddenCard := None;
      } else {
        assert dealerHand == old(dealerHand) + Rules.HiddenCards(old(dealerHiddenCard));
      }
    }

    /** `determineWinner`: the fixed precedence of outcomes, the first that holds. */
    method DetermineWinner()
      requires Valid()
      modifies this`isGameOver, this`outcome, this`dealerHand, this`dealerHiddenCard
      ensures Valid()
      ensures Snapshot() == Rules.Resolve(old(Snapshot()))
    {
      var playerScore := GetScore(playerHand);
      var dealerScore := GetScore(dealerHand);
      if playerScore > 21 {
        EndGame(Rules.PlayerBust);
      } else if dealerScore > 21 {
        EndGame(Rules.DealerBust);
      } else if playerBlackjack && !dealerBlackjack {
        EndGame(Rules.PlayerBlackjack);
      } else if !playerBlackjack && dealerBlackjack {
        EndGame(Rules.DealerBlackjack);
      } else if playerBlackjack && dealerBlackjack {
        EndGame(Rules.BothBlackjack);
      } else if playerScore > dealerScore {
        EndGame(Rules.PlayerWins);
      } else if dealerScore > playerScore {
        EndGame(Rules.DealerWins);
      } else {
        EndGame(Rules.Push);
      }
    }

    /**
      One firing of the dealer's interval callback; `stop` says whether it
      clears the interval.
     */
    method DealerTick() returns (stop: bool)
      requires Valid()
      modifies this
      ensures Valid() && deck == old(deck)
      ensures stop == Rules.TickStops(old(Snapshot()))
      ensures Snapshot() == Rules.DealerTick(old(Snapshot()))
    {
      if isGameOver {
        return true;
      }
      var dealerScore := GetScore(dealerHand);
      if dealerScore < 17 {
        var newCard := DealCard();
        if newCard.None? {
          DetermineWinner();
          return true;
        }
        dealerHand := dealerHand + [newCard.value];
        return false;
      } else {
        DetermineWinner();
        return true;
      }
    }

    /** `dealerTurn`: reveal the hidden card, then fire the interval until it is cleared. */
    method DealerTurn()
      requires Valid()
      modifies this
      ensures Valid() && deck == old(deck)
      ensures Snapshot() == Rules.DealerTurn(old(Snapshot()))
    {
      if dealerHiddenCard.Some? {
        dealerHand := dealerHand + [dealerHiddenCard.value];
        dealerHiddenCard := None;
      } else {
        assert dealerHand == old(dealerHand) + Rules.HiddenCards(old(dealerHiddenCard));
      }
      ghost var revealed := Snapshot();
      assert revealed == Rules.Reveal(old(Snapshot()));
      var stop := false;
      while !stop
        invariant Valid() && deck == old(deck)
        invariant stop ==> Snapshot() == Rules.DealerPlay(revealed)
        invariant !stop ==> Rules.DealerPlay(Snapshot()) == Rules.DealerPlay(revealed)
        decreases deckSize + (if stop then 0 else 1)
      {
        stop := DealerTick();
      }
    }

    /** `stand`: ignored once the game is over, else the dealer's turn. */
    method Stand()
      requires Valid()
      modifies this
      ensures Valid() && deck == old(deck)
      ensures Snapshot() == Rules.Stand(old(Snapshot()))
    {
      if isGameOver {
        return;
      }
      DealerTurn();
    }

    /**
      `hit`: ignored once the game is over; an empty deck forces a stand;
      otherwise one card, then a bust ends the game and 21 stands.
     */
    method Hit()
      requires Valid()
      modifies this
      ensures Valid() && deck == old(deck)
      ensures Snapshot() == Rules.Hit(old(Snapshot()))
    {
      if isGameOver {
        return;
      }
      var newCard := DealCard();
      if newCard.None? {
        Stand();
        return;
      }
      playerHand := playerHand + [newCard.value];
      var playerScore := GetScore(playerHand);
      if playerScore > 21 {
        EndGame(Rules.PlayerBust);
      } else if playerScore == 21 {
        Stand();
      }
    }

    /**
      `checkInitialBlackjack`: sets both flags, the dealer's hand taken with its
      hidden card, and on a blackjack reveals the card and ends the game.
     */
    method CheckInitialBlackjack()
      requires Valid()
      modifies this`isGameOver, this`outcome, this`dealerHand, this`dealerHiddenCard,
               this`playerBlackjack, this`dealerBlackjack
      ensures Valid()
      ensures Snapshot() == Rules.CheckInitialBlackjack(old(Snapshot()))
    {
      ghost var before := Snapshot();
      var playerScore := GetScore(playerHand);
      var actualDealerHand := if dealerHiddenCard.Some? then dealerHand + [dealerHiddenCard.value] else dealerHand;
      assert actualDealerHand == dealerHand + Rules.HiddenCards(dealerHiddenCard);
      var actualDealerScore := GetScore(actualDealerHand);
      playerBlackjack := playerScore == 21 && |playerHand| == 2;
      dealerBlackjack := actualDealerScore == 21 && |actualDealerHand| == 2;
      ghost var flagged := Snapshot();
      assert flagged == before.(playerBlackjack := Rules.IsBlackjack(before.player),
                                dealerBlackjack := Rules.IsBlackjack(before.dealer + Rules.HiddenCards(before.hidden)));
      if playerBlackjack || dealerBlackjack {
        if dealerHiddenCard.Some? {
          dealerHand := dealerHand + [dealerHiddenCard.value];
          dealerHiddenCard := None;
        }
        assert Snapshot() == Rules.Reveal(flagged);
        if playerBlackjack && dealerBlackjack {
          EndGame(Rules.BothBlackjack);
        } else if playerBlackjack {
          EndGame(Rules.PlayerBlackjack);
        } else {
          EndGame(Rules.DealerBlackjack);
        }
      }
    }

    /** The four deals of `startGame`: player, dealer hidden, player, dealer face-up. */
    method DealOpeningHands()
      requires Valid() && deckSize >= 4
      requires playerHand == [] && dealerHand == [] && dealerHiddenCard == None
      requires !isGameOver && !playerBlackjack && !dealerBlackjack && outcome == None
      modifies this
      ensures Valid() && deck == old(deck)
      ensures Snapshot() == Rules.Deal(old(Deck()))
    {
      ghost var s0 := Deck();
      var pCard1 := DealCard();
      ghost var s1 := Deck();
      var dHiddenCard := DealCard();
      ghost var s2 := Deck();
      var pCard2 := DealCard();
      ghost var s3 := Deck();
      var dCard1 := DealCard();
      ghost var s4 := Deck();
      Rules.DealIsFourPops(s0, s1, s2, s3, s4, pCard1.value, dHiddenCard.value, pCard2.value, dCard1.value);
      playerHand := playerHand + [pCard1.value];
      dealerHiddenCard := dHiddenCard;
      playerHand := playerHand + [pCard2.value];
      dealerHand := dealerHand + [dCard1.value];
    }

    /**
      `startGame`: reset, build and shuffle a new deck, deal player, dealer
      hidden, player, dealer face-up, then check for blackjack. The deck has
      just been built with 52 cards, so none of the four deals comes back empty.
     */
    method StartGame(picks: seq<int>)
      requires Valid() && ValidPicks(picks, 52)
      modifies this
      ensures Valid()
      ensures Snapshot() == Rules.Start(picks)
    {
      isGameOver, playerBlackjack, dealerBlackjack := false, false, false;
      playerHand, dealerHand, dealerHiddenCard := [], [], None;
      outcome := None;
      CreateDeck();
      ShuffleDeck(picks);
      assert Deck() == Shuffled(FullDeck(), picks);
      DealOpeningHands();
      CheckInitialBlackjack();
    }
  }
}
