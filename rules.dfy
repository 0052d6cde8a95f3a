/**
  The game's state machine on values. A `Table` is a snapshot of the game's
  global state (deck, both hands, the dealer's hidden card, the game-over
  latch and the two blackjack flags) together with the final outcome, which
  stands for the message the game shows. Each action of the game is a
  function from snapshot to snapshot; the `Engine.Game` methods are proved to
  change their fields exactly as these functions say.
 */
module Rules {
  import opened Wrappers
  import opened Cards
  import opened Scoring

  /** The final messages of the game, one per way a game can end. */
  datatype Outcome =
    | PlayerBust        // the player went over 21: dealer wins
    | DealerBust        // the dealer went over 21: player wins
    | PlayerBlackjack   // only the player has blackjack: player wins
    | DealerBlackjack   // only the dealer has blackjack: dealer wins
    | BothBlackjack     // both have blackjack: push
    | PlayerWins        // higher score
    | DealerWins        // higher score
    | Push              // equal scores

  datatype Table = Table(
    deck: seq<Card>,
    player: seq<Card>,
    dealer: seq<Card>,
    hidden: Option<Card>,
    over: bool,
    playerBlackjack: bool,
    dealerBlackjack: bool,
    outcome: Option<Outcome>)

  function HiddenCards(h: Option<Card>): seq<Card> {
    if h.Some? then [h.value] else []
  }

  /** Every card on the table: the deck, both hands and the hidden card. */
  function AllCards(t: Table): multiset<Card> {
    multiset(t.deck) + multiset(t.player) + multiset(t.dealer) + multiset(HiddenCards(t.hidden))
  }

  predicate IsBlackjack(hand: seq<Card>) {
    |hand| == 2 && Score(hand) == 21
  }

  function Top(deck: seq<Card>): Card
    requires |deck| > 0
  {
    deck[|deck| - 1]
  }

  function Rest(deck: seq<Card>): seq<Card>
    requires |deck| > 0
  {
    deck[..|deck| - 1]
  }

  /** `determineWinner`'s precedence: the first condition that holds decides. */
  function Winner(player: int, dealer: int, playerBlackjack: bool, dealerBlackjack: bool): Outcome {
    if player > 21 then PlayerBust
    else if dealer > 21 then DealerBust
    else if playerBlackjack && !dealerBlackjack then PlayerBlackjack
    else if !playerBlackjack && dealerBlackjack then DealerBlackjack
    else if playerBlackjack && dealerBlackjack then BothBlackjack
    else if player > dealer then PlayerWins
    else if dealer > player then DealerWins
    else Push
  }

  /** The outcome `checkInitialBlackjack` announces when a blackjack was dealt. */
  function InitialOutcome(playerBlackjack: bool, dealerBlackjack: bool): Outcome
    requires playerBlackjack || dealerBlackjack
  {
    if playerBlackjack && dealerBlackjack then BothBlackjack
    else if playerBlackjack then PlayerBlackjack
    else DealerBlackjack
  }

  /** Turning the hidden card face-up: it joins the end of the dealer's hand. */
  function Reveal(t: Table): Table {
    t.(dealer := t.dealer + HiddenCards(t.hidden), hidden := None)
  }

  /** `endGame`: only the first call has an effect; it latches and reveals. */
  function EndGame(t: Table, o: Outcome): Table {
    if t.over then t else Reveal(t).(over := true, outcome := Some(o))
  }

  /** `determineWinner` on the current hands. */
  function Resolve(t: Table): Table {
    EndGame(t, Winner(Score(t.player), Score(t.dealer), t.playerBlackjack, t.dealerBlackjack))
  }

  /** The dealer's draw: the top card of the deck joins the dealer's hand. */
  function Draw(t: Table): Table
    requires |t.deck| > 0
  {
    t.(deck := Rest(t.deck), dealer := t.dealer + [Top(t.deck)])
  }

  /** Whether a firing of the dealer's interval callback clears the interval. */
  predicate TickStops(t: Table) {
    t.over || Score(t.dealer) >= 17 || |t.deck| == 0
  }

  /** One firing of the dealer's interval callback. */
  function DealerTick(t: Table): Table {
    if t.over then t
    else if Score(t.dealer) < 17 && |t.deck| > 0 then Draw(t)
    else Resolve(t)
  }

  /** The interval firing again and again until it is cleared. */
  function DealerPlay(t: Table): Table
    decreases |t.deck|
  {
    if TickStops(t) then DealerTick(t) else DealerPlay(Draw(t))
  }

  /** `dealerTurn`: reveal the hidden card, then run the interval. */
  function DealerTurn(t: Table): Table {
    DealerPlay(Reveal(t))
  }

  /** `stand` */
  function Stand(t: Table): Table {
    if t.over then t else DealerTurn(t)
  }

  /** `hit` */
  function Hit(t: Table): Table {
    if t.over then t
    else if |t.deck| == 0 then Stand(t)
    else
      var t1 := t.(deck := Rest(t.deck), player := t.player + [Top(t.deck)]);
      if Score(t1.player) > 21 then EndGame(t1, PlayerBust)
      else if Score(t1.player) == 21 then Stand(t1)
      else t1
  }

  /** `checkInitialBlackjack`, the dealer's hand taken with its hidden card. */
  function CheckInitialBlackjack(t: Table): Table {
    var playerBlackjack := IsBlackjack(t.player);
    var dealerBlackjack := IsBlackjack(t.dealer + HiddenCards(t.hidden));
    var t1 := t.(playerBlackjack := playerBlackjack, dealerBlackjack := dealerBlackjack);
    if playerBlackjack || dealerBlackjack then
      EndGame(Reveal(t1), InitialOutcome(playerBlackjack, dealerBlackjack))
    else t1
  }

  /**
    The four deals of `startGame` from the top of the deck: player, dealer
    hidden, player, dealer face-up.
   */
  function Deal(deck: seq<Card>): Table
    requires |deck| >= 4
  {
    var n := |deck|;
    Table(deck[..n - 4], [deck[n - 1], deck[n - 3]], [deck[n - 4]], Some(deck[n - 2]),
          false, false, false, None)
  }

  /** Four pops from the top of the deck are the four deals of `startGame`. */
  lemma DealIsFourPops(s0: seq<Card>, s1: seq<Card>, s2: seq<Card>, s3: seq<Card>, s4: seq<Card>,
                       first: Card, hidden: Card, second: Card, faceUp: Card)
    requires s0 == s1 + [first] && s1 == s2 + [hidden] && s2 == s3 + [second] && s3 == s4 + [faceUp]
    ensures |s0| >= 4
    ensures Deal(s0) == Table(s4, [first, second], [faceUp], Some(hidden), false, false, false, None)
  {
    assert s0 == s4 + [faceUp, second, hidden, first];
    assert s0[..|s0| - 4] == s4;
  }

  /** `startGame`: a fresh deck, shuffled with `picks`, dealt, then checked for blackjack. */
  function Start(picks: seq<int>): Table
    requires ValidPicks(picks, 52)
  {
    CheckInitialBlackjack(Deal(Shuffled(FullDeck(), picks)))
  }

  // ----- invariants of the state machine -----

  /**
    The game-over latch: a finished game has its hidden card revealed and an
    outcome; a running game has neither an outcome nor a blackjack flag set.
   */
  predicate Consistent(t: Table) {
    && (t.over ==> t.hidden.None? && t.outcome.Some?)
    && (!t.over ==> t.outcome.None? && !t.playerBlackjack && !t.dealerBlackjack)
  }

  /** The dealer never drew a card while its score was 17 or more. */
  ghost predicate DrewOnlyBelow17(before: seq<Card>, after: seq<Card>) {
    forall k :: |before| <= k < |after| ==> Score(after[..k]) < 17
  }

  /** `after` is `before` extended with the top cards of `deck`, last card first. */
  ghost predicate DrawnFromTop(before: seq<Card>, deck: seq<Card>, after: seq<Card>, rest: seq<Card>) {
    && |before| <= |after|
    && after[..|before|] == before
    && |rest| + |after| == |deck| + |before|
    && rest == deck[..|rest|]
    && forall i :: |before| <= i < |after| ==> after[i] == deck[|deck| - 1 - (i - |before|)]
  }

  /** The interval ends with the game resolved on the dealer's final hand. */
  lemma {:induction false} DealerPlayResolves(t: Table)
    requires !t.over && t.hidden.None?
    ensures var r := DealerPlay(t);
      && r.over && r.hidden.None?
      && r.player == t.player
      && r.playerBlackjack == t.playerBlackjack && r.dealerBlackjack == t.dealerBlackjack
      && (Score(r.dealer) >= 17 || r.deck == [])
      && r.outcome == Some(Winner(Score(r.player), Score(r.dealer), t.playerBlackjack, t.dealerBlackjack))
    decreases |t.deck|
  {
    if TickStops(t) {
      assert t.dealer + HiddenCards(t.hidden) == t.dealer;
    } else {
      DealerPlayResolves(Draw(t));
    }
  }

  /** Drawing the top card first and the rest afterwards is drawing from the top. */
  lemma DrawnFromTopStep(before: seq<Card>, deck: seq<Card>, after: seq<Card>, rest: seq<Card>)
    requires |deck| > 0
    requires DrawnFromTop(before + [Top(deck)], Rest(deck), after, rest)
    ensures DrawnFromTop(before, deck, after, rest)
  {
    var n := |before|;
    var next := before + [Top(deck)];
    assert after[..n] == after[..n + 1][..n] == next[..n] == before;
    forall i | n <= i < |after|
      ensures after[i] == deck[|deck| - 1 - (i - n)]
    {
      if i == n {
        assert after[i] == next[n];
      } else {
        assert after[i] == Rest(deck)[|Rest(deck)| - 1 - (i - (n + 1))];
      }
    }
  }

  /** A card drawn below 17, then draws below 17, are all draws below 17. */
  lemma DrewOnlyBelow17Step(before: seq<Card>, card: Card, after: seq<Card>)
    requires Score(before) < 17
    requires |before| < |after| && after[..|before|] == before
    requires DrewOnlyBelow17(before + [card], after)
    ensures DrewOnlyBelow17(before, after)
  {
    forall k | |before| <= k < |after| ensures Score(after[..k]) < 17 {
      if k == |before| {
        assert after[..k] == before;
      }
    }
  }

  /**
    The dealer's hand grows only by cards from the top of the deck, each drawn
    while the hand scored below 17.
   */
  lemma {:induction false} DealerPlayDraws(t: Table)
    requires !t.over && t.hidden.None?
    ensures var r := DealerPlay(t);
      && DrawnFromTop(t.dealer, t.deck, r.dealer, r.deck)
      && DrewOnlyBelow17(t.dealer, r.dealer)
    decreases |t.deck|
  {
    if TickStops(t) {
      assert t.dealer + HiddenCards(t.hidden) == t.dealer;
      var r := DealerPlay(t);
      assert r.dealer == t.dealer && r.deck == t.deck;
    } else {
      var next := Draw(t);
      DealerPlayDraws(next);
      var r := DealerPlay(next);
      assert DealerPlay(t) == r;
      DrawnFromTopStep(t.dealer, t.deck, r.dealer, r.deck);
      assert r.dealer[..|t.dealer|] == t.dealer;
      DrewOnlyBelow17Step(t.dealer, Top(t.deck), r.dealer);
    }
  }

  lemma DealerPlayFacts(t: Table)
    requires !t.over && t.hidden.None?
    ensures var r := DealerPlay(t);
      && r.over && r.hidden.None?
      && r.player == t.player
      && r.playerBlackjack == t.playerBlackjack && r.dealerBlackjack == t.dealerBlackjack
      && DrawnFromTop(t.dealer, t.deck, r.dealer, r.deck)
      && DrewOnlyBelow17(t.dealer, r.dealer)
      && (Score(r.dealer) >= 17 || r.deck == [])
      && r.outcome == Some(Winner(Score(r.player), Score(r.dealer), t.playerBlackjack, t.dealerBlackjack))
  {
    DealerPlayResolves(t);
    DealerPlayDraws(t);
  }

  /**
    `stand` on a running game: the hidden card is revealed first, the dealer
    then draws from the top of the deck only while below 17, stops at 17 or
    more or when the deck is empty, and the game is resolved.
   */
  lemma StandFacts(t: Table)
    requires !t.over
    ensures var r := Stand(t); var revealed := t.dealer + HiddenCards(t.hidden);
      && r.over && r.hidden.None? && r.player == t.player
      && DrawnFromTop(revealed, t.deck, r.dealer, r.deck)
      && DrewOnlyBelow17(revealed, r.dealer)
      && (Score(r.dealer) >= 17 || r.deck == [])
      && r.outcome == Some(Winner(Score(r.player), Score(r.dealer), t.playerBlackjack, t.dealerBlackjack))
  {
    DealerPlayFacts(Reveal(t));
  }

  /** Both actions are no-ops once the game is over. */
  lemma OverIsLatched(t: Table)
    requires t.over
    ensures Hit(t) == t && Stand(t) == t
    ensures forall o :: EndGame(t, o) == t
  {
  }

  /**
    `hit` on a running game draws exactly one card when the deck has one; the
    game then ends exactly when the player is on 21 or more, or the deck was
    empty (a forced stand). A bust ends the game as a player bust; 21 is a
    stand on the new table, resolved by the dealer's final hand; below 21 the
    top card has moved and nothing else has changed.
   */
  lemma HitFacts(t: Table)
    requires !t.over
    ensures |t.deck| > 0 ==> Hit(t).player == t.player + [Top(t.deck)]
    ensures |t.deck| == 0 ==> Hit(t) == Stand(t) && Hit(t).player == t.player
    ensures Hit(t).over <==> |t.deck| == 0 || Score(Hit(t).player) >= 21
    ensures |t.deck| > 0 && Score(Hit(t).player) > 21 ==> Hit(t).outcome == Some(PlayerBust)
    ensures |t.deck| > 0 ==>
      var t1 := t.(deck := Rest(t.deck), player := t.player + [Top(t.deck)]);
      && (Score(t1.player) == 21 ==> Hit(t) == Stand(t1))
      && (Score(t1.player) < 21 ==> Hit(t) == t1)
    ensures |t.deck| > 0 && Score(Hit(t).player) == 21 ==>
      Hit(t).outcome == Some(Winner(21, Score(Hit(t).dealer), t.playerBlackjack, t.dealerBlackjack))
    ensures Hit(t).over ==> Hit(t).hidden.None?
  {
    if |t.deck| == 0 {
      StandFacts(t);
    } else {
      var t1 := t.(deck := Rest(t.deck), player := t.player + [Top(t.deck)]);
      if Score(t1.player) == 21 {
        StandFacts(t1);
      }
    }
  }

  lemma RevealConserves(t: Table)
    ensures AllCards(Reveal(t)) == AllCards(t)
    ensures forall o :: AllCards(EndGame(t, o)) == AllCards(t)
  {
  }

  lemma DrawConserves(t: Table)
    requires |t.deck| > 0
    ensures AllCards(Draw(t)) == AllCards(t)
  {
    assert t.deck == Rest(t.deck) + [Top(t.deck)];
    assert multiset(t.deck) == multiset(Rest(t.deck)) + multiset{Top(t.deck)};
  }

  lemma {:induction false} DealerPlayConserves(t: Table)
    ensures AllCards(DealerPlay(t)) == AllCards(t)
    decreases |t.deck|
  {
    if TickStops(t) {
      if !t.over {
        assert DealerPlay(t) == Resolve(t);
        RevealConserves(t);
      }
    } else {
      DrawConserves(t);
      DealerPlayConserves(Draw(t));
    }
  }

  /**
    Cards are only ever moved: every action keeps the multiset of cards on the
    table (deck, both hands and the hidden card).
   */
  lemma StandConservesCards(t: Table)
    ensures AllCards(Stand(t)) == AllCards(t)
  {
    if !t.over {
      RevealConserves(t);
      DealerPlayConserves(Reveal(t));
    }
  }

  lemma HitConservesCards(t: Table)
    ensures AllCards(Hit(t)) == AllCards(t)
  {
    if !t.over && |t.deck| == 0 {
      StandConservesCards(t);
    } else if !t.over {
      var t1 := t.(deck := Rest(t.deck), player := t.player + [Top(t.deck)]);
      assert t.deck == Rest(t.deck) + [Top(t.deck)];
      assert multiset(t.deck) == multiset(t1.deck) + multiset{Top(t.deck)};
      assert AllCards(t1) == AllCards(t);
      RevealConserves(t1);
      StandConservesCards(t1);
    }
  }

  /**
    Checking for blackjack moves no card but the hidden one, which may join
    the end of the dealer's hand; the cards on the table are unchanged.
   */
  lemma CheckInitialBlackjackConservesCards(t: Table)
    ensures var r := CheckInitialBlackjack(t);
      && r.deck == t.deck && r.player == t.player
      && r.dealer + HiddenCards(r.hidden) == t.dealer + HiddenCards(t.hidden)
      && AllCards(r) == AllCards(t)
  {
    var t1 := t.(playerBlackjack := IsBlackjack(t.player),
                 dealerBlackjack := IsBlackjack(t.dealer + HiddenCards(t.hidden)));
    assert AllCards(t1) == AllCards(t);
    RevealConserves(t1);
    RevealConserves(Reveal(t1));
  }

  /** Every action keeps the game-over latch consistent. */
  lemma ActionsKeepConsistent(t: Table)
    requires Consistent(t)
    ensures Consistent(Stand(t)) && Consistent(Hit(t))
  {
    if !t.over {
      StandFacts(t);
      if |t.deck| > 0 {
        var t1 := t.(deck := Rest(t.deck), player := t.player + [Top(t.deck)]);
        if Score(t1.player) == 21 {
          StandFacts(t1);
        }
      }
    }
  }

  /** The three outcomes that announce a blackjack. */
  predicate AnnouncesBlackjack(o: Outcome) {
    o.PlayerBlackjack? || o.DealerBlackjack? || o.BothBlackjack?
  }

  lemma StandNeverBlackjack(t: Table)
    requires !t.over && !t.playerBlackjack && !t.dealerBlackjack
    ensures Stand(t).outcome.Some? && !AnnouncesBlackjack(Stand(t).outcome.value)
  {
    StandFacts(t);
  }

  /**
    The blackjack flags are never set when `determineWinner` runs: a game in
    which either was dealt a blackjack ended at the deal, so the end of the
    dealer's turn never announces a blackjack.
   */
  lemma ResolutionNeverBlackjack(t: Table)
    requires Consistent(t) && !t.over
    ensures Stand(t).outcome.Some? && !AnnouncesBlackjack(Stand(t).outcome.value)
    ensures Hit(t).outcome.Some? ==> !AnnouncesBlackjack(Hit(t).outcome.value)
  {
    StandNeverBlackjack(t);
    if |t.deck| == 0 {
      assert Hit(t) == Stand(t);
    } else {
      var t1 := t.(deck := Rest(t.deck), player := t.player + [Top(t.deck)]);
      if Score(t1.player) > 21 {
        assert Hit(t) == EndGame(t1, PlayerBust);
      } else if Score(t1.player) == 21 {
        assert Hit(t) == Stand(t1);
        StandNeverBlackjack(t1);
      } else {
        assert Hit(t) == t1;
      }
    }
  }

  /**
    Ending the game at the deal announces what `determineWinner` would have
    announced for the same two-card hands.
   */
  lemma InitialOutcomeAgreesWithWinner(player: seq<Card>, dealer: seq<Card>)
    requires |player| == 2 && |dealer| == 2
    requires IsBlackjack(player) || IsBlackjack(dealer)
    ensures InitialOutcome(IsBlackjack(player), IsBlackjack(dealer))
         == Winner(Score(player), Score(dealer), IsBlackjack(player), IsBlackjack(dealer))
  {
    TwoCardsNeverBust(player);
    TwoCardsNeverBust(dealer);
  }

  /**
    `startGame` deals player, hidden, player, face-up from the top of the
    shuffled deck; the game ends at once exactly when either side has a
    blackjack, with the hidden card revealed and the initial outcome, and
    otherwise is running with the hidden card still down.
   */
  lemma StartFacts(picks: seq<int>)
    requires ValidPicks(picks, 52)
    ensures var s := Shuffled(FullDeck(), picks); var r := Start(picks);
      var playerBlackjack := IsBlackjack([s[51], s[49]]);
      var dealerBlackjack := IsBlackjack([s[48], s[50]]);
      && r.deck == s[..48]
      && r.player == [s[51], s[49]]
      && r.playerBlackjack == playerBlackjack && r.dealerBlackjack == dealerBlackjack
      && (r.over <==> playerBlackjack || dealerBlackjack)
      && (r.over ==> r.dealer == [s[48], s[50]] && r.hidden.None?
                     && r.outcome == Some(InitialOutcome(playerBlackjack, dealerBlackjack)))
      && (!r.over ==> r.dealer == [s[48]] && r.hidden == Some(s[50]) && r.outcome.None?)
      && Consistent(r)
  {
    var s := Shuffled(FullDeck(), picks);
    var d := Deal(s);
    assert d.player == [s[51], s[49]] && d.dealer == [s[48]] && d.hidden == Some(s[50]);
    assert d.dealer + HiddenCards(d.hidden) == [s[48], s[50]];
  }

  /** The four deals only move cards from the deck into the hands. */
  lemma DealConserves(deck: seq<Card>)
    requires |deck| >= 4
    ensures AllCards(Deal(deck)) == multiset(deck)
  {
    var n := |deck|;
    var rest := deck[..n - 4];
    assert deck == rest + [deck[n - 4]] + [deck[n - 3]] + [deck[n - 2]] + [deck[n - 1]];
  }

  /** The table after `startGame` holds exactly the 52 cards of a fresh deck. */
  lemma StartHoldsFullDeck(picks: seq<int>)
    requires ValidPicks(picks, 52)
    ensures AllCards(Start(picks)) == multiset(FullDeck())
  {
    var s := Shuffled(FullDeck(), picks);
    ShuffledPermutes(FullDeck(), picks);
    DealConserves(s);
    CheckInitialBlackjackConservesCards(Deal(s));
  }

  /**
    `endGame` takes effect once: on a running game it latches, records the
    outcome and moves the hidden card to the end of the dealer's hand; on a
    finished game, including the one the first call left, it changes nothing.
   */
  lemma EndGameFacts(t: Table, o: Outcome, o2: Outcome)
    ensures var r := EndGame(t, o);
      && r.over
      && (t.over ==> r == t)
      && (!t.over ==> r.outcome == Some(o) && r.hidden.None?
                      && r.dealer == t.dealer + HiddenCards(t.hidden)
                      && r.deck == t.deck && r.player == t.player)
      && (!t.over ==> EndGame(r, o2) == r)
  {
  }

  /**
    Each outcome of `determineWinner` in terms of the scores and flags alone:
    exactly the outcome whose condition holds and whose predecessors' fail.
   */
  lemma WinnerCharacterised(player: int, dealer: int, pb: bool, db: bool)
    ensures var w := Winner(player, dealer, pb, db);
      && (w == PlayerBust <==> player > 21)
      && (w == DealerBust <==> player <= 21 && dealer > 21)
      && (w == PlayerBlackjack <==> player <= 21 && dealer <= 21 && pb && !db)
      && (w == DealerBlackjack <==> player <= 21 && dealer <= 21 && !pb && db)
      && (w == BothBlackjack <==> player <= 21 && dealer <= 21 && pb && db)
      && (w == PlayerWins <==> player <= 21 && dealer <= 21 && !pb && !db && player > dealer)
      && (w == DealerWins <==> player <= 21 && dealer <= 21 && !pb && !db && dealer > player)
      && (w == Push <==> player <= 21 && dealer <= 21 && !pb && !db && player == dealer)
  {
  }

  /** The outcome seen from the dealer's side. */
  function Mirror(o: Outcome): Outcome {
    match o
    case PlayerBust => DealerBust
    case DealerBust => PlayerBust
    case PlayerBlackjack => DealerBlackjack
    case DealerBlackjack => PlayerBlackjack
    case BothBlackjack => BothBlackjack
    case PlayerWins => DealerWins
    case DealerWins => PlayerWins
    case Push => Push
  }

  /**
    The precedence treats both sides alike, except that when both bust the
    player's bust is checked first and the dealer wins.
   */
  lemma WinnerIsSymmetric(player: int, dealer: int, playerBlackjack: bool, dealerBlackjack: bool)
    ensures !(player > 21 && dealer > 21) ==>
      Winner(dealer, player, dealerBlackjack, playerBlackjack) == Mirror(Winner(player, dealer, playerBlackjack, dealerBlackjack))
    ensures player > 21 ==> Winner(player, dealer, playerBlackjack, dealerBlackjack) == PlayerBust
  {
  }
}
