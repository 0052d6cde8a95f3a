/**
  `getScore`: a hand's total, counting every ace as 11 and then demoting aces
  to 1, one at a time, while the total is over 21.
 */
module Scoring {
  import opened Cards

  /** The sum of the hand's card values, every ace counted as 11. */
  function Sum(hand: seq<Card>): int {
    if hand == [] then 0 else Sum(hand[..|hand| - 1]) + Value(hand[|hand| - 1])
  }

  function AceCount(hand: seq<Card>): nat {
    if hand == [] then 0
    else AceCount(hand[..|hand| - 1]) + (if hand[|hand| - 1].rank == Ace then 1 else 0)
  }

  /** A total with `k` aces counted as 1 instead of 11. */
  function Reduced(total: int, k: int): int {
    total - 10 * k
  }

  /** How many aces the demotion loop of `getScore` turns from 11 into 1. */
  function Demotions(total: int, aces: nat): nat {
    if total > 21 && aces > 0 then Demotions(total - 10, aces - 1) + 1 else 0
  }

  /** The demotion loop of `getScore`: 10 off per ace while over 21. */
  function Demote(total: int, aces: nat): int {
    if total > 21 && aces > 0 then Demote(total - 10, aces - 1) else total
  }

  /** The score of a hand; 0 for the empty hand. */
  function Score(hand: seq<Card>): int {
    if |hand| == 0 then 0 else Demote(Sum(hand), AceCount(hand))
  }

  /** The hand's total when exactly `k` of its aces count 1 instead of 11. */
  function Total(hand: seq<Card>, k: int): int {
    Reduced(Sum(hand), k)
  }

  /**
    The loop demotes the least number of aces that brings the total to 21 or
    less, or all of them when no number does.
   */
  lemma {:induction false} DemoteIsLeast(total: int, aces: nat)
    ensures Demotions(total, aces) <= aces
    ensures Demote(total, aces) == Reduced(total, Demotions(total, aces))
    ensures forall k :: 0 <= k < Demotions(total, aces) ==> Reduced(total, k) > 21
    ensures Demote(total, aces) > 21 ==> Demotions(total, aces) == aces
  {
    if total > 21 && aces > 0 {
      DemoteIsLeast(total - 10, aces - 1);
      forall k | 0 <= k < Demotions(total, aces) ensures Reduced(total, k) > 21 {
        if k > 0 {
          assert Reduced(total, k) == Reduced(total - 10, k - 1);
        }
      }
    }
  }

  /** The demotion loop's result is the best total reachable by demoting aces. */
  lemma DemoteIsBest(total: int, aces: nat)
    ensures 0 <= Demotions(total, aces) <= aces && Demote(total, aces) == Reduced(total, Demotions(total, aces))
    ensures forall k :: 0 <= k <= aces && Reduced(total, k) <= 21 ==> Reduced(total, k) <= Demote(total, aces)
    ensures Demote(total, aces) > 21 ==> forall k :: 0 <= k <= aces ==> Demote(total, aces) <= Reduced(total, k)
  {
    DemoteIsLeast(total, aces);
  }

  /** `getScore` yields a total reachable by counting some of the aces as 1. */
  lemma ScoreIsReachable(hand: seq<Card>)
    ensures exists k :: 0 <= k <= AceCount(hand) && Score(hand) == Total(hand, k)
  {
    if |hand| == 0 {
      assert Score(hand) == Total(hand, 0);
    } else {
      DemoteIsLeast(Sum(hand), AceCount(hand));
      assert Score(hand) == Total(hand, Demotions(Sum(hand), AceCount(hand)));
    }
  }

  /**
    No total reachable by counting aces as 1 beats the score without busting,
    and when the score busts every reachable total busts by at least as much.
   */
  lemma ScoreIsBest(hand: seq<Card>)
    ensures forall k :: 0 <= k <= AceCount(hand) && Total(hand, k) <= 21 ==> Total(hand, k) <= Score(hand)
    ensures Score(hand) > 21 ==> forall k :: 0 <= k <= AceCount(hand) ==> Score(hand) <= Total(hand, k)
  {
    if |hand| > 0 {
      DemoteIsBest(Sum(hand), AceCount(hand));
    }
  }

  /**
    `getScore` yields a total reachable by counting some of the aces as 1: the
    largest such total that is at most 21, or, when every choice busts, the
    smallest (all aces counted as 1).
   */
  lemma ScoreIsBestTotal(hand: seq<Card>)
    ensures exists k :: 0 <= k <= AceCount(hand) && Score(hand) == Total(hand, k)
    ensures forall k :: 0 <= k <= AceCount(hand) && Total(hand, k) <= 21 ==> Total(hand, k) <= Score(hand)
    ensures Score(hand) > 21 ==> forall k :: 0 <= k <= AceCount(hand) ==> Score(hand) <= Total(hand, k)
  {
    ScoreIsReachable(hand);
    ScoreIsBest(hand);
  }

  lemma PairTotals(hand: seq<Card>)
    requires |hand| == 2
    ensures Sum(hand) == Value(hand[0]) + Value(hand[1])
    ensures AceCount(hand) == (if hand[0].rank == Ace then 1 else 0) + (if hand[1].rank == Ace then 1 else 0)
  {
    var one := hand[..1];
    assert one[..0] == [];
    assert Sum(one) == Value(hand[0]);
    assert AceCount(one) == (if hand[0].rank == Ace then 1 else 0);
  }

  /** A total never exceeds 21 on two cards: two aces score 12. */
  lemma TwoCardsNeverBust(hand: seq<Card>)
    requires |hand| == 2
    ensures Score(hand) <= 21
    ensures hand[0].rank == Ace && hand[1].rank == Ace ==> Score(hand) == 12
  {
    var a, b := hand[0], hand[1];
    PairTotals(hand);
    if a.rank == Ace && b.rank == Ace {
      assert Sum(hand) == 22 && AceCount(hand) == 2;
    } else {
      assert Sum(hand) <= 21;
    }
  }

  lemma ScoreExamples(ace: Card, king: Card, otherAce: Card, nine: Card)
    requires ace.rank == Ace && otherAce.rank == Ace && king.rank == King && nine.rank == Pip(9)
    ensures Score([]) == 0
    ensures Score([ace, king]) == 21
    ensures Score([ace, otherAce, nine]) == 21
  {
    PairTotals([ace, king]);
    PairTotals([ace, otherAce]);
    assert [ace, otherAce, nine][..2] == [ace, otherAce];
    assert Sum([ace, otherAce, nine]) == 31 && AceCount([ace, otherAce, nine]) == 2;
  }

  /** `getScore` as the source computes it: a summing loop, then the demotion loop. */
  method GetScore(hand: seq<Card>) returns (score: int)
    ensures score == Score(hand)
  {
    score := 0;
    var aceCount := 0;
    if |hand| == 0 {
      return 0;
    }
    var i := 0;
    while i < |hand|
      invariant 0 <= i <= |hand|
      invariant score == Sum(hand[..i]) && aceCount == AceCount(hand[..i])
    {
      assert hand[..i + 1][..i] == hand[..i];
      score := score + Value(hand[i]);
      if hand[i].rank == Ace {
        aceCount := aceCount + 1;
      }
      i := i + 1;
    }
    assert hand[..i] == hand;
    while score > 21 && aceCount > 0
      invariant aceCount >= 0
      invariant Demote(score, aceCount) == Demote(Sum(hand), AceCount(hand))
    {
      score := score - 10;
      aceCount := aceCount - 1;
    }
  }
}
