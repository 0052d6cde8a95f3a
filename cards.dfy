/**
  Cards, their point values, the ordered 52-card deck that `createDeck` builds
  and the Fisher-Yates shuffle that `shuffleDeck` performs on it.
 */
module Cards {

  datatype Suit = Hearts | Diamonds | Clubs | Spades

  /** The numeral ranks "2" to "10". */
  type PipValue = n: int | 2 <= n <= 10 witness 2

  datatype Rank = Ace | Pip(n: PipValue) | Jack | Queen | King

  /** A card; its point value is always the value of its rank. */
  datatype Card = Card(suit: Suit, rank: Rank)

  /** `getCardValue`: the points a rank is worth before any ace is demoted. */
  function CardValue(r: Rank): (v: int)
    ensures 2 <= v <= 11
    ensures v == 11 <==> r == Ace
    ensures v == 10 <==> r in {Jack, Queen, King, Pip(10)}
  {
    match r
    case Ace => 11
    case Jack => 10
    case Queen => 10
    case King => 10
    case Pip(n) => n
  }

  function Value(c: Card): int {
    CardValue(c.rank)
  }

  /** The suits in the order `createDeck` walks them. */
  function SuitAt(i: int): Suit
    requires 0 <= i < 4
  {
    if i == 0 then Hearts else if i == 1 then Diamonds else if i == 2 then Clubs else Spades
  }

  /** The ranks in the order `createDeck` walks them: A, 2, ..., 10, J, Q, K. */
  function RankAt(i: int): Rank
    requires 0 <= i < 13
  {
    if i == 0 then Ace
    else if i <= 9 then Pip(i + 1)
    else if i == 10 then Jack
    else if i == 11 then Queen
    else King
  }

  function SuitIndex(s: Suit): (i: int)
    ensures 0 <= i < 4 && SuitAt(i) == s
  {
    match s
    case Hearts => 0
    case Diamonds => 1
    case Clubs => 2
    case Spades => 3
  }

  function RankIndex(r: Rank): (i: int)
    ensures 0 <= i < 13 && RankAt(i) == r
  {
    match r
    case Ace => 0
    case Pip(n) => n - 1
    case Jack => 10
    case Queen => 11
    case King => 12
  }

  /** The deck exactly as `createDeck` leaves it: suit by suit, rank by rank. */
  function FullDeck(): (d: seq<Card>)
    ensures |d| == 52
  {
    seq(52, k requires 0 <= k < 52 => Card(SuitAt(k / 13), RankAt(k % 13)))
  }

  lemma SuitAtInjective(i: int, j: int)
    requires 0 <= i < 4 && 0 <= j < 4 && SuitAt(i) == SuitAt(j)
    ensures i == j
  {
  }

  lemma RankAtInjective(i: int, j: int)
    requires 0 <= i < 13 && 0 <= j < 13 && RankAt(i) == RankAt(j)
    ensures i == j
  {
  }

  /** The fresh deck holds 52 cards, one for every (suit, rank) pair. */
  lemma FullDeckHasEveryCardOnce()
    ensures |FullDeck()| == 52
    ensures forall c: Card :: c in FullDeck()
    ensures forall i, j :: 0 <= i < j < 52 ==> FullDeck()[i] != FullDeck()[j]
  {
    var d := FullDeck();
    forall c: Card ensures c in d {
      var k := 13 * SuitIndex(c.suit) + RankIndex(c.rank);
      assert k / 13 == SuitIndex(c.suit) && k % 13 == RankIndex(c.rank);
      assert d[k] == c;
    }
    forall i, j | 0 <= i < 52 && 0 <= j < 52 && d[i] == d[j] ensures i == j {
      SuitAtInjective(i / 13, j / 13);
      RankAtInjective(i % 13, j % 13);
    }
  }

  // ----- Fisher-Yates shuffle -----

  /**
    The random indices the shuffle draws: `picks[i]` is the index, at most `i`,
    chosen when position `i` is settled (`picks[0]` is never read).
   */
  predicate ValidPicks(picks: seq<int>, n: int) {
    |picks| == n && forall i :: 0 < i < n ==> 0 <= picks[i] <= i
  }

  function Swap(s: seq<Card>, i: int, j: int): seq<Card>
    requires 0 <= i < |s| && 0 <= j < |s|
  {
    s[i := s[j]][j := s[i]]
  }

  /** The deck after the shuffle's iterations for positions i, i-1, ..., 1. */
  function ShuffleFrom(s: seq<Card>, picks: seq<int>, i: int): (r: seq<Card>)
    requires -1 <= i < |s| && ValidPicks(picks, |s|)
    ensures |r| == |s|
    decreases i + 1
  {
    if i <= 0 then s else ShuffleFrom(Swap(s, i, picks[i]), picks, i - 1)
  }

  /** `shuffleDeck` on deck `s` with random choices `picks`. */
  function Shuffled(s: seq<Card>, picks: seq<int>): (r: seq<Card>)
    requires ValidPicks(picks, |s|)
    ensures |r| == |s|
  {
    ShuffleFrom(s, picks, |s| - 1)
  }

  lemma SwapPermutes(s: seq<Card>, i: int, j: int)
    requires 0 <= i < |s| && 0 <= j < |s|
    ensures multiset(Swap(s, i, j)) == multiset(s)
  {
    var t := s[i := s[j]];
    assert multiset(t) == multiset(s) - multiset{s[i]} + multiset{s[j]};
    assert multiset(t[j := s[i]]) == multiset(t) - multiset{t[j]} + multiset{s[i]};
  }

  lemma {:induction false} ShuffleFromPermutes(s: seq<Card>, picks: seq<int>, i: int)
    requires -1 <= i < |s| && ValidPicks(picks, |s|)
    ensures multiset(ShuffleFrom(s, picks, i)) == multiset(s)
    decreases i + 1
  {
    if i > 0 {
      SwapPermutes(s, i, picks[i]);
      ShuffleFromPermutes(Swap(s, i, picks[i]), picks, i - 1);
    }
  }

  /** Whatever index each step picks, the shuffled deck is a permutation of the deck. */
  lemma ShuffledPermutes(s: seq<Card>, picks: seq<int>)
    requires ValidPicks(picks, |s|)
    ensures |Shuffled(s, picks)| == |s|
    ensures multiset(Shuffled(s, picks)) == multiset(s)
  {
    ShuffleFromPermutes(s, picks, |s| - 1);
  }
}
