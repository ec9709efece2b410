/**
  The hand classifier, `GetHandType` (Program.cs lines 90-118): from five
  cards sorted by number it derives the size of the largest group of equal
  numbers, the number of distinct numbers, whether all suits agree, and the
  royal flush and straight tests, and picks the first hand of the chain that
  applies.

  `Classify` follows the source's tests one by one. `Reference` states the
  hands in the terms of the program's own help text (Program.cs lines 25-34),
  on the multiset of numbers and the set of suits alone, and
  `ClassifyIsReference` proves the two agree on every sorted hand. Where the
  help text and the code part, `Reference` follows the code on two points:
  ace to five does not count as continuous (`IsRun` leaves out runs from 1),
  and four of a kind means exactly four cards of one number, so five cards of
  one number are no four of a kind (`HasGroup(m, 4)`).
 */
module Classifier {
  import opened Cards
  import opened Sequences

  datatype HandType =
    | RoyalFlush | StraightFlush | FourOfAKind | FullHouse | Flush
    | Straight | ThreeOfAKind | TwoPair | OnePair | Nothing

  /** The line the program prints for each hand (Program.cs lines 99-117):
      the hand's rank, then the rule that defines it. Every line starts with
      its rank. */
  function Label(t: HandType): (r: string)
    ensures |Rank(t)| <= |r| && r[..|Rank(t)|] == Rank(t)
    ensures r[0] == Rank(t)[0] && r[1] == Rank(t)[1]
  {
    RankShape(t, t);
    StartsWith(Rank(t), Rule(t));
    Rank(t) + Rule(t)
  }

  lemma StartsWith(a: string, b: string)
    requires |a| >= 2
    ensures |a| <= |a + b| && (a + b)[..|a|] == a
    ensures (a + b)[0] == a[0] && (a + b)[1] == a[1]
  {
  }

  function Rank(t: HandType): string {
    match t
    case RoyalFlush => "1. "
    case StraightFlush => "2. "
    case FourOfAKind => "3. "
    case FullHouse => "4. "
    case Flush => "5. "
    case Straight => "6. "
    case ThreeOfAKind => "7. "
    case TwoPair => "8. "
    case OnePair => "9. "
    case Nothing => "10. "
  }

  // The texts are written as concatenations of short pieces because the
  // verifier handles long string literals slowly; the constants below are
  // the phrases several rules share.
  const SameSuit := "All cards are " + "of the same suit."
  const Continuous := "Numbers of the five " + "cards must be continuous"
  const OfFive := " out of five cards " + "must have the same number"
  const PairMeans := " where a pair means " + "two cards which have " + "the same number."

  function Rule(t: HandType): string {
    match t
    case RoyalFlush =>
      "Royal Flush: " + SameSuit + " Number must be " + "10, J, Q, K, and A " + "correspondingly."
    case StraightFlush => "Straight Flush: " + SameSuit + " " + Continuous + "."
    case FourOfAKind => "Four-of-a-Kind: Four" + OfFive + "."
    case FullHouse =>
      "Full House: Three" + OfFive + " and the remaining " + "two must have the " + "same number " + "accordingly."
    case Flush => "Flush: " + SameSuit
    case Straight => "Straight: " + Continuous + " and not all cards " + "are of the same suit."
    case ThreeOfAKind => "Three-of-a-Kind: " + "Three" + OfFive + "."
    case TwoPair => "Two Pair: There must " + "be two pairs" + PairMeans
    case OnePair => "One Pair: There must " + "be a pair" + PairMeans
    case Nothing => "Nothing: the cards " + "don't match any of " + "the hands above"
  }

  /** The ranks are "1. " to "10. ": each starts with a digit, and the first
      two characters tell them apart. */
  lemma RankShape(s: HandType, t: HandType)
    ensures |Rank(s)| >= 3 && '1' <= Rank(s)[0] <= '9'
    ensures Rank(s)[0] == Rank(t)[0] && Rank(s)[1] == Rank(t)[1] ==> s == t
  {
  }

  /** Every line starts with a digit. */
  lemma LabelStartsWithDigit(t: HandType)
    ensures '1' <= Label(t)[0] <= '9'
  {
    RankShape(t, t);
  }

  /** Different hands print different lines. */
  lemma LabelInjective(s: HandType, t: HandType)
    requires Label(s) == Label(t)
    ensures s == t
  {
    RankShape(s, t);
  }

  // ---------------------------------------------------------------------
  // The quantities of lines 92-94
  // ---------------------------------------------------------------------

  function NumberOf(c: Card): int {
    c.number
  }

  /** `Select(c => c.Number)`: the numbers, in hand order. */
  function Numbers(hand: seq<Card>): (r: seq<int>)
    ensures |r| == |hand| && forall i :: 0 <= i < |hand| ==> r[i] == hand[i].number
  {
    MapSeq(NumberOf, hand)
  }

  /** The size of the group of number `v` in `GroupBy(c => c.Number)`. */
  function GroupSize(ns: seq<int>, v: int): nat {
    multiset(ns)[v]
  }

  /** `Max(d => d.Count())` over the groups: the size of a largest group. */
  function MaxGroup(ns: seq<int>): (m: nat)
    requires ns != []
    ensures forall v :: GroupSize(ns, v) <= m
    ensures exists i :: 0 <= i < |ns| && GroupSize(ns, ns[i]) == m
  {
    var m := MaxOver(ns, ns);
    assert forall v :: GroupSize(ns, v) <= m by {
      forall v ensures GroupSize(ns, v) <= m {
        if v in ns {
          var i :| 0 <= i < |ns| && ns[i] == v;
        }
      }
    }
    m
  }

  /** The largest group among those of the numbers in `keys`. */
  function MaxOver(ns: seq<int>, keys: seq<int>): (m: nat)
    requires keys != []
    ensures forall i :: 0 <= i < |keys| ==> GroupSize(ns, keys[i]) <= m
    ensures exists i :: 0 <= i < |keys| && GroupSize(ns, keys[i]) == m
  {
    if |keys| == 1 then GroupSize(ns, keys[0])
    else
      var rest := MaxOver(ns, keys[1..]);
      assert forall i :: 1 <= i < |keys| ==> keys[i] == keys[1..][i - 1];
      if GroupSize(ns, keys[0]) >= rest then GroupSize(ns, keys[0]) else rest
  }

  /** `Distinct().Count()` of the numbers. */
  function DistinctCount(ns: seq<int>): nat {
    |set v | v in ns|
  }

  /** The suits that occur in the hand. */
  function SuitsOf(hand: seq<Card>): set<Suit> {
    set c | c in hand :: c.suit
  }

  /** Line 94: all cards have one suit. */
  predicate IsFlush(hand: seq<Card>) {
    |SuitsOf(hand)| == 1
  }

  /** Line 94 as a test on the cards: the suits agree exactly when every
      card has the first card's suit. */
  lemma FlushIff(hand: seq<Card>)
    requires hand != []
    ensures IsFlush(hand) <==> forall i :: 0 <= i < |hand| ==> hand[i].suit == hand[0].suit
  {
    var suits := SuitsOf(hand);
    assert hand[0].suit in suits;
    if forall i :: 0 <= i < |hand| ==> hand[i].suit == hand[0].suit {
      assert suits == {hand[0].suit};
    }
    if IsFlush(hand) {
      forall i | 0 <= i < |hand| ensures hand[i].suit == hand[0].suit {
        assert hand[i].suit in suits;
        OnlyElement(suits, hand[i].suit, hand[0].suit);
      }
    }
  }

  lemma OnlyElement<T>(s: set<T>, x: T, y: T)
    requires |s| == 1 && x in s && y in s
    ensures x == y
  {
    assert |s - {x}| == 0;
    assert y in s - {x} || y == x;
  }

  /** Line 95, with C#'s precedence: `(flush && count == 5 && first is 1) ?
      (second is 10 && last is 13) : false`. */
  predicate IsRoyalFlush(hand: seq<Card>)
    requires |hand| == 5
  {
    if IsFlush(hand) && DistinctCount(Numbers(hand)) == 5 && hand[0].number == 1
    then hand[1].number == 10 && hand[4].number == 13
    else false
  }

  /** Line 96, with C#'s precedence: when the hand is no royal flush and its
      five numbers differ, an ace first must be followed by 10 and end in 13;
      otherwise last minus first must be 4. */
  predicate IsStraight(hand: seq<Card>)
    requires |hand| == 5
  {
    if !IsRoyalFlush(hand) && DistinctCount(Numbers(hand)) == 5 then
      if hand[0].number == 1 then hand[1].number == 10 && hand[4].number == 13
      else hand[4].number - hand[0].number == 4
    else false
  }

  /** Lines 92-96 on the hand, then the chain of lines 98-117. */
  function Classify(hand: seq<Card>): HandType
    requires |hand| == 5
  {
    Chain(IsRoyalFlush(hand), IsFlush(hand), IsStraight(hand),
          MaxGroup(Numbers(hand)), DistinctCount(Numbers(hand)))
  }

  /** The chain of lines 98-117: the first test that holds decides. */
  function Chain(royal: bool, flush: bool, straight: bool, max: nat, count: nat): HandType {
    if royal then RoyalFlush
    else if flush && straight then StraightFlush
    else if max == 4 then FourOfAKind
    else if max == 3 && count == 2 then FullHouse
    else if flush then Flush
    else if straight then Straight
    else if max == 3 && count == 3 then ThreeOfAKind
    else if count == 3 then TwoPair
    else if count == 4 then OnePair
    else Nothing
  }

  /** GetHandType: the line for the hand's classification. It starts with a
      digit, and on a hand sorted by number, as the parser delivers it, it
      is the line of the hand the rules give its numbers and suits. */
  function GetHandType(hand: seq<Card>): (r: string)
    requires |hand| == 5
    ensures |r| >= 3 && '1' <= r[0] <= '9'
    ensures SortedByNumber(hand) ==> r == Label(ReferenceOf(hand))
  {
    RankShape(Classify(hand), Classify(hand));
    LabelStartsWithDigit(Classify(hand));
    assert SortedByNumber(hand) ==> Classify(hand) == ReferenceOf(hand) by {
      if SortedByNumber(hand) {
        ClassifyIsReference(hand);
      }
    }
    Label(Classify(hand))
  }

  // ---------------------------------------------------------------------
  // The hands as the rules describe them
  // ---------------------------------------------------------------------

  /** 10, J, Q, K and A, the ace counted as 1. */
  const AceHigh: seq<int> := [1, 10, 11, 12, 13]

  /** Five consecutive numbers from `lo`. */
  function RunFrom(lo: int): seq<int> {
    [lo, lo + 1, lo + 2, lo + 3, lo + 4]
  }

  /** Some number occurs exactly `k` times. */
  ghost predicate HasGroup(m: multiset<int>, k: nat) {
    exists v :: m[v] == k
  }

  /** Two different numbers occur exactly twice each. */
  ghost predicate HasTwoPairs(m: multiset<int>) {
    exists v, w :: v != w && m[v] == 2 && m[w] == 2
  }

  /** Continuous numbers: 10 to ace, or five consecutive numbers that do not
      start at the ace (the program does not count the ace as low). */
  ghost predicate IsRun(m: multiset<int>) {
    m == multiset(AceHigh) || exists lo :: lo != 1 && m == multiset(RunFrom(lo))
  }

  /** The hand a multiset of numbers and a set of suits make. */
  ghost function Reference(m: multiset<int>, suits: set<Suit>): HandType {
    var flush := |suits| == 1;
    if flush && m == multiset(AceHigh) then RoyalFlush
    else if flush && IsRun(m) then StraightFlush
    else if HasGroup(m, 4) then FourOfAKind
    else if HasGroup(m, 3) && HasGroup(m, 2) then FullHouse
    else if flush then Flush
    else if IsRun(m) then Straight
    else if HasGroup(m, 3) then ThreeOfAKind
    else if HasTwoPairs(m) then TwoPair
    else if HasGroup(m, 2) then OnePair
    else Nothing
  }

  ghost function ReferenceOf(hand: seq<Card>): HandType {
    Reference(multiset(Numbers(hand)), SuitsOf(hand))
  }

  // ---------------------------------------------------------------------
  // Five numbers in ascending order: what the largest group and the
  // number of distinct numbers say about the groups
  // ---------------------------------------------------------------------

  lemma FiveFacts(ns: seq<int>)
    requires |ns| == 5
    ensures multiset(ns) == multiset{ns[0], ns[1], ns[2], ns[3], ns[4]}
    ensures (set v | v in ns) == {ns[0], ns[1], ns[2], ns[3], ns[4]}
  {
    assert ns == [ns[0], ns[1], ns[2], ns[3], ns[4]];
  }

  /** The largest group has four cards exactly when some number occurs four times. */
  lemma FourGroup(a: int, b: int, c: int, d: int, e: int, mx: nat)
    requires a <= b <= c <= d <= e
    requires forall v :: multiset{a, b, c, d, e}[v] <= mx
    requires mx in {multiset{a, b, c, d, e}[a], multiset{a, b, c, d, e}[b], multiset{a, b, c, d, e}[c], multiset{a, b, c, d, e}[d], multiset{a, b, c, d, e}[e]}
    ensures mx == 4 <==> HasGroup(multiset{a, b, c, d, e}, 4)
  {
  }

  /** The largest group has three cards exactly when some number occurs three times. */
  lemma ThreeGroup(a: int, b: int, c: int, d: int, e: int, mx: nat)
    requires a <= b <= c <= d <= e
    requires forall v :: multiset{a, b, c, d, e}[v] <= mx
    requires mx in {multiset{a, b, c, d, e}[a], multiset{a, b, c, d, e}[b], multiset{a, b, c, d, e}[c], multiset{a, b, c, d, e}[d], multiset{a, b, c, d, e}[e]}
    ensures mx == 3 <==> HasGroup(multiset{a, b, c, d, e}, 3)
  {
  }

  /** Beside a group of three, the other two cards form a pair exactly when there are two numbers in all. */
  lemma ThreeAndTwo(a: int, b: int, c: int, d: int, e: int, mx: nat)
    requires a <= b <= c <= d <= e
    requires forall v :: multiset{a, b, c, d, e}[v] <= mx
    requires mx in {multiset{a, b, c, d, e}[a], multiset{a, b, c, d, e}[b], multiset{a, b, c, d, e}[c], multiset{a, b, c, d, e}[d], multiset{a, b, c, d, e}[e]}
    ensures mx == 3 ==> (|{a, b, c, d, e}| == 2 <==> HasGroup(multiset{a, b, c, d, e}, 2)) && |{a, b, c, d, e}| in {2, 3}
  {
  }

  /** Without a group of three or four, three numbers in all means two pairs. */
  lemma TwoPairsCount(a: int, b: int, c: int, d: int, e: int, mx: nat)
    requires a <= b <= c <= d <= e
    requires forall v :: multiset{a, b, c, d, e}[v] <= mx
    requires mx in {multiset{a, b, c, d, e}[a], multiset{a, b, c, d, e}[b], multiset{a, b, c, d, e}[c], multiset{a, b, c, d, e}[d], multiset{a, b, c, d, e}[e]}
    ensures mx != 3 && mx != 4 ==> (|{a, b, c, d, e}| == 3 <==> HasTwoPairs(multiset{a, b, c, d, e}))
  {
  }

  /** Without a group of three or four and without two pairs, four numbers in all means a pair. */
  lemma OnePairCount(a: int, b: int, c: int, d: int, e: int, mx: nat)
    requires a <= b <= c <= d <= e
    requires forall v :: multiset{a, b, c, d, e}[v] <= mx
    requires mx in {multiset{a, b, c, d, e}[a], multiset{a, b, c, d, e}[b], multiset{a, b, c, d, e}[c], multiset{a, b, c, d, e}[d], multiset{a, b, c, d, e}[e]}
    ensures mx != 3 && mx != 4 && !HasTwoPairs(multiset{a, b, c, d, e}) ==> (|{a, b, c, d, e}| == 4 <==> HasGroup(multiset{a, b, c, d, e}, 2))
  {
  }

  /** The quantities of lines 92-93 on five ascending numbers, read as the
      groups the rules of Program.cs lines 27-33 name. */
  lemma GroupProfile(ns: seq<int>)
    requires |ns| == 5 && Ascending(ns)
    ensures MaxGroup(ns) == 4 <==> HasGroup(multiset(ns), 4)
    ensures MaxGroup(ns) == 3 <==> HasGroup(multiset(ns), 3)
    ensures MaxGroup(ns) == 3 ==>
              (DistinctCount(ns) == 2 <==> HasGroup(multiset(ns), 2)) && DistinctCount(ns) in {2, 3}
    ensures MaxGroup(ns) != 3 && MaxGroup(ns) != 4 ==> (DistinctCount(ns) == 3 <==> HasTwoPairs(multiset(ns)))
    ensures MaxGroup(ns) != 3 && MaxGroup(ns) != 4 && !HasTwoPairs(multiset(ns)) ==>
              (DistinctCount(ns) == 4 <==> HasGroup(multiset(ns), 2))
  {
    FiveFacts(ns);
    var mx := MaxGroup(ns);
    var i :| 0 <= i < |ns| && GroupSize(ns, ns[i]) == mx;
    assert forall v :: multiset(ns)[v] == GroupSize(ns, v);
    var a, b, c, d, e := ns[0], ns[1], ns[2], ns[3], ns[4];
    FourGroup(a, b, c, d, e, mx);
    ThreeGroup(a, b, c, d, e, mx);
    ThreeAndTwo(a, b, c, d, e, mx);
    TwoPairsCount(a, b, c, d, e, mx);
    OnePairCount(a, b, c, d, e, mx);
  }

  /** Five numbers in ascending order are all different exactly when they
      rise strictly. */
  lemma StrictIff(ns: seq<int>)
    requires |ns| == 5 && Ascending(ns)
    ensures DistinctCount(ns) == 5 <==> ns[0] < ns[1] < ns[2] < ns[3] < ns[4]
  {
    FiveFacts(ns);
  }

  /** Line 95's test on five ascending numbers: they are 10 to ace. */
  lemma AceHighOfSorted(ns: seq<int>)
    requires |ns| == 5 && Ascending(ns)
    ensures DistinctCount(ns) == 5 && ns[0] == 1 && ns[1] == 10 && ns[4] == 13 <==>
            multiset(ns) == multiset(AceHigh)
  {
    if multiset(ns) == multiset(AceHigh) {
      AscendingUnique(ns, AceHigh);
      StrictIff(ns);
    }
    if DistinctCount(ns) == 5 && ns[0] == 1 && ns[1] == 10 && ns[4] == 13 {
      AceHighSorted(ns);
    }
  }

  lemma AceHighSorted(ns: seq<int>)
    requires |ns| == 5 && Ascending(ns) && DistinctCount(ns) == 5
    requires ns[0] == 1 && ns[1] == 10 && ns[4] == 13
    ensures ns == AceHigh
  {
    StrictIff(ns);
  }

  /** Line 96's other test on five ascending numbers: they are consecutive
      and do not start at the ace. */
  lemma RunOfSorted(ns: seq<int>)
    requires |ns| == 5 && Ascending(ns)
    ensures DistinctCount(ns) == 5 && ns[0] != 1 && ns[4] - ns[0] == 4 <==>
            exists lo :: lo != 1 && multiset(ns) == multiset(RunFrom(lo))
  {
    if exists lo :: lo != 1 && multiset(ns) == multiset(RunFrom(lo)) {
      var lo :| lo != 1 && multiset(ns) == multiset(RunFrom(lo));
      SortedRun(ns, lo);
    }
    if DistinctCount(ns) == 5 && ns[0] != 1 && ns[4] - ns[0] == 4 {
      RunSorted(ns);
    }
  }

  lemma SortedRun(ns: seq<int>, lo: int)
    requires |ns| == 5 && Ascending(ns) && multiset(ns) == multiset(RunFrom(lo))
    ensures DistinctCount(ns) == 5 && ns[0] == lo && ns[4] - ns[0] == 4
  {
    AscendingUnique(ns, RunFrom(lo));
    StrictIff(ns);
  }

  lemma RunSorted(ns: seq<int>)
    requires |ns| == 5 && Ascending(ns) && DistinctCount(ns) == 5 && ns[4] - ns[0] == 4
    ensures multiset(ns) == multiset(RunFrom(ns[0]))
  {
    StrictIff(ns);
    assert ns == RunFrom(ns[0]);
  }

  /** Line 95: a royal flush is a flush of 10, J, Q, K and ace. */
  lemma RoyalFlushIff(hand: seq<Card>)
    requires |hand| == 5 && SortedByNumber(hand)
    ensures IsRoyalFlush(hand) <==> IsFlush(hand) && multiset(Numbers(hand)) == multiset(AceHigh)
  {
    AceHighOfSorted(Numbers(hand));
  }

  /** Line 96: short of a royal flush, a hand is straight exactly when its
      numbers are continuous. */
  lemma StraightIff(hand: seq<Card>)
    requires |hand| == 5 && SortedByNumber(hand) && !IsRoyalFlush(hand)
    ensures IsStraight(hand) <==> IsRun(multiset(Numbers(hand)))
  {
    var ns := Numbers(hand);
    assert IsStraight(hand) <==>
           DistinctCount(ns) == 5 && if ns[0] == 1 then ns[1] == 10 && ns[4] == 13 else ns[4] - ns[0] == 4;
    AceHighOfSorted(ns);
    RunOfSorted(ns);
  }

  /** The chain of lines 98-117 picks the hand the rules describe: on every
      hand of five cards sorted by number, the classification depends on
      the multiset of numbers and the set of suits as `Reference` says. */
  lemma ClassifyIsReference(hand: seq<Card>)
    requires |hand| == 5 && SortedByNumber(hand)
    ensures Classify(hand) == ReferenceOf(hand)
  {
    var ns := Numbers(hand);
    RoyalFlushIff(hand);
    if !IsRoyalFlush(hand) {
      StraightIff(hand);
    }
    GroupProfile(ns);
  }

  // ---------------------------------------------------------------------
  // Consequences
  // ---------------------------------------------------------------------

  /** The rules look at the cards, not at their order. */
  lemma ReferenceOrderFree(a: seq<Card>, b: seq<Card>)
    requires multiset(a) == multiset(b)
    ensures ReferenceOf(a) == ReferenceOf(b)
  {
    MapPermutes(NumberOf, a, b);
    forall c | c in a ensures c in b {
      assert c in multiset(a);
    }
    forall c | c in b ensures c in a {
      assert c in multiset(b);
    }
    assert SuitsOf(a) == SuitsOf(b);
  }

  /** A sorted hand is classified a royal flush exactly when its suits agree
      and its numbers are 10, J, Q, K and ace. */
  lemma RoyalFlushExactly(hand: seq<Card>)
    requires |hand| == 5 && SortedByNumber(hand)
    ensures Classify(hand) == RoyalFlush <==> IsFlush(hand) && multiset(Numbers(hand)) == multiset(AceHigh)
  {
    ClassifyIsReference(hand);
    ReferenceRoyal(multiset(Numbers(hand)), SuitsOf(hand));
  }

  lemma ReferenceRoyal(m: multiset<int>, suits: set<Suit>)
    ensures Reference(m, suits) == RoyalFlush <==> |suits| == 1 && m == multiset(AceHigh)
  {
  }

  /** Two arrangements of the same five cards, each sorted by number, are
      classified alike, even where equal numbers put the suits in a
      different order. */
  lemma ClassifyOrderFree(a: seq<Card>, b: seq<Card>)
    requires |a| == 5 && |b| == 5 && SortedByNumber(a) && SortedByNumber(b)
    requires multiset(a) == multiset(b)
    ensures Classify(a) == Classify(b)
  {
    ClassifyIsReference(a);
    ClassifyIsReference(b);
    ReferenceOrderFree(a, b);
  }

  /** Five numbers that rise strictly: five distinct numbers, no group
      larger than one card. */
  lemma AllDifferent(ns: seq<int>)
    requires |ns| == 5 && ns[0] < ns[1] < ns[2] < ns[3] < ns[4]
    ensures DistinctCount(ns) == 5 && MaxGroup(ns) == 1
  {
    StrictIff(ns);
    SingleCards(ns);
  }

  lemma SingleCards(ns: seq<int>)
    requires |ns| == 5 && ns[0] < ns[1] < ns[2] < ns[3] < ns[4]
    ensures forall i :: 0 <= i < 5 ==> GroupSize(ns, ns[i]) == 1
  {
    FiveFacts(ns);
  }

  /** Five equal numbers: one distinct number, a group of five cards. */
  lemma AllEqual(ns: seq<int>)
    requires |ns| == 5 && ns[0] == ns[1] == ns[2] == ns[3] == ns[4]
    ensures DistinctCount(ns) == 1 && MaxGroup(ns) == 5
  {
    FiveFacts(ns);
    var i :| 0 <= i < |ns| && GroupSize(ns, ns[i]) == MaxGroup(ns);
  }

  /** The ace does not count as low: ace to five is no straight, only a
      flush when the suits agree and otherwise nothing. */
  lemma AceToFiveIsNoStraight(hand: seq<Card>)
    requires |hand| == 5 && Numbers(hand) == [1, 2, 3, 4, 5]
    ensures Classify(hand) == if IsFlush(hand) then Flush else Nothing
  {
    AllDifferent(Numbers(hand));
    assert hand[0].number == 1 && hand[1].number == 2;
    NoPattern(hand);
  }

  /** Five different numbers that make no straight: the suits decide
      between a flush and nothing. */
  lemma NoPattern(hand: seq<Card>)
    requires |hand| == 5 && DistinctCount(Numbers(hand)) == 5 && MaxGroup(Numbers(hand)) == 1
    requires !IsStraight(hand) && !IsRoyalFlush(hand)
    ensures Classify(hand) == if IsFlush(hand) then Flush else Nothing
  {
  }

  /** 10 to ace is a royal flush in one suit and a straight otherwise. */
  lemma TenToAce(hand: seq<Card>)
    requires |hand| == 5 && Numbers(hand) == [1, 10, 11, 12, 13]
    ensures Classify(hand) == if IsFlush(hand) then RoyalFlush else Straight
  {
    AllDifferent(Numbers(hand));
  }

  /** A number 0 is accepted and makes 0 to 4 a straight. */
  lemma ZeroToFourIsStraight(hand: seq<Card>)
    requires |hand| == 5 && Numbers(hand) == [0, 1, 2, 3, 4]
    ensures Classify(hand) == if IsFlush(hand) then StraightFlush else Straight
  {
    AllDifferent(Numbers(hand));
  }

  /** Five cards of one number (the parser lets "S5" and "S05" through as
      different tokens) make no four of a kind: the largest group has five
      cards, and the hand is a flush or nothing. */
  lemma FiveOfANumber(hand: seq<Card>, n: int)
    requires |hand| == 5 && Numbers(hand) == [n, n, n, n, n]
    ensures Classify(hand) == if IsFlush(hand) then Flush else Nothing
  {
    AllEqual(Numbers(hand));
  }
}
