/** The per-card updates the game applies to the whole board, and the number of
    matched cards (src/components/MemoryGame.tsx, lines 83-89, 96-102 and 120-124).
    Each update walks every card and rewrites those whose id is named. */
module Board {
  import opened Deck

  /** Turns face up the card whose id is `id`. */
  function FlipUp(cards: seq<Card>, id: int): (r: seq<Card>)
    ensures |r| == |cards|
    ensures forall i :: 0 <= i < |r| ==>
              r[i].id == cards[i].id && r[i].emoji == cards[i].emoji && r[i].isMatched == cards[i].isMatched
  {
    seq(|cards|, i requires 0 <= i < |cards| =>
      if cards[i].id == id then cards[i].(isFlipped := true) else cards[i])
  }

  /** Marks the two cards with ids `first` and `second` as matched and turns them face down. */
  function MarkMatched(cards: seq<Card>, first: int, second: int): (r: seq<Card>)
    ensures |r| == |cards|
    ensures forall i :: 0 <= i < |r| ==> r[i].id == cards[i].id && r[i].emoji == cards[i].emoji
  {
    seq(|cards|, i requires 0 <= i < |cards| =>
      if cards[i].id == first || cards[i].id == second
      then cards[i].(isMatched := true, isFlipped := false)
      else cards[i])
  }

  /** Turns the two cards with ids `first` and `second` face down again. */
  function TurnDown(cards: seq<Card>, first: int, second: int): (r: seq<Card>)
    ensures |r| == |cards|
    ensures forall i :: 0 <= i < |r| ==>
              r[i].id == cards[i].id && r[i].emoji == cards[i].emoji && r[i].isMatched == cards[i].isMatched
  {
    seq(|cards|, i requires 0 <= i < |cards| =>
      if cards[i].id == first || cards[i].id == second
      then cards[i].(isFlipped := false)
      else cards[i])
  }

  /** On a board numbered by position, flipping a card changes that card's
      `isFlipped` and nothing else. */
  lemma FlipUpChangesOnlyThatCard(cards: seq<Card>, id: int)
    requires IdsAreIndices(cards) && 0 <= id < |cards|
    ensures FlipUp(cards, id) == cards[id := cards[id].(isFlipped := true)]
  {
  }

  /** On a board numbered by position, a match changes the two named cards and nothing else. */
  lemma MarkMatchedChangesOnlyPair(cards: seq<Card>, first: int, second: int)
    requires IdsAreIndices(cards) && 0 <= first < |cards| && 0 <= second < |cards|
    ensures MarkMatched(cards, first, second)
         == cards[first := cards[first].(isMatched := true, isFlipped := false)]
                 [second := cards[second].(isMatched := true, isFlipped := false)]
  {
  }

  /** On a board numbered by position, a miss changes the two named cards and nothing else. */
  lemma TurnDownChangesOnlyPair(cards: seq<Card>, first: int, second: int)
    requires IdsAreIndices(cards) && 0 <= first < |cards| && 0 <= second < |cards|
    ensures TurnDown(cards, first, second)
         == cards[first := cards[first].(isFlipped := false)][second := cards[second].(isFlipped := false)]
  {
  }

  /** The number of matched cards on the board. */
  function CountMatched(cards: seq<Card>): (n: nat)
    ensures n <= |cards|
  {
    if cards == [] then 0
    else (if cards[0].isMatched then 1 else 0) + CountMatched(cards[1..])
  }

  /** Changing one card changes the count only by that card's own contribution. */
  lemma {:induction false} CountMatchedUpdate(cards: seq<Card>, i: nat, c: Card)
    requires i < |cards|
    ensures CountMatched(cards[i := c])
         == CountMatched(cards) - (if cards[i].isMatched then 1 else 0) + (if c.isMatched then 1 else 0)
  {
    if i == 0 {
      assert cards[i := c][1..] == cards[1..];
    } else {
      assert cards[i := c][1..] == cards[1..][i - 1 := c];
      CountMatchedUpdate(cards[1..], i - 1, c);
    }
  }

  /** The count depends only on which positions are matched. */
  lemma {:induction false} CountMatchedSameFlags(s: seq<Card>, t: seq<Card>)
    requires |s| == |t|
    requires forall i :: 0 <= i < |s| ==> s[i].isMatched == t[i].isMatched
    ensures CountMatched(s) == CountMatched(t)
  {
    if s != [] {
      CountMatchedSameFlags(s[1..], t[1..]);
    }
  }

  /** A board without a matched card counts zero. */
  lemma {:induction false} NoneMatchedCountsZero(cards: seq<Card>)
    requires forall i :: 0 <= i < |cards| ==> !cards[i].isMatched
    ensures CountMatched(cards) == 0
  {
    if cards != [] {
      NoneMatchedCountsZero(cards[1..]);
    }
  }

  /** A board on which some card is not matched counts fewer matched cards than it has cards. */
  lemma UnmatchedCardLowersCount(cards: seq<Card>, i: int)
    requires 0 <= i < |cards| && !cards[i].isMatched
    ensures CountMatched(cards) < |cards|
  {
    CountMatchedUpdate(cards, i, cards[i].(isMatched := true));
  }

  /** A board on which every card counts as matched has every card matched. */
  lemma {:induction false} FullCountAllMatched(cards: seq<Card>)
    requires CountMatched(cards) == |cards|
    ensures forall i :: 0 <= i < |cards| ==> cards[i].isMatched
  {
    if cards != [] {
      FullCountAllMatched(cards[1..]);
      forall i | 0 <= i < |cards| ensures cards[i].isMatched {
        if i > 0 {
          assert cards[i] == cards[1..][i - 1];
        }
      }
    }
  }

  /** Matching two distinct unmatched cards adds exactly two to the count;
      flipping a card or turning a pair down leaves the count alone. */
  lemma CountAfterUpdates(cards: seq<Card>, first: int, second: int)
    requires IdsAreIndices(cards) && 0 <= first < |cards| && 0 <= second < |cards|
    requires first != second && !cards[first].isMatched && !cards[second].isMatched
    ensures CountMatched(MarkMatched(cards, first, second)) == CountMatched(cards) + 2
    ensures CountMatched(TurnDown(cards, first, second)) == CountMatched(cards)
    ensures CountMatched(FlipUp(cards, first)) == CountMatched(cards)
  {
    var once := cards[first := cards[first].(isMatched := true, isFlipped := false)];
    CountMatchedUpdate(cards, first, once[first]);
    CountMatchedUpdate(once, second, cards[second].(isMatched := true, isFlipped := false));
    MarkMatchedChangesOnlyPair(cards, first, second);
    CountMatchedSameFlags(TurnDown(cards, first, second), cards);
    CountMatchedSameFlags(FlipUp(cards, first), cards);
  }
}
