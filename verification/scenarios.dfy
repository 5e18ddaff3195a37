/** Consequences of the game's contracts for whole rounds and for runs of
    player actions, proved from the contracts of `MemoryGame` alone. */
module Scenarios {
  import opened Deck
  import opened Board
  import opened Game

  /** Once the last pair is found, every card is matched, so every card button
      is disabled, nothing is selected and the clock has stopped. */
  lemma WonRoundIsAllMatched(g: MemoryGame)
    requires g.Coherent() && g.matches == Pairs(g.difficulty)
    ensures forall i :: 0 <= i < |g.cards| ==> g.cards[i].isMatched
    ensures g.flippedCards == [] && !g.isPlaying
  {
    if g.flippedCards != [] {
      UnmatchedCardLowersCount(g.cards, g.flippedCards[0]);
    }
    FullCountAllMatched(g.cards);
  }

  /** While the round is coherent, the match counter never exceeds the number of pairs. */
  lemma MatchesBounded(g: MemoryGame)
    requires g.Coherent()
    ensures g.matches <= Pairs(g.difficulty)
    ensures g.matches == Pairs(g.difficulty) <==> !g.isPlaying
  {
    assert CountMatched(g.cards) <= |g.cards|;
  }

  /** Pausing stops the clock, resuming starts it again. */
  method PauseStopsTheClock() returns (g: MemoryGame)
    ensures g.time == 3 && !g.isPaused && g.Coherent()
  {
    g := new MemoryGame();
    g.TogglePause();
    g.Tick(); g.Tick(); g.Tick();
    assert g.time == 0;
    g.TogglePause();
    g.Tick(); g.Tick(); g.Tick();
  }

  /** Clicking a selected card again changes nothing: no second move, no
      second entry in the selection. */
  method SecondClickOnSameCard() returns (g: MemoryGame)
    ensures |g.cards| == 12 && g.moves == 1 && g.flippedCards == [0] && g.cards[0].isFlipped && g.Coherent()
  {
    g := new MemoryGame();
    g.HandleCardClick(0);
    g.HandleCardClick(0);
  }

  /** Finds the position of the other card showing the same face as card `i`. */
  method PartnerOf(cards: seq<Card>, d: Difficulty, i: int) returns (j: int)
    requires IsShuffleOf(EmojisOf(cards), d) && 0 <= i < |cards|
    ensures 0 <= j < |cards| && j != i && cards[j].emoji == cards[i].emoji
  {
    CardHasPartner(cards, d, i);
    j :| 0 <= j < |cards| && j != i && cards[j].emoji == cards[i].emoji;
  }

  /** One move: two clicks on two different cards while nothing is selected
      turn both face up and schedule the pair's resolution. */
  method TurnUpTwo(g: MemoryGame, i: int, j: int)
    requires g.Valid() && g.flippedCards == [] && !g.isPaused
    requires 0 <= i < |g.cards| && 0 <= j < |g.cards| && i != j
    modifies g
    ensures g.cards == old(g.cards)[i := old(g.cards)[i].(isFlipped := true)][j := old(g.cards)[j].(isFlipped := true)]
    ensures g.flippedCards == [i, j] && g.moves == old(g.moves) + 1
    ensures g.pending == old(g.pending) + [Scheduled(g.cards, i, j)]
    ensures g.difficulty == old(g.difficulty) && g.matches == old(g.matches) && g.time == old(g.time)
    ensures g.isPlaying == old(g.isPlaying) && g.isPaused == old(g.isPaused) && g.showWin == old(g.showWin)
    ensures g.winPending == old(g.winPending)
    ensures g.Valid()
    ensures old(g.Coherent()) && !old(g.cards[i].isMatched) && !old(g.cards[j].isMatched) ==> g.Coherent()
  {
    g.HandleCardClick(i);
    g.HandleCardClick(j);
  }

  /** Turning up a card and its partner, then letting the resolution run,
      counts one move and one match and leaves both cards matched. */
  method FindOnePair() returns (g: MemoryGame, j: int)
    ensures 0 < j < |g.cards| && g.Coherent()
    ensures g.cards[0].isMatched && g.cards[j].isMatched && !g.cards[0].isFlipped && !g.cards[j].isFlipped
    ensures g.moves == 1 && g.matches == 1 && g.flippedCards == [] && g.pending == [] && g.isPlaying
  {
    g := new MemoryGame();
    j := PartnerOf(g.cards, g.difficulty, 0);
    TurnUpTwo(g, 0, j);
    assert g.pending == [MatchPair(0, j)];
    ghost var before := g.cards;
    g.FireResolution(0);
    assert g.cards == MarkMatched(before, 0, j);
    MarkMatchedChangesOnlyPair(before, 0, j);
  }

  /** A resolution scheduled before a reset runs against the new round: it
      empties the new selection while the card selected there stays face up.
      That card's button stays disabled, since it is face up. */
  method ResolutionOutlivesReset() returns (g: MemoryGame)
    ensures g.Valid() && !g.Coherent()
    ensures g.cards[2].isFlipped && g.flippedCards == [] && g.pending == []
  {
    g := new MemoryGame();
    TurnUpTwo(g, 0, 1);
    assert g.pending == [Scheduled(g.cards, 0, 1)];
    g.Reset();
    g.HandleCardClick(2);
    assert g.flippedCards == [2] && g.cards[2].isFlipped && |g.pending| == 1;
    ghost var before := g.cards;
    g.FireResolution(0);
    assert g.cards[2] == before[2];
  }

  /** The same clicks with a reset that cancels the old round's callbacks:
      the new round keeps its own selection and stays coherent. */
  method CancellingResetKeepsRoundCoherent() returns (g: MemoryGame)
    ensures g.Coherent()
    ensures g.cards[2].isFlipped && g.flippedCards == [2] && g.pending == []
  {
    g := new MemoryGame();
    TurnUpTwo(g, 0, 1);
    g.ResetCancellingCallbacks();
    assert !g.cards[2].isMatched;
    g.HandleCardClick(2);
  }
}
