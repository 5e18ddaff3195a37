/** The state machine of the `MemoryGame` component (src/components/MemoryGame.tsx,
    lines 26-130 and 161-169). The React state variables become fields. The
    `setTimeout` callbacks that the component schedules become explicit fields
    too, since nothing ever cancels them: `pending` holds the scheduled pair
    resolutions and `winPending` counts the scheduled win announcements. A test
    driver fires them with `FireResolution` and `FireWin`, in any order, at any
    time, as the browser's timer would. */
module Game {
  import opened Deck
  import opened Board

  /** A scheduled pair resolution, with the ids it captured when it was scheduled. */
  datatype Resolution =
    | MatchPair(first: int, second: int)  // the two faces were equal
    | HidePair(first: int, second: int)   // the two faces differed

  /** The callback the resolution effect schedules for the selected pair. */
  function Scheduled(cards: seq<Card>, first: int, second: int): (r: Resolution)
    requires 0 <= first < |cards| && 0 <= second < |cards|
    ensures r.first == first && r.second == second
    ensures r.MatchPair? <==> cards[first].emoji == cards[second].emoji
  {
    if cards[first].emoji == cards[second].emoji then MatchPair(first, second) else HidePair(first, second)
  }

  /** Exactly the selected cards are face up, and none of them is matched. */
  ghost predicate SelectionShown(cards: seq<Card>, selection: seq<int>) {
    && (forall i :: 0 <= i < |cards| ==> (cards[i].isFlipped <==> i in selection))
    && (forall k :: 0 <= k < |selection| ==> 0 <= selection[k] < |cards| && !cards[selection[k]].isMatched)
  }

  /** Flipping an unselected, unmatched card and appending it to the selection
      keeps the selection shown, and matches nothing. */
  lemma ClickShowsCard(cards: seq<Card>, selection: seq<int>, id: int)
    requires IdsAreIndices(cards) && SelectionShown(cards, selection)
    requires 0 <= id < |cards| && id !in selection && !cards[id].isMatched
    ensures SelectionShown(FlipUp(cards, id), selection + [id])
    ensures CountMatched(FlipUp(cards, id)) == CountMatched(cards)
  {
    var after := FlipUp(cards, id);
    var sel := selection + [id];
    forall i | 0 <= i < |cards| ensures after[i].isFlipped <==> i in sel {
      assert i in sel <==> i in selection || i == id;
    }
    forall k | 0 <= k < |sel| ensures 0 <= sel[k] < |cards| && !after[sel[k]].isMatched {
      if k < |selection| {
        assert sel[k] == selection[k];
      }
    }
    CountMatchedSameFlags(after, cards);
  }

  /** The board after running the resolution `r`. */
  function Resolve(cards: seq<Card>, r: Resolution): (after: seq<Card>)
    ensures EmojisOf(after) == EmojisOf(cards)
    ensures IdsAreIndices(cards) ==> IdsAreIndices(after)
  {
    var after := if r.MatchPair? then MarkMatched(cards, r.first, r.second) else TurnDown(cards, r.first, r.second);
    assert EmojisOf(after) == EmojisOf(cards);
    after
  }

  /** Resolving the selected pair, on a board that shows exactly that pair,
      leaves every card face down with nothing selected, and adds two matched
      cards for a match and none for a miss. */
  lemma ResolveSelectedPair(cards: seq<Card>, selection: seq<int>)
    requires IdsAreIndices(cards) && SelectionShown(cards, selection)
    requires |selection| == 2 && selection[0] != selection[1]
    ensures var r := Scheduled(cards, selection[0], selection[1]);
      && SelectionShown(Resolve(cards, r), [])
      && CountMatched(Resolve(cards, r)) == CountMatched(cards) + (if r.MatchPair? then 2 else 0)
  {
    var first, second := selection[0], selection[1];
    assert !cards[first].isMatched && !cards[second].isMatched;
    CountAfterUpdates(cards, first, second);
    var r := Scheduled(cards, first, second);
    var after := Resolve(cards, r);
    forall i | 0 <= i < |cards| ensures !after[i].isFlipped {
      if i != first && i != second {
        assert i !in selection;
        assert after[i] == cards[i];
      }
    }
  }

  /** The board is a numbered deck of difficulty `d` holding two of each face,
      and the selection is at most two distinct ids of that board. */
  ghost predicate WellFormed(d: Difficulty, cards: seq<Card>, selection: seq<int>) {
    && |cards| == 2 * Pairs(d)
    && IdsAreIndices(cards)
    && IsShuffleOf(EmojisOf(cards), d)
    && |selection| <= 2
    && (forall k :: 0 <= k < |selection| ==> 0 <= selection[k] < |cards|)
    && (|selection| == 2 ==> selection[0] != selection[1])
  }

  /** Exactly the selected cards are face up and none of them is matched, a
      resolution is pending exactly when two cards are selected, two cards are
      matched per counted match, the clock runs until the last pair is found,
      and from then on exactly one win announcement is pending or shown. */
  ghost predicate Consistent(d: Difficulty, cards: seq<Card>, selection: seq<int>, pending: seq<Resolution>,
                             matches: nat, isPlaying: bool, winPending: nat, showWin: bool)
  {
    && WellFormed(d, cards, selection)
    && SelectionShown(cards, selection)
    && pending == (if |selection| == 2 then [Scheduled(cards, selection[0], selection[1])] else [])
    && CountMatched(cards) == 2 * matches
    && (isPlaying <==> matches < Pairs(d))
    && winPending + (if showWin then 1 else 0) == (if matches == Pairs(d) then 1 else 0)
  }

  /** A freshly dealt board with nothing selected, nothing pending and no
      match counted is a consistent round whose clock runs. */
  lemma FreshDealConsistent(d: Difficulty, cards: seq<Card>)
    requires |cards| == 2 * Pairs(d) && IsShuffleOf(EmojisOf(cards), d)
    requires IdsAreIndices(cards) && AllFaceDown(cards)
    ensures WellFormed(d, cards, [])
    ensures Consistent(d, cards, [], [], 0, true, 0, false)
  {
    NoneMatchedCountsZero(cards);
  }

  /** An accepted click keeps the board well formed. */
  lemma ClickKeepsWellFormed(d: Difficulty, cards: seq<Card>, selection: seq<int>, id: int)
    requires WellFormed(d, cards, selection) && 0 <= id < |cards|
    requires |selection| < 2 && id !in selection
    ensures WellFormed(d, FlipUp(cards, id), selection + [id])
  {
    FlipUpChangesOnlyThatCard(cards, id);
    assert EmojisOf(FlipUp(cards, id)) == EmojisOf(cards);
  }

  /** An accepted click on an unmatched card keeps the round consistent: the
      card joins the shown selection, and the resolution of a completed pair
      is scheduled. The state after is given as `after`, `sel` and `scheduled`. */
  lemma ClickKeepsConsistent(d: Difficulty, cards: seq<Card>, selection: seq<int>, pending: seq<Resolution>,
                             matches: nat, isPlaying: bool, winPending: nat, showWin: bool, id: int,
                             after: seq<Card>, sel: seq<int>, scheduled: seq<Resolution>)
    requires Consistent(d, cards, selection, pending, matches, isPlaying, winPending, showWin)
    requires 0 <= id < |cards| && |selection| < 2 && id !in selection && !cards[id].isMatched
    requires after == FlipUp(cards, id) && sel == selection + [id]
    requires scheduled == pending + (if |sel| == 2 then [Scheduled(after, sel[0], sel[1])] else [])
    ensures Consistent(d, after, sel, scheduled, matches, isPlaying, winPending, showWin)
  {
    ClickKeepsWellFormed(d, cards, selection, id);
    ClickShowsCard(cards, selection, id);
  }

  /** Running a scheduled resolution keeps the board well formed, whichever
      round scheduled it, and leaves nothing selected. */
  lemma ResolveKeepsWellFormed(d: Difficulty, cards: seq<Card>, selection: seq<int>, r: Resolution)
    requires WellFormed(d, cards, selection)
    ensures WellFormed(d, Resolve(cards, r), [])
  {
  }

  /** Running the one pending resolution of a consistent round keeps it
      consistent: the pair is resolved, a match is counted, and the last match
      stops the clock and schedules the win announcement. The state after is
      given as `after`, `rest`, `count`, `playing` and `announcing`. */
  lemma ResolveKeepsConsistent(d: Difficulty, cards: seq<Card>, selection: seq<int>, pending: seq<Resolution>,
                               matches: nat, isPlaying: bool, winPending: nat, showWin: bool, k: nat,
                               after: seq<Card>, rest: seq<Resolution>, count: nat, playing: bool, announcing: nat)
    requires Consistent(d, cards, selection, pending, matches, isPlaying, winPending, showWin)
    requires k < |pending| && after == Resolve(cards, pending[k]) && rest == pending[..k] + pending[k + 1..]
    requires count == matches + (if pending[k].MatchPair? then 1 else 0)
    requires var won := pending[k].MatchPair? && count == Pairs(d);
      playing == (isPlaying && !won) && announcing == winPending + (if won then 1 else 0)
    ensures Consistent(d, after, [], rest, count, playing, announcing, showWin)
  {
    ResolveSelectedPair(cards, selection);
    ResolveKeepsWellFormed(d, cards, selection, pending[k]);
  }

  class MemoryGame {
    var difficulty: Difficulty
    var cards: seq<Card>
    var flippedCards: seq<int>   // the selection: ids of the cards turned up this move
    var moves: nat
    var matches: nat
    var time: nat
    var isPlaying: bool
    var isPaused: bool
    var showWin: bool
    var pending: seq<Resolution>  // resolution callbacks scheduled and not yet run
    var winPending: nat           // win announcements scheduled and not yet run

    /** What holds in every reachable state, stale callbacks included. */
    ghost predicate Valid()
      reads this
    {
      WellFormed(difficulty, cards, flippedCards)
    }

    /** What holds in every round dealt while no callback was pending: every
        operation other than a deal keeps it, and a deal establishes it only
        when nothing is pending. A callback left over from an earlier round
        can break it for good. */
    ghost predicate Coherent()
      reads this
    {
      Consistent(difficulty, cards, flippedCards, pending, matches, isPlaying, winPending, showWin)
    }

    /** The state `initializeGame` leaves behind: a face-down board numbered
        by position, nothing selected, counters at zero, the clock running. */
    ghost predicate FreshRound()
      reads this
    {
      && IdsAreIndices(cards) && AllFaceDown(cards)
      && flippedCards == [] && moves == 0 && matches == 0 && time == 0
      && isPlaying && !isPaused && !showWin
    }

    /** The component's first render followed by its mount effect, which starts
        a round at the initial difficulty. */
    constructor ()
      ensures difficulty == Easy && FreshRound()
      ensures pending == [] && winPending == 0
      ensures Valid() && Coherent()
    {
      difficulty := Easy;
      cards := [];
      flippedCards := [];
      moves, matches, time := 0, 0, 0;
      isPlaying, isPaused, showWin := false, false, false;
      pending, winPending := [], 0;
      new;
      InitializeGame(Easy);
    }

    /** Deals a new board for `diff` and resets every counter and flag. It does
        not change `difficulty` and does not cancel callbacks already scheduled. */
    method InitializeGame(diff: Difficulty)
      modifies this
      ensures |cards| == 2 * Pairs(diff) && IsShuffleOf(EmojisOf(cards), diff)
      ensures FreshRound()
      ensures difficulty == old(difficulty)
      ensures pending == old(pending) && winPending == old(winPending)
      ensures diff == difficulty ==> Valid()
      ensures diff == difficulty && pending == [] && winPending == 0 ==> Coherent()
    {
      cards := ShuffledDeck(diff);
      FreshDealConsistent(diff, cards);
      flippedCards := [];
      moves := 0;
      matches := 0;
      time := 0;
      isPlaying := true;
      isPaused := false;
      showWin := false;
    }

    /** The Reset button and the win dialog's Play Again button: a new round at
        the current difficulty. */
    method Reset()
      modifies this
      ensures IsShuffleOf(EmojisOf(cards), difficulty) && FreshRound()
      ensures difficulty == old(difficulty)
      ensures pending == old(pending) && winPending == old(winPending)
      ensures Valid()
      ensures old(pending) == [] && old(winPending) == 0 ==> Coherent()
    {
      InitializeGame(difficulty);
    }

    /** A reset that first cancels every callback scheduled in the round it
        discards, and then deals. Unlike `Reset`, it always leaves a coherent
        round, whatever was pending. */
    method ResetCancellingCallbacks()
      modifies this
      ensures IsShuffleOf(EmojisOf(cards), difficulty) && FreshRound()
      ensures difficulty == old(difficulty)
      ensures pending == [] && winPending == 0
      ensures Coherent()
    {
      pending, winPending := [], 0;
      InitializeGame(difficulty);
    }

    /** A difficulty button: sets the difficulty and starts a round. When the
        difficulty actually changes, the mount effect, which depends on it,
        deals once more. */
    method SelectDifficulty(diff: Difficulty)
      modifies this
      ensures difficulty == diff
      ensures IsShuffleOf(EmojisOf(cards), diff) && FreshRound()
      ensures pending == old(pending) && winPending == old(winPending)
      ensures Valid()
      ensures old(pending) == [] && old(winPending) == 0 ==> Coherent()
    {
      var changed := diff != difficulty;
      difficulty := diff;
      InitializeGame(diff);
      if changed {
        InitializeGame(diff);
      }
    }

    /** A click on the card `id`. Ignored while two cards are selected, when
        the card is already selected, or while paused; otherwise the card turns
        face up, joins the selection, and the click counts as a move when it
        opens a new pair. The resolution effect then schedules the pair's
        callback as soon as two cards are selected. The button of a matched or
        face-up card is disabled (src/components/GameCard.tsx:16), but this
        handler does not check it; `Coherent` survives the click when the card
        is not matched. */
    method HandleCardClick(id: int)
      requires Valid() && 0 <= id < |cards|
      modifies this
      ensures var accepted := !(|old(flippedCards)| == 2 || id in old(flippedCards) || old(isPaused));
        && (accepted ==>
              && cards == old(cards)[id := old(cards)[id].(isFlipped := true)]
              && flippedCards == old(flippedCards) + [id]
              && moves == old(moves) + (if old(flippedCards) == [] then 1 else 0)
              && pending == old(pending) +
                   (if |flippedCards| == 2 then [Scheduled(cards, flippedCards[0], flippedCards[1])] else []))
        && (!accepted ==>
              cards == old(cards) && flippedCards == old(flippedCards) && moves == old(moves) && pending == old(pending))
      ensures difficulty == old(difficulty) && matches == old(matches) && time == old(time)
      ensures isPlaying == old(isPlaying) && isPaused == old(isPaused) && showWin == old(showWin)
      ensures winPending == old(winPending)
      ensures Valid()
      ensures old(Coherent()) && !old(cards[id].isMatched) ==> Coherent()
    {
      if |flippedCards| == 2 || id in flippedCards || isPaused {
        return;
      }
      ClickKeepsWellFormed(difficulty, cards, flippedCards, id);
      FlipUpChangesOnlyThatCard(cards, id);
      var flipped := FlipUp(cards, id);
      var selection := flippedCards + [id];
      // the resolution effect, which runs after every change of the selection
      var scheduled := pending + if |selection| == 2 then [Scheduled(flipped, selection[0], selection[1])] else [];
      if Consistent(difficulty, cards, flippedCards, pending, matches, isPlaying, winPending, showWin) && !cards[id].isMatched {
        ClickKeepsConsistent(difficulty, cards, flippedCards, pending, matches, isPlaying, winPending, showWin, id,
                             flipped, selection, scheduled);
      }
      cards, flippedCards, pending := flipped, selection, scheduled;
      if |selection| == 1 {
        moves := moves + 1;
      }
    }

    /** Runs the scheduled resolution `pending[k]` against whatever board is
        current. A matched pair is marked matched and turned down and counts
        one match; a missed pair is turned down. Either way the selection is
        emptied. When the matches reach the number of pairs, the win effect
        stops the clock and schedules the win announcement. */
    method FireResolution(k: nat)
      requires Valid() && k < |pending|
      modifies this
      ensures pending == old(pending[..k] + pending[k + 1..])
      ensures var r := old(pending[k]);
        && cards == Resolve(old(cards), r)
        && matches == old(matches) + (if r.MatchPair? then 1 else 0)
        && (var won := r.MatchPair? && matches == Pairs(difficulty);
              isPlaying == (old(isPlaying) && !won) && winPending == old(winPending) + (if won then 1 else 0))
      ensures flippedCards == []
      ensures difficulty == old(difficulty) && moves == old(moves) && time == old(time)
      ensures isPaused == old(isPaused) && showWin == old(showWin)
      ensures Valid()
      ensures old(Coherent()) ==> Coherent()
    {
      ResolveKeepsWellFormed(difficulty, cards, flippedCards, pending[k]);
      var r := pending[k];
      var resolved := Resolve(cards, r);
      var rest := pending[..k] + pending[k + 1..];
      var count := if r.MatchPair? then matches + 1 else matches;
      // the win effect, which runs after every change of `matches`
      var won := r.MatchPair? && count == Pairs(difficulty) && count > 0;
      var playing := if won then false else isPlaying;
      var announcing := if won then winPending + 1 else winPending;
      if Consistent(difficulty, cards, flippedCards, pending, matches, isPlaying, winPending, showWin) {
        ResolveKeepsConsistent(difficulty, cards, flippedCards, pending, matches, isPlaying, winPending, showWin, k,
                               resolved, rest, count, playing, announcing);
      }
      pending, cards, flippedCards, matches := rest, resolved, [], count;
      isPlaying, winPending := playing, announcing;
    }

    /** The delayed win announcement: the win dialog opens. */
    method FireWin()
      requires winPending > 0
      modifies this
      ensures showWin && winPending == old(winPending) - 1
      ensures difficulty == old(difficulty) && cards == old(cards) && flippedCards == old(flippedCards)
      ensures moves == old(moves) && matches == old(matches) && time == old(time)
      ensures isPlaying == old(isPlaying) && isPaused == old(isPaused) && pending == old(pending)
      ensures old(Valid()) ==> Valid()
      ensures old(Coherent()) ==> Coherent()
    {
      showWin := true;
      winPending := winPending - 1;
    }

    /** One second of the interval timer, which runs only while playing and not paused. */
    method Tick()
      modifies this
      ensures time == old(time) + (if old(isPlaying) && !old(isPaused) then 1 else 0)
      ensures difficulty == old(difficulty) && cards == old(cards) && flippedCards == old(flippedCards)
      ensures moves == old(moves) && matches == old(matches)
      ensures isPlaying == old(isPlaying) && isPaused == old(isPaused) && showWin == old(showWin)
      ensures pending == old(pending) && winPending == old(winPending)
      ensures old(Valid()) ==> Valid()
      ensures old(Coherent()) ==> Coherent()
    {
      if isPlaying && !isPaused {
        time := time + 1;
      }
    }

    /** The Pause/Resume button, which exists only while playing. */
    method TogglePause()
      modifies this
      ensures isPaused == (if old(isPlaying) then !old(isPaused) else old(isPaused))
      ensures difficulty == old(difficulty) && cards == old(cards) && flippedCards == old(flippedCards)
      ensures moves == old(moves) && matches == old(matches) && time == old(time)
      ensures isPlaying == old(isPlaying) && showWin == old(showWin)
      ensures pending == old(pending) && winPending == old(winPending)
      ensures old(Valid()) ==> Valid()
      ensures old(Coherent()) ==> Coherent()
    {
      if isPlaying {
        isPaused := !isPaused;
      }
    }
  }
}
