# Memory game core, modelled in Dafny

The game is a single React component, `MemoryGame`. It deals a shuffled deck
of paired emoji cards for one of three difficulties. The player turns up two
cards per move. A matched pair is marked matched; a missed pair is turned face
down again. Once every pair is found, the clock stops and a win dialog opens.
Two components show the elapsed time with the same `formatTime` helper.

The project has five modules:

- `Deck` (`deck.dfy`) holds the difficulty table (6, 8 or 12 pairs) and the
  sixteen-emoji alphabet. It builds a fresh deck: the first faces of the
  alphabet, duplicated, put in some order, numbered by position. The shuffle
  is modelled as an arbitrary permutation, stated as multiset equality. The
  module proves that every deck holds exactly two cards of each face of the
  game and no other face, so every card has a partner.
- `Board` (`board.dfy`) holds the three per-card updates the component maps
  over the board: flip a card up, mark a pair matched, turn a pair down. Each
  is proved to change only the named cards. The module also counts matched
  cards.
- `Game` (`memory_game.dfy`) holds the class `MemoryGame`. Its fields are the
  component's state variables, plus two fields for the `setTimeout` callbacks
  still waiting to run:
  - `pending` holds the scheduled pair resolutions, with the ids they captured;
  - `winPending` counts the scheduled win announcements.
  A driver runs these callbacks with `FireResolution` and `FireWin`, in any
  order and at any time, as the browser's timer would. React effects are
  folded into the state change that triggers them: the resolution effect into
  the click, the win effect into the resolution.
- `Scenarios` (`scenarios.dfy`) holds short runs of player actions and
  consequences for whole rounds, proved from the class contracts alone.
- `TimeFormat` (`time_format.dfy`) holds `formatTime`, which uses
  JavaScript's operators. It proves a parse-back round trip and some concrete
  displays.

The class has two invariants:

- `Valid` holds in every reachable state, stale callbacks included. The board
  is a numbered, shuffled deck of the current difficulty. The selection holds
  at most two distinct ids of that board.
- `Coherent` holds in every round dealt while no callback was pending:
  - exactly the selected cards are face up, and none of them is matched;
  - a resolution is pending exactly when two cards are selected;
  - the matched cards number twice the match counter;
  - the clock runs until the last pair is found;
  - after that, exactly one win announcement is either pending or shown.

  Every operation other than a deal keeps `Coherent`. A deal (a new game, a
  reset, a difficulty change) establishes it only when nothing is pending. A
  callback left over from an earlier round can break it for good, even after
  it has run. A click keeps it only when the clicked card is not matched. The card's button supplies that guarantee: it is
  disabled for face-up and matched cards (src/components/GameCard.tsx:16).
  The click handler itself does not check it.

Four behaviours a reader might expect are not what the code does, and the
model follows the code:

- A new round should cancel the callbacks of the round it replaces. The code
  never clears its timeouts, so the model keeps them (see Findings).
- A click on a matched card should do nothing. The handler does not check
  this; only the card's disabled button prevents it.
- A click with an id that is not on the board should do nothing. In the code
  it would reach the resolution effect as an undefined card. The model only
  accepts ids on the board.
- A shuffle should be uniform. The code sorts with a random comparator. The
  model only requires some permutation.

When the difficulty changes, the code deals twice: once in the button's
handler and once in the mount effect, which depends on the difficulty.
`SelectDifficulty` deals twice as well.

## Model

| member | source | states |
|---|---|---|
| Deck.Pairs | src/components/MemoryGame.tsx:20-24 | The pairs per difficulty are 6, 8 and 12. The alphabet never runs short of faces. |
| Deck.EmojisDistinct | src/components/MemoryGame.tsx:18 | The sixteen faces of the alphabet are pairwise different. |
| Deck.GameEmojis | src/components/MemoryGame.tsx:38-39 | The faces of a round are `pairs` distinct faces, all from the alphabet. |
| Deck.DuplicatedEmojis | src/components/MemoryGame.tsx:40 | The unshuffled deck holds twice as many faces as there are pairs. |
| Deck.NumberCards | src/components/MemoryGame.tsx:43-48 | Each card is numbered by its position, shows the face at that position, and lies face down and unmatched. |
| Deck.ShuffledDeck | src/components/MemoryGame.tsx:38-48 | The dealt deck has 2 × pairs cards, is a permutation of the duplicated faces, and is numbered and face down. |
| Deck.DeckHoldsEachFaceTwice | src/components/MemoryGame.tsx:38-42 | Any shuffled deck holds each face of the round exactly twice and no other face. |
| Deck.CardHasPartner | src/components/MemoryGame.tsx:38-42 | Every card of a shuffled deck shows a face of the round, and some other card shows the same face. |
| Board.FlipUp | src/components/MemoryGame.tsx:120-124 | The click's map over the board keeps its length and every card's id, face and matched flag. `FlipUpChangesOnlyThatCard` states that it turns up exactly the named card. |
| Board.MarkMatched | src/components/MemoryGame.tsx:83-89 | The match callback's map keeps the board's length and every card's id and face. `MarkMatchedChangesOnlyPair` states that it changes exactly the two named cards. |
| Board.TurnDown | src/components/MemoryGame.tsx:96-102 | The miss callback's map keeps the board's length and every card's id, face and matched flag. `TurnDownChangesOnlyPair` states that it changes exactly the two named cards. |
| Board.FlipUpChangesOnlyThatCard | src/components/MemoryGame.tsx:120-124 | On a position-numbered board, the click's map turns up the named card and changes nothing else. |
| Board.MarkMatchedChangesOnlyPair | src/components/MemoryGame.tsx:83-89 | The match callback's map marks both named cards matched and face down, and changes nothing else. |
| Board.TurnDownChangesOnlyPair | src/components/MemoryGame.tsx:96-102 | The miss callback's map turns both named cards face down and changes nothing else. |
| Board.CountAfterUpdates | src/components/MemoryGame.tsx:83-102 | Matching two unmatched cards adds exactly two matched cards. Turning a pair down or flipping a card adds none. |
| Game.Scheduled | src/components/MemoryGame.tsx:75-81 | The callback scheduled for a selected pair keeps both ids. It is a match exactly when the two faces are equal. |
| Game.Resolve | src/components/MemoryGame.tsx:81-105 | Running a callback keeps every face in place and keeps the board numbered by position. |
| Game.ResolveSelectedPair | src/components/MemoryGame.tsx:75-105 | When the board shows exactly the selected pair, resolving it turns every card face down. It adds two matched cards for a match and none for a miss. |
| Game.FreshDealConsistent | src/components/MemoryGame.tsx:37-57 | A fresh deal with nothing selected, nothing pending and no match is a consistent running round. |
| Game.ClickKeepsWellFormed | src/components/MemoryGame.tsx:117-125 | An accepted click keeps the selection at most two distinct ids of the board. |
| Game.ClickKeepsConsistent | src/components/MemoryGame.tsx:74-129 | An accepted click on an unmatched card keeps the round consistent: the card shows, it joins the selection, and a completed pair gets its callback. |
| Game.ResolveKeepsConsistent | src/components/MemoryGame.tsx:81-114 | Running the one pending callback keeps the round consistent. A match is counted, and the last match stops the clock and schedules the win. |
| Game.MemoryGame.constructor | src/components/MemoryGame.tsx:26-62 | The first render and the mount effect give a fresh, coherent round at Easy, with nothing pending. |
| Game.MemoryGame.InitializeGame | src/components/MemoryGame.tsx:37-59 | Deals a deck of the given difficulty and resets the selection, counters and flags. Callbacks already scheduled stay scheduled. |
| Game.MemoryGame.Reset | src/components/MemoryGame.tsx:161 | Deals a new round at the current difficulty. The new round is coherent when nothing was pending. |
| Game.MemoryGame.ResetCancellingCallbacks | src/components/MemoryGame.tsx:161 | The corrected reset: it cancels pending callbacks, then deals. The new round is always coherent. |
| Game.MemoryGame.SelectDifficulty | src/components/MemoryGame.tsx:150-153 | Sets the difficulty and deals a fresh round of it. Pending callbacks stay scheduled. |
| Game.MemoryGame.HandleCardClick | src/components/MemoryGame.tsx:117-130 | A full selection, an already-selected id, or a pause makes the click a no-op. Otherwise the click does three things. It turns up exactly that card. It appends the id to the selection. It counts a move exactly when the selection was empty. A completed pair gets its resolution scheduled. Validity is kept, and so is coherence when the card is not matched. |
| Game.MemoryGame.FireResolution | src/components/MemoryGame.tsx:75-114 | Runs one scheduled callback against the current board and empties the selection. A match adds one to the counter. Reaching the pair count stops the clock and schedules the win announcement. |
| Game.MemoryGame.FireWin | src/components/MemoryGame.tsx:113 | The delayed announcement opens the win dialog and changes nothing else. |
| Game.MemoryGame.Tick | src/components/MemoryGame.tsx:64-73 | Time advances by exactly one only while playing and not paused. |
| Game.MemoryGame.TogglePause | src/components/MemoryGame.tsx:165-170 | Pause flips only while playing, because the button exists only then. |
| Scenarios.WonRoundIsAllMatched | src/components/MemoryGame.tsx:109-114 | Once the last pair is found, every card is matched, nothing is selected and the clock is stopped. |
| Scenarios.MatchesBounded | src/components/MemoryGame.tsx:109-114 | The match counter never exceeds the number of pairs. Play continues exactly until it reaches it. |
| Scenarios.PauseStopsTheClock | src/components/MemoryGame.tsx:64-73 | Ticks while paused do not count; ticks after resuming do. |
| Scenarios.SecondClickOnSameCard | src/components/MemoryGame.tsx:118 | Clicking a selected card again adds no move and no selection entry. |
| Scenarios.TurnUpTwo | src/components/MemoryGame.tsx:117-129 | Two clicks on two different cards make one move, show both cards and schedule the pair's callback. |
| Scenarios.FindOnePair | src/components/MemoryGame.tsx:75-93 | Turning up a card and its partner, then running the callback, gives one move and one match. Both cards end up matched and face down. |
| Scenarios.ResolutionOutlivesReset | src/components/MemoryGame.tsx:81-105 | A callback scheduled before a reset runs in the new round. It empties that round's selection while leaving its card face up. |
| Scenarios.CancellingResetKeepsRoundCoherent | src/components/MemoryGame.tsx:161 | With the corrected reset, the same clicks leave the new round's selection in place and the round coherent. |
| TimeFormat.FormatTime | src/components/GameStats.tsx:11-15 | `formatTime`, for both copies. The display has at least four characters, begins with a minus sign exactly for a negative count, and for a non-negative count has its colon three characters from the end. `FormatTimeLayout` gives its full layout and `FormatTimeRoundTrip` reads it back. |
| TimeFormat.Minutes | src/components/GameStats.tsx:12 | The minutes are the largest whole number of minutes within the count. |
| TimeFormat.SecondsPart | src/components/GameStats.tsx:13 | The seconds part takes the sign of the count and stays within a minute. It differs from the count by whole minutes. |
| TimeFormat.IntToString | src/components/GameStats.tsx:14 | The numeral starts with a minus sign exactly for negative numbers. |
| TimeFormat.PadStart | src/components/GameStats.tsx:14 | Padding leaves the string as the suffix, fills the rest with the fill character, and reaches at least the width. |
| TimeFormat.SplitRoundTrip | src/components/WinModal.tsx:14-15 | For a non-negative count, minutes × 60 + seconds gives the count back, and the seconds are below 60. |
| TimeFormat.PaddedSecondsPart | src/components/WinModal.tsx:16 | The seconds are always shown as exactly two digits, tens first. |
| TimeFormat.FormatTimeLayout | src/components/GameStats.tsx:11-15 | The display is the minutes numeral, one colon, and two digits of seconds. |
| TimeFormat.FormatTimeRoundTrip | src/components/WinModal.tsx:13-17 | Reading a display back gives the count of seconds. |
| TimeFormat.FormatTimeInjective | src/components/GameStats.tsx:11-15 | Two non-negative counts display alike exactly when they are equal. |
| TimeFormat.FormatTimeExamples | src/components/GameStats.tsx:14 | 0 displays as "0:00" and 65 as "1:05". |
| TimeFormat.FormatTimeTenMinutes | src/components/WinModal.tsx:16 | 600 displays as "10:00". |
| TimeFormat.FormatTimeNegative | src/components/GameStats.tsx:12-14 | -5 displays as "-1:-5". The game never counts below zero. |

## Left out

- Rendering, styling, the grid column classes, icons, and the dialog and button components are presentation only.
- `toast` notifications (src/components/MemoryGame.tsx:58, 92, 169) only inform the player and do not change the state.
- Real-time durations of the timers are not modelled: the 500 ms and 1000 ms delays and the one-second interval. Callbacks run when the driver fires them, in any order. `Tick` is one interval step.
- React's render and effect scheduling is folded into the triggering state change. This assumes the state updates of one event handler or callback are applied together.
- The interval is cleared on unmount and on pause changes. These are the timer's own bookkeeping and are not modelled.
- `Math.random` and the bias of the random-comparator sort are not modelled: the shuffle is any permutation. Randomness cannot be stated here.
- `formatTime` takes integers. Fractional seconds, and JavaScript's exponent notation for numbers of 10^21 and beyond, are not modelled.
- The two copies of `formatTime` (src/components/GameStats.tsx:11-15 and src/components/WinModal.tsx:13-17) are the same text, so one function `TimeFormat.FormatTime` stands for both. Their agreement holds by construction rather than by a lemma.
- Game.MemoryGame.HandleCardClick: requires the id to be on the board, because the only caller is a rendered card's button (src/components/MemoryGame.tsx:200). It keeps `Coherent` only for an unmatched card, because the disabled button, not the handler, rules out clicks on matched cards.
- src/components/GameCard.tsx is not part of this model, apart from its disabled rule, used as stated above.

## Findings

| source | as written | input that shows it | evidently intended | confidence | as-written member | corrected member |
|---|---|---|---|---|---|---|
| src/components/MemoryGame.tsx:81-105, 161 | Reset and the difficulty buttons deal a new round but leave the old round's resolution timeouts scheduled. | Click card 0, click card 1, press Reset, click card 2, then let the old timeout fire. The new selection is emptied, but card 2 stays face up, so its button stays disabled (src/components/GameCard.tsx:16). | A new round cancels the callbacks of the round it replaces, so it stays coherent. | high (proved on the model, not executed) | Scenarios.ResolutionOutlivesReset | Game.MemoryGame.ResetCancellingCallbacks |
