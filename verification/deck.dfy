/** The difficulty table, the card alphabet and the construction of a fresh,
    shuffled deck (src/components/MemoryGame.tsx, lines 9-24 and 37-48). */
module Deck {

  /** A card face. Every face in the alphabet is a single code point. */
  type Emoji = string

  datatype Difficulty = Easy | Medium | Hard

  datatype Card = Card(id: int, emoji: Emoji, isFlipped: bool, isMatched: bool)

  /** The sixteen card faces, in table order. */
  const Emojis: seq<Emoji> := [
    "\U{1F3AE}", "\U{1F3AF}", "\U{1F3AA}", "\U{1F3A8}", "\U{1F3AD}", "\U{1F3B8}", "\U{1F3BA}", "\U{1F3BB}",
    "\U{1F3B2}", "\U{1F3B0}", "\U{1F680}", "\U{1F6F8}", "\U{1F31F}", "\U{2B50}", "\U{1F48E}", "\U{1F52E}"]

  /** The number of pairs on the board for each difficulty; the table never asks
      for more faces than the alphabet has. */
  function Pairs(d: Difficulty): (n: nat)
    ensures 0 < n <= |Emojis|
  {
    match d
    case Easy => 6
    case Medium => 8
    case Hard => 12
  }

  ghost predicate Distinct(s: seq<Emoji>) {
    forall i, j :: 0 <= i < j < |s| ==> s[i] != s[j]
  }

  lemma EmojisDistinct()
    ensures Distinct(Emojis)
  {
  }

  /** The faces used at difficulty `d`: the first `Pairs(d)` entries of the alphabet. */
  function GameEmojis(d: Difficulty): (g: seq<Emoji>)
    ensures |g| == Pairs(d)
    ensures Distinct(g)
    ensures forall e :: e in g ==> e in Emojis
  {
    EmojisDistinct();
    Emojis[..Pairs(d)]
  }

  /** The unshuffled deck: every face of the game, then every face again. */
  function DuplicatedEmojis(d: Difficulty): (s: seq<Emoji>)
    ensures |s| == 2 * Pairs(d)
  {
    GameEmojis(d) + GameEmojis(d)
  }

  /** `order` is some arrangement of the duplicated faces. */
  predicate IsShuffleOf(order: seq<Emoji>, d: Difficulty) {
    multiset(order) == multiset(DuplicatedEmojis(d))
  }

  function EmojisOf(cards: seq<Card>): (faces: seq<Emoji>)
    ensures |faces| == |cards|
  {
    seq(|cards|, i requires 0 <= i < |cards| => cards[i].emoji)
  }

  /** Every card is numbered by its position. */
  ghost predicate IdsAreIndices(cards: seq<Card>) {
    forall i :: 0 <= i < |cards| ==> cards[i].id == i
  }

  /** Every card lies face down and unmatched. */
  ghost predicate AllFaceDown(cards: seq<Card>) {
    forall i :: 0 <= i < |cards| ==> !cards[i].isFlipped && !cards[i].isMatched
  }

  /** Turns an arrangement of faces into cards: each numbered by its position,
      face down and unmatched, showing the face at that position. */
  function NumberCards(order: seq<Emoji>): (cards: seq<Card>)
    ensures EmojisOf(cards) == order
    ensures IdsAreIndices(cards) && AllFaceDown(cards)
  {
    seq(|order|, i requires 0 <= i < |order| => Card(i, order[i], false, false))
  }

  /** Builds the deck of a new round: take the first `Pairs(d)` faces, duplicate
      them, put them in some order, number the cards. Which order the shuffle
      picks is left open. */
  method ShuffledDeck(d: Difficulty) returns (cards: seq<Card>)
    ensures |cards| == 2 * Pairs(d)
    ensures IsShuffleOf(EmojisOf(cards), d)
    ensures IdsAreIndices(cards) && AllFaceDown(cards)
  {
    var pairs := Pairs(d);
    var gameEmojis := Emojis[..pairs];
    var duplicated := gameEmojis + gameEmojis;
    assert duplicated == DuplicatedEmojis(d);
    assert IsShuffleOf(duplicated, d);
    var shuffled: seq<Emoji> :| IsShuffleOf(shuffled, d);
    assert IsShuffleOf(shuffled, d);
    assert |shuffled| == |multiset(shuffled)| == |multiset(duplicated)| == |duplicated|;
    cards := NumberCards(shuffled);
  }

  /** In a sequence without repeats, each face occurs at most once. */
  lemma {:induction false} DistinctOccursOnce(s: seq<Emoji>, e: Emoji)
    requires Distinct(s)
    ensures multiset(s)[e] == if e in s then 1 else 0
  {
    if s != [] {
      assert s == [s[0]] + s[1..];
      assert Distinct(s[1..]) by {
        forall i, j | 0 <= i < j < |s[1..]| ensures s[1..][i] != s[1..][j] {
          assert s[1..][i] == s[i + 1] && s[1..][j] == s[j + 1];
        }
      }
      DistinctOccursOnce(s[1..], e);
      if e == s[0] {
        assert e !in s[1..] by {
          forall k | 0 <= k < |s[1..]| ensures s[1..][k] != e {
            assert s[1..][k] == s[k + 1];
          }
        }
      }
    }
  }

  /** Any shuffled deck holds exactly two cards of every face of the game and
      no other face. */
  lemma DeckHoldsEachFaceTwice(order: seq<Emoji>, d: Difficulty)
    requires IsShuffleOf(order, d)
    ensures |order| == 2 * Pairs(d)
    ensures forall e :: multiset(order)[e] == if e in GameEmojis(d) then 2 else 0
  {
    var g := GameEmojis(d);
    assert |multiset(order)| == |order|;
    forall e ensures multiset(order)[e] == if e in g then 2 else 0 {
      DistinctOccursOnce(g, e);
      assert multiset(g + g) == multiset(g) + multiset(g);
    }
  }

  /** A face that occurs twice in `faces` occurs again away from any one of
      its positions. */
  lemma {:induction false} SecondOccurrence(faces: seq<Emoji>, i: nat)
    requires i < |faces| && multiset(faces)[faces[i]] == 2
    ensures exists j :: 0 <= j < |faces| && j != i && faces[j] == faces[i]
  {
    var e := faces[i];
    assert faces == faces[..i] + [e] + faces[i + 1..];
    var rest := faces[..i] + faces[i + 1..];
    assert multiset(faces) == multiset(rest) + multiset{e};
    assert e in multiset(rest);
    var k :| 0 <= k < |rest| && rest[k] == e;
    var j := if k < i then k else k + 1;
    assert faces[j] == e;
  }

  /** Every card of a shuffled deck shows a face of the game and has a partner:
      another card with the same face. So every round can be won. */
  lemma CardHasPartner(cards: seq<Card>, d: Difficulty, i: int)
    requires IsShuffleOf(EmojisOf(cards), d) && 0 <= i < |cards|
    ensures cards[i].emoji in GameEmojis(d)
    ensures exists j :: 0 <= j < |cards| && j != i && cards[j].emoji == cards[i].emoji
  {
    var faces := EmojisOf(cards);
    DeckHoldsEachFaceTwice(faces, d);
    assert faces[i] == cards[i].emoji && faces[i] in multiset(faces);
    SecondOccurrence(faces, i);
    var j :| 0 <= j < |faces| && j != i && faces[j] == faces[i];
    assert cards[j].emoji == faces[j];
  }
}
