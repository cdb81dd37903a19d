/** One round of Hearts as `hearts.py` defines it: the deal and the play of a card. */
module Rounds {
  import opened Wrappers
  import opened Sequences
  import opened Cards
  import opened PassTargets
  import opened Tricks

  /** The message of the `ValueError` raised by `Round.__init__`. */
  const InvalidRound: string := "Invalid inputs to round of Hearts"

  /** The message of the `ValueError` raised by `list.remove` for a card not in the hand. */
  const NotInList: string := "list.remove(x): x not in list"

  /** The outcome of `shuffle(Card.deck())`: some ordering of the 52 cards. */
  predicate IsShuffledDeck(shuffled: seq<Card>)
  {
    multiset(shuffled) == multiset(Deck())
  }

  /** Player i receives the cards at positions 13 * i up to 13 * (i + 1) of the shuffled deck. */
  function DealHands(shuffled: seq<Card>): (hands: seq<seq<Card>>)
    requires |shuffled| == 52
    ensures |hands| == 4 && forall p :: 0 <= p < 4 ==> |hands[p]| == 13
  {
    seq(4, i requires 0 <= i < 4 => shuffled[13 * i..13 * (i + 1)])
  }

  /** The first player, from seat `from` on, whose hand holds a card of value 0 and suit `Suits[0]`. */
  function FindHolder(hands: seq<seq<Card>>, from: nat): (r: Option<Seat>)
    requires |hands| == 4 && from <= 4
    ensures r.Some? ==> from <= r.value && TwoOfClubs in hands[r.value]
    ensures r.Some? ==> forall p :: from <= p < r.value ==> TwoOfClubs !in hands[p]
    ensures r.None? ==> forall p :: from <= p < 4 ==> TwoOfClubs !in hands[p]
    decreases 4 - from
  {
    if from == 4 then None
    else if TwoOfClubs in hands[from] then Some(from)
    else FindHolder(hands, from + 1)
  }

  /** The cards of the four hands taken together. */
  function HandsMultiset(hands: seq<seq<Card>>): multiset<Card>
    requires |hands| == 4
  {
    multiset(hands[0]) + multiset(hands[1]) + multiset(hands[2]) + multiset(hands[3])
  }

  /** `Round.initial_hands_and_player`, with the shuffled deck as a parameter: the four hands, and
      the player who holds the two of clubs and so leads first. */
  function InitialHandsAndPlayer(shuffled: seq<Card>): (r: (seq<seq<Card>>, Seat))
    requires IsShuffledDeck(shuffled)
    ensures |r.0| == 4 && TwoOfClubs in r.0[r.1]
    ensures forall p :: 0 <= p < 4 && p != r.1 ==> TwoOfClubs !in r.0[p]
  {
    DealCoversDeck(shuffled);
    DealIsPartition(shuffled);
    var hands := DealHands(shuffled);
    var first := FindHolder(hands, 0);
    (hands, first.value)
  }

  /** The four hands hold exactly the deck, so one of them holds the two of clubs. */
  lemma DealCoversDeck(shuffled: seq<Card>)
    requires IsShuffledDeck(shuffled)
    ensures |shuffled| == 52
    ensures HandsMultiset(DealHands(shuffled)) == multiset(Deck())
    ensures FindHolder(DealHands(shuffled), 0).Some?
  {
    DeckHoldsEachCardOnce();
    assert |shuffled| == |multiset(shuffled)| == |multiset(Deck())| == 52;
    var h := DealHands(shuffled);
    assert shuffled == h[0] + h[1] + h[2] + h[3];
    assert TwoOfClubs in multiset(shuffled);
    assert TwoOfClubs in shuffled;
    assert TwoOfClubs in h[0] || TwoOfClubs in h[1] || TwoOfClubs in h[2] || TwoOfClubs in h[3];
  }

  /** Dealing any ordering of the deck gives each player 13 different cards, no card to two
      players, and every card of the deck to some player. */
  lemma DealIsPartition(shuffled: seq<Card>)
    requires IsShuffledDeck(shuffled)
    ensures |shuffled| == 52
    ensures var hands := DealHands(shuffled);
      (forall p :: 0 <= p < 4 ==> |hands[p]| == 13 && Distinct(hands[p])) &&
      (forall p, q, c :: 0 <= p < q < 4 && c in hands[p] ==> c !in hands[q]) &&
      HandsMultiset(hands) == multiset(Deck())
  {
    DealCoversDeck(shuffled);
    DeckHoldsEachCardOnce();
    PermutationKeepsDistinct(shuffled, Deck());
    var hands := DealHands(shuffled);
    forall p, q, c | 0 <= p < q < 4 && c in hands[p] ensures c !in hands[q] {
      var i :| 0 <= i < 13 && hands[p][i] == c;
      assert shuffled[13 * p + i] == c;
      forall j | 0 <= j < 13 ensures hands[q][j] != c {
        assert hands[q][j] == shuffled[13 * q + j] && 13 * p + i < 13 * q + j;
      }
    }
    forall p | 0 <= p < 4 ensures Distinct(hands[p]) {
      forall i, j | 0 <= i < j < 13 ensures hands[p][i] != hands[p][j] {
        assert hands[p][i] == shuffled[13 * p + i] && hands[p][j] == shuffled[13 * p + j];
      }
    }
  }

  /** The captured piles at the start of a round: empty for every player. */
  function NoCaptures(): (c: seq<seq<Card>>)
  {
    [[], [], [], []]
  }

  /** The cards of the pile, in play order. */
  function PileCards(pile: seq<Play>): (cards: seq<Card>)
    ensures |cards| == |pile| && forall i :: 0 <= i < |pile| ==> cards[i] == pile[i].0
  {
    seq(|pile|, i requires 0 <= i < |pile| => pile[i].0)
  }

  /** What the captured piles hold after `|pile|` plays: since the pile is never cleared, only
      the fourth play resolves a trick, and its winner captures the winning card alone. */
  function CapturedAfter(pile: seq<Play>): (c: seq<seq<Card>>)
    ensures |c| == 4
  {
    if |pile| < 4 then NoCaptures()
    else
      var w := TrickWinner(pile[..4]);
      NoCaptures()[w.1 := [w.0]]
  }

  /** The invariant of a round's play state (see `Round.Valid`). */
  ghost predicate InPlay(hands: seq<seq<Card>>, active: Seat, pile: seq<Play>, captured: seq<seq<Card>>)
  {
    |hands| == 4 && |captured| == 4 &&
    HandsMultiset(hands) + multiset(PileCards(pile)) == multiset(Deck()) &&
    (forall i :: 0 <= i < |pile| ==> pile[i].1 == active) &&
    (forall p :: 0 <= p < 4 && p != active ==> |hands[p]| == 13) &&
    |hands[active]| + |pile| == 13 &&
    captured == CapturedAfter(pile)
  }

  /** One play by the active player keeps the invariant: the hand loses the card the pile gains,
      and on the fourth play the winner, who is the active player, captures the winning card. */
  lemma PlayKeepsInPlay(hands: seq<seq<Card>>, active: Seat, pile: seq<Play>, captured: seq<seq<Card>>, card: Card,
                        hands': seq<seq<Card>>, pile': seq<Play>)
    requires InPlay(hands, active, pile, captured) && card in hands[active]
    requires hands' == hands[active := RemoveFirst(hands[active], card)]
    requires pile' == pile + [(card, active)]
    ensures |pile'| != 4 ==> InPlay(hands', active, pile', captured)
    ensures |pile'| == 4 ==>
      TrickWinner(pile').1 == active &&
      InPlay(hands', active, pile', captured[active := captured[active] + [TrickWinner(pile').0]])
  {
    PlayConservesCards(hands, active, pile, card);
    PlayCaptures(pile, (card, active));
    assert |hands'[active]| == |hands[active]| - 1;
    assert forall p :: 0 <= p < 4 && p != active ==> hands'[p] == hands[p];
    assert forall i :: 0 <= i < |pile'| ==> pile'[i].1 == active;
    if |pile'| == 4 {
      assert TrickWinner(pile') in pile';
    }
  }

  /** The card leaving the hand joins the pile, so hands and pile together still hold the same cards. */
  lemma PlayConservesCards(hands: seq<seq<Card>>, active: Seat, pile: seq<Play>, card: Card)
    requires |hands| == 4 && card in hands[active]
    ensures HandsMultiset(hands[active := RemoveFirst(hands[active], card)]) +
      multiset(PileCards(pile + [(card, active)])) == HandsMultiset(hands) + multiset(PileCards(pile))
  {
    var hand := RemoveFirst(hands[active], card);
    HandsAfterRemove(hands, active, hand, card);
    assert PileCards(pile + [(card, active)]) == PileCards(pile) + [card];
  }

  /** Only the play that brings the pile to four changes what has been captured. */
  lemma PlayCaptures(pile: seq<Play>, play: Play)
    ensures |pile + [play]| == 4 ==>
      var w := TrickWinner(pile + [play]);
      CapturedAfter(pile + [play]) == CapturedAfter(pile)[w.1 := CapturedAfter(pile)[w.1] + [w.0]]
    ensures |pile + [play]| != 4 ==> CapturedAfter(pile + [play]) == CapturedAfter(pile)
  {
    var pile' := pile + [play];
    if |pile'| == 4 {
      assert pile'[..4] == pile';
      var w := TrickWinner(pile');
      assert CapturedAfter(pile) == NoCaptures();
      assert NoCaptures()[w.1] + [w.0] == [w.0];
    } else if |pile'| > 4 {
      assert pile'[..4] == pile[..4];
    }
  }

  /** The state of `Round`: the pass map, each player's captured cards and hand, the broken flag,
      the active player and the pile of (card, player) plays. */
  class Round {
    const passTargets: map<int, int>
    var captured: seq<seq<Card>>
    var broken: bool
    var hands: seq<seq<Card>>
    var active: Seat
    var pile: seq<Play>

    /** What holds throughout a round played with `Advance`: the hands and the pile together
        hold the deck; every play so far was made by the active player, who therefore has
        played |pile| cards while the others still hold 13; and the captured piles are those
        of `CapturedAfter`. */
    ghost predicate Valid()
      reads this
    {
      IsPassMap(passTargets) && InPlay(hands, active, pile, captured)
    }

    /** `Round.__init__` once its inputs are accepted. */
    constructor (passTargets: map<int, int>, shuffled: seq<Card>)
      requires IsPassMap(passTargets) && IsShuffledDeck(shuffled)
      ensures Valid()
      ensures this.passTargets == passTargets
      ensures captured == NoCaptures() && !broken && pile == []
      ensures (hands, active) == InitialHandsAndPlayer(shuffled)
    {
      this.passTargets := passTargets;
      captured := NoCaptures();
      broken := false;
      var dealt := InitialHandsAndPlayer(shuffled);
      hands, active := dealt.0, dealt.1;
      pile := [];
      DealIsPartition(shuffled);
    }

    /** `Round(players, pass_targets)`: fails unless there are four players and every player is
        a key and a value of the pass map. */
    static method TryNew(playerCount: nat, passTargets: map<int, int>, shuffled: seq<Card>)
      returns (r: Result<Round>)
      requires IsShuffledDeck(shuffled)
      ensures r.Err? <==> playerCount != 4 || !IsPassMap(passTargets)
      ensures r.Err? ==> r.msg == InvalidRound
      ensures r.Ok? ==> fresh(r.value) && r.value.Valid() && r.value.passTargets == passTargets
      ensures r.Ok? ==> r.value.captured == NoCaptures() && !r.value.broken && r.value.pile == []
      ensures r.Ok? ==> (r.value.hands, r.value.active) == InitialHandsAndPlayer(shuffled)
    {
      if playerCount != 4 || !(forall p :: 0 <= p < 4 ==> p in passTargets) ||
         !(forall p :: 0 <= p < 4 ==> p in passTargets.Values) {
        return Err(InvalidRound);
      }
      var round := new Round(passTargets, shuffled);
      return Ok(round);
    }

    /** `Round.is_complete`: the active player has no card left, which in this round happens
        exactly when the pile holds 13 plays. */
    function IsComplete(): (done: bool)
      reads this
      requires Valid()
      ensures done <==> |pile| == 13
    {
      hands[active] == []
    }

    /** `Round.advance(card)`: removes the card from the active hand and appends the play to the
        pile; when the pile reaches four plays, the winner of the fold becomes active and captures
        the winning card. Fails, changing nothing, when the card is not in the active hand. */
    method Advance(card: Card) returns (outcome: Outcome)
      requires Valid()
      modifies this
      ensures Valid()
      ensures broken == old(broken)
      ensures card !in old(hands[active]) ==>
        outcome == Fail(NotInList) && hands == old(hands) && pile == old(pile) &&
        captured == old(captured) && active == old(active)
      ensures card in old(hands[active]) ==>
        outcome == Pass &&
        hands == old(hands)[old(active) := RemoveFirst(old(hands[active]), card)] &&
        pile == old(pile) + [(card, old(active))]
      ensures card in old(hands[active]) ==>
        captured == if |pile| == 4
          then old(captured)[active := old(captured)[active] + [TrickWinner(pile).0]]
          else old(captured)
      ensures card in old(hands[active]) && |pile| == 4 ==> TrickWinner(pile).1 == active
      ensures active == old(active)
    {
      if card !in hands[active] {
        return Fail(NotInList);
      }
      var hands', pile' := hands[active := RemoveFirst(hands[active], card)], pile + [(card, active)];
      var captured', active' := captured, active;
      PlayKeepsInPlay(hands, active, pile, captured, card, hands', pile');
      if |pile'| == 4 {
        var capture := TrickWinner(pile');
        captured' := captured[capture.1 := captured[capture.1] + [capture.0]];
        active' := capture.1;
      }
      hands, pile, captured, active := hands', pile', captured', active';
      outcome := Pass;
    }
  }

  /** Replacing one hand by that hand less one of its cards takes that card out of the four hands. */
  lemma HandsAfterRemove(hands: seq<seq<Card>>, p: Seat, hand: seq<Card>, card: Card)
    requires |hands| == 4 && card in hands[p] && multiset(hand) == multiset(hands[p]) - multiset{card}
    ensures HandsMultiset(hands[p := hand]) + multiset{card} == HandsMultiset(hands)
  {
    assert multiset(hand) + multiset{card} == multiset(hands[p]);
  }
}
