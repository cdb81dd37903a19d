/** Resolution of a trick in `Round.advance`: the `reduce` over the pile. */
module Tricks {
  import opened Cards
  import opened PassTargets

  /** A pile entry: the card played and the player who played it. */
  type Play = (Card, Seat)

  /** The suit led: that of the pile's first card. */
  function LedSuit(pile: seq<Play>): char
    requires |pile| > 0
  {
    pile[0].0.suit
  }

  /** The folding step: a later play displaces the best so far only when it has the best's
      suit and a higher value. */
  function Keep(best: Play, next: Play): (r: Play)
    ensures r == best || r == next
    ensures r.0.suit == best.0.suit && r.0.value >= best.0.value
    ensures next.0.suit == best.0.suit ==> r.0.value >= next.0.value
    ensures next.0.value == best.0.value ==> r == best
  {
    if next.0.suit == best.0.suit && next.0.value > best.0.value then next else best
  }

  /** `functools.reduce(Keep, pile)`: the winning play of the pile. */
  function TrickWinner(pile: seq<Play>): (w: Play)
    requires |pile| > 0
    ensures w in pile
    ensures w.0.suit == LedSuit(pile)
    ensures forall e :: e in pile && e.0.suit == LedSuit(pile) ==> e.0.value <= w.0.value
    decreases |pile|
  {
    if |pile| == 1 then pile[0]
    else
      var front := pile[..|pile| - 1];
      assert pile == front + [pile[|pile| - 1]];
      Keep(TrickWinner(front), pile[|pile| - 1])
  }

  /** On equal values the earlier play wins: the winner is the first play of the led suit that
      has the highest value. */
  lemma {:induction false} WinnerIsFirstHighest(pile: seq<Play>)
    requires |pile| > 0
    ensures exists k :: 0 <= k < |pile| && pile[k] == TrickWinner(pile) && FirstHighestAt(pile, k)
  {
    if |pile| == 1 {
      assert FirstHighestAt(pile, 0);
    } else {
      var n := |pile| - 1;
      var front := pile[..n];
      WinnerIsFirstHighest(front);
      var k :| 0 <= k < n && front[k] == TrickWinner(front) && FirstHighestAt(front, k);
      var best := TrickWinner(front);
      assert LedSuit(front) == LedSuit(pile);
      assert TrickWinner(pile) == Keep(best, pile[n]);
      if TrickWinner(pile) == best {
        forall j | 0 <= j < k && pile[j].0.suit == LedSuit(pile)
          ensures pile[j].0.value < pile[k].0.value
        {
          assert pile[j] == front[j] && pile[k] == front[k];
        }
        assert FirstHighestAt(pile, k);
      } else {
        assert pile[n].0.value > best.0.value;
        forall j | 0 <= j < n && pile[j].0.suit == LedSuit(pile)
          ensures pile[j].0.value < pile[n].0.value
        {
          assert pile[j] == front[j];
          assert front[j] in front;
        }
        assert FirstHighestAt(pile, n);
      }
    }
  }

  /** No play of the led suit before position `k` reaches the value played at `k`. */
  predicate FirstHighestAt(pile: seq<Play>, k: nat)
    requires k < |pile|
  {
    forall j :: 0 <= j < k && pile[j].0.suit == LedSuit(pile) ==> pile[j].0.value < pile[k].0.value
  }

  /** When no later play follows the led suit, the leader wins. */
  lemma {:induction false} LeaderWinsUnfollowed(pile: seq<Play>)
    requires |pile| > 0
    requires forall i :: 0 < i < |pile| ==> pile[i].0.suit != LedSuit(pile)
    ensures TrickWinner(pile) == pile[0]
  {
    if |pile| > 1 {
      LeaderWinsUnfollowed(pile[..|pile| - 1]);
    }
  }

  /** The example trick: seven, king and ace of clubs around a two of hearts; the ace wins. */
  lemma ClubTrickExample()
    ensures TrickWinner([(RawCard(5, 'c'), 0), (RawCard(11, 'c'), 1), (RawCard(0, 'h'), 2), (RawCard(12, 'c'), 3)])
      == (RawCard(12, 'c'), 3)
  {
  }
}
