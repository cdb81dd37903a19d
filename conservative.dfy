/** `ConservativePlayer` of `players.py`: sorts cards by a key and plays or passes low. */
module Conservative {
  import opened Wrappers
  import opened Sequences
  import opened Cards
  import opened Tricks

  /** `ConservativePlayer.SUIT_ORDER`: clubs before diamonds before spades before hearts. */
  const SuitOrder: seq<char> := ['c', 'd', 's', 'h']

  /** The sort key of `sorted_hand`: the card's points, its value, then the position of its suit
      in `SuitOrder`. The points function `hearts_points` is a parameter. */
  function SortKey(pts: Card -> int, c: Card): (k: (int, int, int))
    ensures k.0 == pts(c) && k.1 == c.value
    ensures 0 <= k.2 < 4 && SuitOrder[k.2] == c.suit
  {
    assert SuitOrder == Suits;
    (pts(c), c.value, IndexOf(SuitOrder, c.suit))
  }

  /** Python's ordering of triples: lexicographic. */
  predicate TripleLe(k: (int, int, int), l: (int, int, int))
  {
    k.0 < l.0 || (k.0 == l.0 && (k.1 < l.1 || (k.1 == l.1 && k.2 <= l.2)))
  }

  /** Card `a` sorts no later than card `b`. */
  predicate KeyLe(pts: Card -> int, a: Card, b: Card)
  {
    TripleLe(SortKey(pts, a), SortKey(pts, b))
  }

  /** Non-decreasing in the sort key. */
  predicate SortedByKey(pts: Card -> int, s: seq<Card>)
  {
    forall i, j :: 0 <= i < j < |s| ==> KeyLe(pts, s[i], s[j])
  }

  /** Different cards have different keys, so the key order on cards is strict. */
  lemma KeyOrderIsStrict(pts: Card -> int, a: Card, b: Card)
    ensures KeyLe(pts, a, b) || KeyLe(pts, b, a)
    ensures KeyLe(pts, a, b) && KeyLe(pts, b, a) ==> a == b
  {
    assert SuitOrder == Suits;
    var i, j := IndexOf(SuitOrder, a.suit), IndexOf(SuitOrder, b.suit);
    assert SuitOrder[i] == a.suit && SuitOrder[j] == b.suit;
  }

  /** A card that sorts no later than every card of a sorted sequence can go in front of it. */
  lemma SortedCons(pts: Card -> int, h: Card, t: seq<Card>)
    requires SortedByKey(pts, t)
    requires forall y :: y in t ==> KeyLe(pts, h, y)
    ensures SortedByKey(pts, [h] + t)
  {
    var s := [h] + t;
    forall i, j | 0 <= i < j < |s| ensures KeyLe(pts, s[i], s[j]) {
      if i == 0 {
        assert s[j] == t[j - 1];
      } else {
        assert s[i] == t[i - 1] && s[j] == t[j - 1];
      }
    }
  }

  /** Places `x` in a sorted sequence before the first card that does not sort before it. */
  function Insert(pts: Card -> int, x: Card, s: seq<Card>): (r: seq<Card>)
    requires SortedByKey(pts, s)
    ensures SortedByKey(pts, r)
    ensures multiset(r) == multiset(s) + multiset{x}
  {
    if s == [] then [x]
    else if KeyLe(pts, x, s[0]) then
      SortedCons(pts, x, s);
      [x] + s
    else
      var rest := Insert(pts, x, s[1..]);
      InsertStep(pts, x, s, rest);
      [s[0]] + rest
  }

  /** The step of `Insert` that keeps the head: the head sorts before `x` and before the rest. */
  lemma InsertStep(pts: Card -> int, x: Card, s: seq<Card>, rest: seq<Card>)
    requires SortedByKey(pts, s) && |s| > 0 && !KeyLe(pts, x, s[0])
    requires SortedByKey(pts, rest) && multiset(rest) == multiset(s[1..]) + multiset{x}
    ensures SortedByKey(pts, [s[0]] + rest)
    ensures multiset([s[0]] + rest) == multiset(s) + multiset{x}
  {
    assert s == [s[0]] + s[1..];
    KeyOrderIsStrict(pts, x, s[0]);
    forall y | y in rest ensures KeyLe(pts, s[0], y) {
      assert y in multiset(rest);
      if y != x {
        assert y in multiset(s[1..]);
        var k :| 0 <= k < |s[1..]| && s[1..][k] == y;
        assert s[k + 1] == y;
      }
    }
    SortedCons(pts, s[0], rest);
  }

  /** `ConservativePlayer.sorted_hand`: the hand in sort-key order. */
  function SortedHand(pts: Card -> int, hand: seq<Card>): (r: seq<Card>)
    ensures SortedByKey(pts, r)
    ensures multiset(r) == multiset(hand) && |r| == |hand|
  {
    if hand == [] then []
    else
      assert hand == [hand[0]] + hand[1..];
      Insert(pts, hand[0], SortedHand(pts, hand[1..]))
  }

  /** A hand without repeated cards comes out strictly increasing in the key. */
  lemma SortedHandIsStrict(pts: Card -> int, hand: seq<Card>)
    requires Distinct(hand)
    ensures forall i, j :: 0 <= i < j < |SortedHand(pts, hand)| ==>
      !KeyLe(pts, SortedHand(pts, hand)[j], SortedHand(pts, hand)[i])
  {
    var r := SortedHand(pts, hand);
    PermutationKeepsDistinct(r, hand);
    forall i, j | 0 <= i < j < |r| ensures !KeyLe(pts, r[j], r[i]) {
      KeyOrderIsStrict(pts, r[i], r[j]);
    }
  }

  /** Two sorted arrangements of the same cards are the same sequence, so `SortedHand` is the
      result of Python's `sorted` with this key whatever algorithm computes it. */
  lemma {:induction false} SortedArrangementIsUnique(pts: Card -> int, a: seq<Card>, b: seq<Card>)
    requires SortedByKey(pts, a) && SortedByKey(pts, b)
    requires multiset(a) == multiset(b)
    ensures a == b
  {
    if a == [] {
      assert |b| == |multiset(b)| == 0;
    } else {
      assert |b| == |multiset(b)| == |multiset(a)| == |a|;
      SortedHeadsAgree(pts, a, b);
      TailMultiset(a);
      TailMultiset(b);
      SortedTail(pts, a);
      SortedTail(pts, b);
      SortedArrangementIsUnique(pts, a[1..], b[1..]);
      assert a == [a[0]] + a[1..] && b == [b[0]] + b[1..];
    }
  }

  /** Two sorted arrangements of the same cards start with the same card. */
  lemma SortedHeadsAgree(pts: Card -> int, a: seq<Card>, b: seq<Card>)
    requires SortedByKey(pts, a) && SortedByKey(pts, b)
    requires multiset(a) == multiset(b) && |a| > 0 && |b| > 0
    ensures a[0] == b[0]
  {
    assert a[0] in multiset(b) && b[0] in multiset(a);
    var k :| 0 <= k < |b| && b[k] == a[0];
    var m :| 0 <= m < |a| && a[m] == b[0];
    assert KeyLe(pts, b[0], a[0]) by {
      if k > 0 { assert KeyLe(pts, b[0], b[k]); } else { KeyOrderIsStrict(pts, b[0], b[0]); }
    }
    assert KeyLe(pts, a[0], b[0]) by {
      if m > 0 { assert KeyLe(pts, a[0], a[m]); } else { KeyOrderIsStrict(pts, a[0], a[0]); }
    }
    KeyOrderIsStrict(pts, a[0], b[0]);
  }

  lemma TailMultiset(s: seq<Card>)
    requires |s| > 0
    ensures multiset(s[1..]) == multiset(s) - multiset{s[0]}
  {
    assert s == [s[0]] + s[1..];
  }

  lemma SortedTail(pts: Card -> int, s: seq<Card>)
    requires SortedByKey(pts, s) && |s| > 0
    ensures SortedByKey(pts, s[1..])
  {
    var t := s[1..];
    forall i, j | 0 <= i < j < |t| ensures KeyLe(pts, t[i], t[j]) {
      assert t[i] == s[i + 1] && t[j] == s[j + 1];
    }
  }

  /** The first card of a sorted sequence sorts no later than any of its cards. */
  lemma SortedFirstIsLeast(pts: Card -> int, s: seq<Card>)
    requires SortedByKey(pts, s) && |s| > 0
    ensures forall y :: y in s ==> KeyLe(pts, s[0], y)
  {
    forall y | y in s ensures KeyLe(pts, s[0], y) {
      var j :| 0 <= j < |s| && s[j] == y;
      KeyOrderIsStrict(pts, y, y);
    }
  }

  /** The last card of a sorted sequence sorts no earlier than any of its cards. */
  lemma SortedLastIsGreatest(pts: Card -> int, s: seq<Card>)
    requires SortedByKey(pts, s) && |s| > 0
    ensures forall y :: y in s ==> KeyLe(pts, y, s[|s| - 1])
  {
    forall y | y in s ensures KeyLe(pts, y, s[|s| - 1]) {
      var j :| 0 <= j < |s| && s[j] == y;
      KeyOrderIsStrict(pts, y, y);
    }
  }

  /** Keeping only some cards of a sorted sequence leaves it sorted. */
  lemma {:induction false} FilterKeepsSorted(pts: Card -> int, s: seq<Card>, p: Card -> bool)
    requires SortedByKey(pts, s)
    ensures SortedByKey(pts, Filter(s, p))
  {
    if s != [] {
      var t := s[1..];
      SortedTail(pts, s);
      FilterKeepsSorted(pts, t, p);
      if p(s[0]) {
        forall y | y in Filter(t, p) ensures KeyLe(pts, s[0], y) {
          var j :| 0 <= j < |t| && t[j] == y;
          assert s[j + 1] == y;
        }
        SortedCons(pts, s[0], Filter(t, p));
      }
    }
  }

  /** `ConservativePlayer.pass_cards`: the first three cards of the sorted hand, or the whole
      hand when it holds fewer. */
  function PassCards(pts: Card -> int, hand: seq<Card>): (r: seq<Card>)
    ensures |r| == if |hand| < 3 then |hand| else 3
    ensures multiset(r) <= multiset(hand)
    ensures SortedByKey(pts, r)
    ensures forall x, y :: x in r && y in multiset(hand) - multiset(r) ==> KeyLe(pts, x, y)
  {
    var s := SortedHand(pts, hand);
    var k := if |s| < 3 then |s| else 3;
    PrefixSortsFirst(pts, s, k);
    s[..k]
  }

  /** A prefix of a sorted sequence holds cards that sort no later than the cards after it. */
  lemma PrefixSortsFirst(pts: Card -> int, s: seq<Card>, k: nat)
    requires SortedByKey(pts, s) && k <= |s|
    ensures multiset(s) == multiset(s[..k]) + multiset(s[k..])
    ensures SortedByKey(pts, s[..k])
    ensures forall x, y :: x in s[..k] && y in multiset(s) - multiset(s[..k]) ==> KeyLe(pts, x, y)
  {
    assert s == s[..k] + s[k..];
    var rest := multiset(s) - multiset(s[..k]);
    assert rest == multiset(s[k..]);
    PrefixBeforeSuffix(pts, s, k);
    forall x, y | x in s[..k] && y in rest ensures KeyLe(pts, x, y) {
      assert y in s[k..];
    }
  }

  /** In a sorted sequence every card before position k sorts no later than every card from k on. */
  lemma PrefixBeforeSuffix(pts: Card -> int, s: seq<Card>, k: nat)
    requires SortedByKey(pts, s) && k <= |s|
    ensures SortedByKey(pts, s[..k])
    ensures forall x, y :: x in s[..k] && y in s[k..] ==> KeyLe(pts, x, y)
  {
    forall x, y | x in s[..k] && y in s[k..] ensures KeyLe(pts, x, y) {
      var i :| 0 <= i < k && s[..k][i] == x;
      var j :| 0 <= j < |s| - k && s[k..][j] == y;
      assert s[i] == x && s[k + j] == y;
    }
  }

  /** A play that cannot take the trick from its lead card: another suit, or a lower value. */
  predicate NonCapturing(lead: Card, c: Card)
  {
    c.suit != lead.suit || c.value < lead.value
  }

  /** The `moves` list of `ConservativePlayer.move`: the legal cards of the hand, sorted.
      `isLegal` stands for the game's `is_legal` in its current state. */
  function LegalMoves(pts: Card -> int, isLegal: Card -> bool, hand: seq<Card>): (moves: seq<Card>)
    ensures SortedByKey(pts, moves)
    ensures forall c :: c in moves <==> c in hand && isLegal(c)
  {
    var legal := Filter(hand, isLegal);
    var moves := SortedHand(pts, legal);
    forall c ensures c in moves <==> c in legal {
      assert c in moves <==> c in multiset(moves);
      assert c in legal <==> c in multiset(legal);
    }
    moves
  }

  /** `ConservativePlayer.move`. With no legal card `players.py` indexes an empty list and fails;
      that is `None` here. */
  function Move(pts: Card -> int, isLegal: Card -> bool, hand: seq<Card>, pile: seq<Play>): (r: Option<Card>)
    ensures r.Some? <==> exists c :: c in hand && isLegal(c)
    ensures r.Some? ==> r.value in hand && isLegal(r.value)
    ensures r.Some? && pile == [] ==>
      forall c :: c in hand && isLegal(c) ==> KeyLe(pts, r.value, c)
    ensures r.Some? && pile != [] && (exists c :: c in hand && isLegal(c) && NonCapturing(pile[0].0, c)) ==>
      NonCapturing(pile[0].0, r.value) &&
      forall c :: c in hand && isLegal(c) && NonCapturing(pile[0].0, c) ==> KeyLe(pts, c, r.value)
    ensures r.Some? && pile != [] && !(exists c :: c in hand && isLegal(c) && NonCapturing(pile[0].0, c)) ==>
      forall c :: c in hand && isLegal(c) ==> KeyLe(pts, r.value, c)
  {
    var moves := LegalMoves(pts, isLegal, hand);
    if moves == [] then None
    else
      assert moves[0] in moves;
      SortedFirstIsLeast(pts, moves);
      if pile == [] then Some(moves[0])
      else
        var nonCapture := Filter(moves, (c: Card) => NonCapturing(pile[0].0, c));
        if nonCapture != [] then
          LastNonCapturing(pts, moves, pile[0].0, nonCapture);
          Some(nonCapture[|nonCapture| - 1])
        else
          Some(moves[0])
  }

  /** The last non-capturing move is the highest-sorting one. */
  lemma LastNonCapturing(pts: Card -> int, moves: seq<Card>, lead: Card, nonCapture: seq<Card>)
    requires SortedByKey(pts, moves)
    requires nonCapture == Filter(moves, (c: Card) => NonCapturing(lead, c)) && nonCapture != []
    ensures nonCapture[|nonCapture| - 1] in moves && NonCapturing(lead, nonCapture[|nonCapture| - 1])
    ensures forall c :: c in moves && NonCapturing(lead, c) ==> KeyLe(pts, c, nonCapture[|nonCapture| - 1])
  {
    FilterKeepsSorted(pts, moves, (c: Card) => NonCapturing(lead, c));
    SortedLastIsGreatest(pts, nonCapture);
    assert nonCapture[|nonCapture| - 1] in nonCapture;
  }
}
