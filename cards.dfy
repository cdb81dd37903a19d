/** The card value type of `hearts.py`: construction, text form and the full deck. */
module Cards {
  import opened Wrappers
  import opened Sequences

  /** `Card.SUITS`: clubs, diamonds, spades, hearts, in deck order. */
  const Suits: seq<char> := ['c', 'd', 's', 'h']

  /** `Card.RANKS`: the letters used for the five highest ranks. */
  const RankSymbols: map<int, char> := map[12 := 'A', 11 := 'K', 10 := 'Q', 9 := 'J', 8 := 'T']

  /** The message of the `ValueError` raised by an invalid construction. */
  const InvalidCard: string := "invalid suit or rank"

  /** The two fields a card object stores. */
  datatype RawCard = RawCard(value: int, suit: char)

  /** Every card that construction lets through: value 0 (a two) up to 12 (an ace), one of four suits. */
  type Card = c: RawCard | 0 <= c.value < 13 && c.suit in Suits witness RawCard(0, 'c')

  /** The card whose holder leads the first trick of a round. */
  const TwoOfClubs: Card := RawCard(0, 'c')

  /** `Card(value, suit)`: validates both arguments and stores them unchanged. */
  function MakeCard(value: int, suit: char): (r: Result<Card>)
    ensures r.Ok? <==> suit in Suits && 0 <= value < 13
    ensures r.Ok? ==> r.value.value == value && r.value.suit == suit
    ensures r.Err? ==> r.msg == InvalidCard
  {
    if suit !in Suits || !(0 <= value < 13) then Err(InvalidCard)
    else Ok(RawCard(value, suit))
  }

  /** Every card is the result of constructing it from its own fields. */
  lemma MakeCardRoundTrip(c: Card)
    ensures MakeCard(c.value, c.suit) == Ok(c)
  {
  }

  function DigitChar(d: int): (ch: char)
    requires 0 <= d < 10
  {
    "0123456789"[d]
  }

  /** Python's `str` of a non-negative integer: its decimal digits. */
  function NatToString(n: nat): (s: string)
    decreases n
  {
    if n < 10 then [DigitChar(n)] else NatToString(n / 10) + [DigitChar(n % 10)]
  }

  /** The rank symbols of values 0..12, lowest first: the reference for `CardString`. */
  const RankChars: string := "23456789TJQKA"

  /** `Card.__str__`: the letter from `RankSymbols`, or else the decimal form of value + 2, followed
      by the suit letter. Every card prints as two characters: its rank symbol, then its suit. */
  function CardString(c: Card): (s: string)
    ensures |s| == 2 && s == [RankChars[c.value], c.suit]
  {
    var rank := if c.value in RankSymbols then [RankSymbols[c.value]] else NatToString(c.value + 2);
    assert c.value < 8 ==> NatToString(c.value + 2) == [DigitChar(c.value + 2)];
    rank + [c.suit]
  }

  /** Distinct cards print differently. */
  lemma CardStringInjective(a: Card, b: Card)
    ensures CardString(a) == CardString(b) ==> a == b
  {
    RankValueInverts(a.value);
    RankValueInverts(b.value);
  }

  /** Reads a rank symbol back as a card value (-1 for a character that is none). */
  function RankValue(ch: char): int
  {
    if '2' <= ch <= '9' then ch as int - '2' as int
    else if ch == 'T' then 8
    else if ch == 'J' then 9
    else if ch == 'Q' then 10
    else if ch == 'K' then 11
    else if ch == 'A' then 12
    else -1
  }

  lemma RankValueInverts(v: int)
    requires 0 <= v < 13
    ensures RankValue(RankChars[v]) == v
  {
    if v < 8 {
      assert RankChars[v] as int == '2' as int + v;
    }
  }

  /** The position a card takes in the deck order: value first, then suit. */
  function DeckIndex(c: Card): (i: nat)
  {
    4 * c.value + IndexOf(Suits, c.suit)
  }

  /** `Card.deck()`: every value from 0 to 12, and within a value every suit in `Suits` order,
      so the card at each position is the one whose `DeckIndex` is that position. */
  function Deck(): (d: seq<Card>)
    ensures |d| == 52
    ensures forall i :: 0 <= i < 52 ==> DeckIndex(d[i]) == i
  {
    var d := seq(52, i requires 0 <= i < 52 => RawCard(i / 4, Suits[i % 4]));
    PositionsInDeckOrder(d);
    d
  }

  lemma PositionsInDeckOrder(d: seq<Card>)
    requires |d| == 52 && forall i :: 0 <= i < 52 ==> d[i] == RawCard(i / 4, Suits[i % 4])
    ensures forall i :: 0 <= i < 52 ==> DeckIndex(d[i]) == i
  {
    forall i | 0 <= i < 52 ensures DeckIndex(d[i]) == i {
      assert Distinct(Suits);
      assert IndexOf(Suits, Suits[i % 4]) == i % 4;
    }
  }

  /** Every card sits in the deck at its `DeckIndex`. */
  lemma DeckEnumeratesCards()
    ensures forall c: Card :: DeckIndex(c) < 52 && Deck()[DeckIndex(c)] == c
  {
    forall c: Card ensures DeckIndex(c) < 52 && Deck()[DeckIndex(c)] == c {
      var k := IndexOf(Suits, c.suit);
      assert (4 * c.value + k) / 4 == c.value && (4 * c.value + k) % 4 == k;
    }
  }

  /** Hence the deck has no repeated card and holds each card once. */
  lemma DeckHoldsEachCardOnce()
    ensures Distinct(Deck())
    ensures forall c: Card :: c in Deck() && multiset(Deck())[c] == 1
  {
    DeckEnumeratesCards();
    forall c: Card ensures c in Deck() && multiset(Deck())[c] == 1 {
      assert Deck()[DeckIndex(c)] == c;
      DistinctCount(Deck(), c);
    }
  }
}
