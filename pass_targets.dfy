/** The four pass-target maps of `Game` and the order in which rounds use them. */
module PassTargets {
  import opened Sequences

  /** A player, identified by its position in the game's list of four players. */
  type Seat = i: int | 0 <= i < 4

  /** `range(4)`, the positions of the four players. */
  const Seats: set<int> := {0, 1, 2, 3}

  /** Python indexing of a four-element list, where index -1 is the last element. */
  function PyIndex(i: int): Seat
    requires -4 <= i < 4
  {
    if i < 0 then i + 4 else i
  }

  /** `Game.left_targets`: player i passes to player i - 1, so seats 0, 1, 2, 3 pass to 3, 0, 1, 2. */
  function LeftTargets(): (m: map<int, int>)
    ensures forall p :: p in m <==> 0 <= p < 4
    ensures m[0] == 3 && m[1] == 0 && m[2] == 1 && m[3] == 2
  {
    var m := map i | i in Seats :: PyIndex(i - 1);
    assert m[0] == 3 && m[1] == 0 && m[2] == 1 && m[3] == 2;
    m
  }

  /** `Game.right_targets`: player i - 1 passes to player i. Keyed by the giver, that is player j
      passing to player j + 1, with player 3 (index -1) passing to player 0: seats 0, 1, 2, 3 pass
      to 1, 2, 3, 0. */
  function RightTargets(): (m: map<int, int>)
    ensures forall p :: p in m <==> 0 <= p < 4
    ensures m[0] == 1 && m[1] == 2 && m[2] == 3 && m[3] == 0
  {
    var m := map j | j in Seats :: if j == PyIndex(-1) then 0 else j + 1;
    assert PyIndex(-1) == 3;
    assert m[0] == 1 && m[1] == 2 && m[2] == 3 && m[3] == 0;
    m
  }

  /** `Game.cross_targets`: player i passes to player i + 2, so seats 0, 1, 2, 3 pass to 2, 3, 0, 1. */
  function CrossTargets(): (m: map<int, int>)
    ensures forall p :: p in m <==> 0 <= p < 4
    ensures m[0] == 2 && m[1] == 3 && m[2] == 0 && m[3] == 1
  {
    var m := map i | i in Seats :: (i + 2) % 4;
    assert m[0] == 2 && m[1] == 3 && m[2] == 0 && m[3] == 1;
    m
  }

  /** `Game.self_targets`: every player keeps its cards. */
  function SelfTargets(): (m: map<int, int>)
    ensures forall p :: p in m <==> 0 <= p < 4
    ensures m[0] == 0 && m[1] == 1 && m[2] == 2 && m[3] == 3
  {
    var m := map p | p in Seats :: p;
    assert m[0] == 0 && m[1] == 1 && m[2] == 2 && m[3] == 3;
    m
  }

  /** The check `Round.__init__` makes: every player is a key and a value of the map. */
  predicate IsPassMap(m: map<int, int>)
  {
    forall p :: 0 <= p < 4 ==> p in m && p in m.Values
  }

  /** A bijection from the four players onto the four players: exactly the players are keys,
      every target is a player, different players have different targets, and every player is a
      target. */
  ghost predicate IsSeatBijection(m: map<int, int>)
  {
    (forall p :: p in m <==> 0 <= p < 4) &&
    (forall p :: p in m ==> 0 <= m[p] < 4) &&
    (forall p, q :: p in m && q in m && m[p] == m[q] ==> p == q) &&
    (forall t :: 0 <= t < 4 ==> t in m.Values)
  }

  /** Each of the four maps is a bijection on the seats that `Round` accepts. */
  lemma LeftIsBijection()
    ensures IsSeatBijection(LeftTargets()) && IsPassMap(LeftTargets())
  {
    var m := LeftTargets();
    forall t | 0 <= t < 4 ensures t in m.Values {
      assert m[PyIndex(t - 3)] == t;
    }
  }

  lemma RightIsBijection()
    ensures IsSeatBijection(RightTargets()) && IsPassMap(RightTargets())
  {
    var m := RightTargets();
    forall t | 0 <= t < 4 ensures t in m.Values {
      assert m[PyIndex(t - 1)] == t;
    }
  }

  lemma CrossIsBijection()
    ensures IsSeatBijection(CrossTargets()) && IsPassMap(CrossTargets())
  {
    var m := CrossTargets();
    forall t | 0 <= t < 4 ensures t in m.Values {
      assert m[(t + 2) % 4] == t;
    }
  }

  lemma SelfIsBijection()
    ensures IsSeatBijection(SelfTargets()) && IsPassMap(SelfTargets())
  {
    var m := SelfTargets();
    forall t | 0 <= t < 4 ensures t in m.Values {
      assert m[t] == t;
    }
  }

  /** Passing left and passing right undo each other. */
  lemma LeftRightInverse()
    ensures forall p :: 0 <= p < 4 ==> RightTargets()[LeftTargets()[p]] == p
    ensures forall p :: 0 <= p < 4 ==> LeftTargets()[RightTargets()[p]] == p
  {
  }

  /** Passing across twice returns the cards, and nobody passes across to itself. */
  lemma CrossIsFixedPointFreeInvolution()
    ensures forall p :: 0 <= p < 4 ==> CrossTargets()[p] != p
    ensures forall p :: 0 <= p < 4 ==> CrossTargets()[CrossTargets()[p]] == p
  {
  }

  /** `Game.targets`: the cycle left, right, across, hold, as a function of the round's index.
      Its keys are the four seats; `RotationValid` shows that every round's map is a bijection. */
  function TargetsFor(roundIndex: nat): (m: map<int, int>)
    ensures forall p :: p in m <==> 0 <= p < 4
  {
    match roundIndex % 4
    case 0 => LeftTargets()
    case 1 => RightTargets()
    case 2 => CrossTargets()
    case _ => SelfTargets()
  }

  /** The residues of the rounds 4k, 4k + 1, 4k + 2, 4k + 3 and k + 4. */
  lemma Residues(k: nat)
    ensures (4 * k) % 4 == 0 && (4 * k + 1) % 4 == 1 && (4 * k + 2) % 4 == 2 && (4 * k + 3) % 4 == 3
    ensures (k + 4) % 4 == k % 4
  {
  }

  /** The rotation starts with left and follows left, right, across, hold. */
  lemma RotationOrder(k: nat)
    ensures TargetsFor(0) == LeftTargets()
    ensures TargetsFor(4 * k) == LeftTargets() && TargetsFor(4 * k + 1) == RightTargets()
    ensures TargetsFor(4 * k + 2) == CrossTargets() && TargetsFor(4 * k + 3) == SelfTargets()
  {
    Residues(k);
  }

  /** Every round receives a map that `Round` accepts. */
  lemma RotationAccepted(roundIndex: nat)
    ensures IsPassMap(TargetsFor(roundIndex))
  {
    RotationValid(roundIndex);
  }

  /** Every round receives a map that is a seat bijection. */
  lemma RotationValid(roundIndex: nat)
    ensures IsSeatBijection(TargetsFor(roundIndex))
  {
    match roundIndex % 4
    case 0 => LeftIsBijection();
    case 1 => RightIsBijection();
    case 2 => CrossIsBijection();
    case _ => SelfIsBijection();
  }

  /** The rotation repeats every four rounds. */
  lemma RotationPeriodic(k: nat)
    ensures TargetsFor(k + 4) == TargetsFor(k)
  {
    Residues(k);
  }
}
