/**
 * The battlefield and the six card abilities.
 *
 * The battlefield maps the four zone keys p1_back, p1_front, p2_front and
 * p2_back (in that iteration order) to ordered rows of placed cards.  Every
 * ability is given twice: a function that specifies its effect on the whole
 * battlefield, and a method that walks the row with a loop, updating one card
 * at a time as the source does, proved to compute that function.
 */
module Abilities {
  import opened Wrappers
  import opened Cards

  datatype Player = P1 | P2 {
    function Other(): (o: Player)
      ensures o != this
    {
      match this
      case P1 => P2
      case P2 => P1
    }
  }

  datatype Zone = P1Back | P1Front | P2Front | P2Back {
    /** "front" when the key contains "front", otherwise "back". */
    function Kind(): Line {
      match this
      case P1Front | P2Front => Front
      case P1Back | P2Back => Back
    }

    /** The player whose tag ("p1" or "p2") the key contains. */
    function Side(): Player {
      match this
      case P1Back | P1Front => P1
      case P2Front | P2Back => P2
    }

    /** The enemy of whoever played into this zone: "p2" when the key contains "p1", else "p1". */
    function Enemy(): (p: Player)
      ensures p != Side()
    {
      Side().Other()
    }
  }

  function FrontOf(p: Player): (z: Zone)
    ensures z.Side() == p && z.Kind() == Front
  {
    match p
    case P1 => P1Front
    case P2 => P2Front
  }

  function BackOf(p: Player): (z: Zone)
    ensures z.Side() == p && z.Kind() == Back
  {
    match p
    case P1 => P1Back
    case P2 => P2Back
  }

  /** A card on the battlefield: its current power, its owner and the one-shot synergy flag. */
  datatype PlacedCard = PlacedCard(name: string, power: int, owner: Player, mageBuffed: bool)

  /** The four rows of the battlefield. */
  datatype Board = Board(p1Back: seq<PlacedCard>, p1Front: seq<PlacedCard>,
                         p2Front: seq<PlacedCard>, p2Back: seq<PlacedCard>)
  {
    function Get(z: Zone): seq<PlacedCard> {
      match z
      case P1Back => p1Back
      case P1Front => p1Front
      case P2Front => p2Front
      case P2Back => p2Back
    }

    function Set(z: Zone, s: seq<PlacedCard>): (r: Board)
      ensures r.Get(z) == s
      ensures forall y :: y != z ==> r.Get(y) == Get(y)
    {
      match z
      case P1Back => this.(p1Back := s)
      case P1Front => this.(p1Front := s)
      case P2Front => this.(p2Front := s)
      case P2Back => this.(p2Back := s)
    }
  }

  const EmptyBoard: Board := Board([], [], [], [])

  /** The zone keys in the battlefield's iteration order. */
  const AllZones: seq<Zone> := [P1Back, P1Front, P2Front, P2Back]

  /** All cards of the battlefield in zone iteration order, as the synergy scan sees them. */
  function Flatten(b: Board): seq<PlacedCard> {
    b.p1Back + b.p1Front + b.p2Front + b.p2Back
  }

  predicate RowNonNegative(s: seq<PlacedCard>) {
    forall i :: 0 <= i < |s| ==> s[i].power >= 0
  }

  /** The second row holds the same cards as the first, position by position, as far as names and owners go. */
  predicate SameSlots(s: seq<PlacedCard>, r: seq<PlacedCard>) {
    |r| == |s| && forall j :: 0 <= j < |s| ==> r[j].name == s[j].name && r[j].owner == s[j].owner
  }

  /** No card on the battlefield has negative power. */
  predicate NonNegative(b: Board) {
    forall z: Zone :: RowNonNegative(b.Get(z))
  }

  // ---------------------------------------------------------------------
  // Area buff (oak, bard, signal lights)
  // ---------------------------------------------------------------------

  function Raised(c: PlacedCard, delta: int): PlacedCard {
    c.(power := c.power + delta)
  }

  function RaiseAll(s: seq<PlacedCard>): (r: seq<PlacedCard>)
    ensures |r| == |s|
    ensures forall i :: 0 <= i < |s| ==> r[i] == Raised(s[i], 1)
  {
    if s == [] then [] else [Raised(s[0], 1)] + RaiseAll(s[1..])
  }

  /** Every card of the played row, the played card included, gains exactly 1; other rows are unchanged. */
  function OakBardLightsEffect(b: Board, played: Zone): (r: Board)
    ensures |r.Get(played)| == |b.Get(played)|
    ensures forall i :: 0 <= i < |b.Get(played)| ==>
              r.Get(played)[i].power == b.Get(played)[i].power + 1 &&
              r.Get(played)[i].name == b.Get(played)[i].name &&
              r.Get(played)[i].owner == b.Get(played)[i].owner &&
              r.Get(played)[i].mageBuffed == b.Get(played)[i].mageBuffed
    ensures forall z :: z != played ==> r.Get(z) == b.Get(z)
    ensures NonNegative(b) ==> NonNegative(r)
  {
    var r := b.Set(played, RaiseAll(b.Get(played)));
    assert NonNegative(b) ==> NonNegative(r) by {
      if NonNegative(b) {
        forall z: Zone ensures RowNonNegative(r.Get(z)) {
          assert RowNonNegative(b.Get(z));
        }
      }
    }
    r
  }

  method OakBardLightsAbility(lineCards: Board, played: Zone) returns (r: Board)
    ensures r == OakBardLightsEffect(lineCards, played)
  {
    var row := lineCards.Get(played);
    var i := 0;
    while i < |row|
      invariant 0 <= i <= |row| == |lineCards.Get(played)|
      invariant forall j :: 0 <= j < i ==> row[j] == Raised(lineCards.Get(played)[j], 1)
      invariant forall j :: i <= j < |row| ==> row[j] == lineCards.Get(played)[j]
    {
      var oldPower := row[i].power;
      row := row[i := row[i].(power := oldPower + 1)];
      i := i + 1;
    }
    assert row == RaiseAll(lineCards.Get(played));
    r := lineCards.Set(played, row);
  }

  // ---------------------------------------------------------------------
  // Frost and Fog: -1 to positive-power enemy cards
  // ---------------------------------------------------------------------

  /** One card after a weakening: positive power drops by 1 unless the card is a spared bandit. */
  function Weakened(c: PlacedCard, spareBandit: bool): PlacedCard {
    if spareBandit && c.name == Bandit then c
    else if c.power > 0 then c.(power := c.power - 1)
    else c
  }

  function WeakenAll(s: seq<PlacedCard>, spareBandit: bool): (r: seq<PlacedCard>)
    ensures |r| == |s|
    ensures forall i :: 0 <= i < |s| ==> r[i] == Weakened(s[i], spareBandit)
  {
    if s == [] then [] else [Weakened(s[0], spareBandit)] + WeakenAll(s[1..], spareBandit)
  }

  /** The weakening of one row, stated card by card. */
  predicate WeakenedRow(s: seq<PlacedCard>, r: seq<PlacedCard>, spareBandit: bool) {
    && |r| == |s|
    && (forall i :: 0 <= i < |s| ==>
          r[i].name == s[i].name && r[i].owner == s[i].owner && r[i].mageBuffed == s[i].mageBuffed)
    && (forall i :: 0 <= i < |s| ==>
          r[i].power == if s[i].power > 0 && !(spareBandit && s[i].name == Bandit)
                        then s[i].power - 1 else s[i].power)
    && (forall i :: 0 <= i < |s| && s[i].power >= 0 ==> r[i].power >= 0)
  }

  /**
   * Frost: in the enemy front row each card with positive power that is not
   * the bandit loses exactly 1; everything else is unchanged.
   */
  function FrostEffect(b: Board, played: Zone): (r: Board)
    ensures WeakenedRow(b.Get(FrontOf(played.Enemy())), r.Get(FrontOf(played.Enemy())), true)
    ensures forall z :: z != FrontOf(played.Enemy()) ==> r.Get(z) == b.Get(z)
    ensures NonNegative(b) ==> NonNegative(r)
  {
    var target := FrontOf(played.Enemy());
    var r := b.Set(target, WeakenAll(b.Get(target), true));
    assert NonNegative(b) ==> NonNegative(r) by {
      if NonNegative(b) {
        forall z: Zone ensures RowNonNegative(r.Get(z)) {
          assert RowNonNegative(b.Get(z));
        }
      }
    }
    r
  }

  /** Fog: in the enemy back row each card with positive power loses exactly 1, with no immunity. */
  function FogEffect(b: Board, played: Zone): (r: Board)
    ensures WeakenedRow(b.Get(BackOf(played.Enemy())), r.Get(BackOf(played.Enemy())), false)
    ensures forall z :: z != BackOf(played.Enemy()) ==> r.Get(z) == b.Get(z)
    ensures NonNegative(b) ==> NonNegative(r)
  {
    var target := BackOf(played.Enemy());
    var r := b.Set(target, WeakenAll(b.Get(target), false));
    assert NonNegative(b) ==> NonNegative(r) by {
      if NonNegative(b) {
        forall z: Zone ensures RowNonNegative(r.Get(z)) {
          assert RowNonNegative(b.Get(z));
        }
      }
    }
    r
  }

  /** The loop both weakening abilities run over their target row. */
  method WeakenRow(row: seq<PlacedCard>, spareBandit: bool) returns (r: seq<PlacedCard>)
    ensures r == WeakenAll(row, spareBandit)
  {
    r := row;
    var i := 0;
    while i < |r|
      invariant 0 <= i <= |r| == |row|
      invariant forall j :: 0 <= j < i ==> r[j] == Weakened(row[j], spareBandit)
      invariant forall j :: i <= j < |r| ==> r[j] == row[j]
    {
      if spareBandit && r[i].name == Bandit {
        i := i + 1;
        continue;
      }
      if r[i].power > 0 {
        r := r[i := r[i].(power := r[i].power - 1)];
      }
      i := i + 1;
    }
  }

  method FrostAbility(lineCards: Board, played: Zone) returns (r: Board)
    ensures r == FrostEffect(lineCards, played)
  {
    var enemyFront := FrontOf(played.Enemy());
    var row := WeakenRow(lineCards.Get(enemyFront), true);
    r := lineCards.Set(enemyFront, row);
  }

  method FogAbility(lineCards: Board, played: Zone) returns (r: Board)
    ensures r == FogEffect(lineCards, played)
  {
    var enemyBack := BackOf(played.Enemy());
    var row := WeakenRow(lineCards.Get(enemyBack), false);
    r := lineCards.Set(enemyBack, row);
  }

  // ---------------------------------------------------------------------
  // Engineer: +3 to the weakest other card of its row
  // ---------------------------------------------------------------------

  /** Some index below n differs from `self`. */
  predicate HasOther(n: nat, self: nat) {
    n >= 2 || (n == 1 && self != 0)
  }

  /**
   * Among the indices below n other than `self`, the first one of minimal
   * power (Python's min keeps the first minimum it meets).
   */
  function WeakestBefore(s: seq<PlacedCard>, self: nat, n: nat): (r: Option<nat>)
    requires n <= |s|
    ensures r.Some? <==> HasOther(n, self)
    ensures r.Some? ==> r.value < n && r.value != self
    ensures r.Some? ==> forall j :: 0 <= j < n && j != self ==> s[r.value].power <= s[j].power
    ensures r.Some? ==> forall j :: 0 <= j < r.value && j != self ==> s[r.value].power < s[j].power
  {
    if n == 0 then None
    else
      var best := WeakestBefore(s, self, n - 1);
      if n - 1 != self && (best.None? || s[n - 1].power < s[best.value].power) then Some(n - 1)
      else best
  }

  function EngineerRow(s: seq<PlacedCard>, self: nat): seq<PlacedCard> {
    match WeakestBefore(s, self, |s|)
    case None => s
    case Some(k) => s[k := Raised(s[k], 3)]
  }

  /** The engineer's effect; `self` is the index of the engineer in the played row. */
  function EngineerEffect(b: Board, played: Zone, self: nat): Board {
    b.Set(played, EngineerRow(b.Get(played), self))
  }

  /**
   * When the played row holds no card other than the engineer itself,
   * nothing changes; otherwise exactly one other card, the first of minimal
   * power, gains 3 and every other card is unchanged.
   */
  lemma EngineerEffectSpec(b: Board, played: Zone, self: nat)
    ensures var r, s := EngineerEffect(b, played, self), b.Get(played);
            && (forall z :: z != played ==> r.Get(z) == b.Get(z))
            && (!HasOther(|s|, self) ==> r == b)
            && (HasOther(|s|, self) ==>
                  exists k :: 0 <= k < |s| && k != self &&
                    (forall j :: 0 <= j < |s| && j != self ==> s[k].power <= s[j].power) &&
                    (forall j :: 0 <= j < k && j != self ==> s[k].power < s[j].power) &&
                    r.Get(played) == s[k := Raised(s[k], 3)])
    ensures NonNegative(b) ==> NonNegative(EngineerEffect(b, played, self))
  {
    var r, s := EngineerEffect(b, played, self), b.Get(played);
    if !HasOther(|s|, self) {
      assert r.Get(played) == s;
      assert r == b by {
        assert r.p1Back == b.Get(P1Back) && r.p1Front == b.Get(P1Front);
        assert r.p2Front == b.Get(P2Front) && r.p2Back == b.Get(P2Back);
      }
    }
    if NonNegative(b) {
      forall z: Zone ensures RowNonNegative(r.Get(z)) {
        assert RowNonNegative(b.Get(z));
      }
    }
  }

  method EngineerAbility(lineCards: Board, played: Zone, self: nat) returns (r: Board)
    ensures r == EngineerEffect(lineCards, played, self)
  {
    var row := lineCards.Get(played);
    var weakest: Option<nat> := None;
    var i := 0;
    while i < |row|
      invariant 0 <= i <= |row|
      invariant weakest == WeakestBefore(row, self, i)
    {
      if i != self && (weakest.None? || row[i].power < row[weakest.value].power) {
        weakest := Some(i);
      }
      i := i + 1;
    }
    if weakest.None? {
      assert EngineerRow(row, self) == row;
      r := lineCards;
      assert r == lineCards.Set(played, row) by {
        assert r.p1Back == lineCards.Set(played, row).p1Back;
        assert r.p1Front == lineCards.Set(played, row).p1Front;
        assert r.p2Front == lineCards.Set(played, row).p2Front;
        assert r.p2Back == lineCards.Set(played, row).p2Back;
      }
      return;
    }
    var k := weakest.value;
    row := row[k := row[k].(power := row[k].power + 3)];
    r := lineCards.Set(played, row);
  }

  // ---------------------------------------------------------------------
  // Dragon: destroy the strongest non-bandit enemy front-row card
  // ---------------------------------------------------------------------

  /** Some card below index n is not the bandit. */
  predicate HasEligible(s: seq<PlacedCard>, n: nat)
    requires n <= |s|
  {
    exists j :: 0 <= j < n && s[j].name != Bandit
  }

  /** Among the non-bandit cards below index n, the first one of maximal power. */
  function StrongestBefore(s: seq<PlacedCard>, n: nat): (r: Option<nat>)
    requires n <= |s|
    ensures r.Some? <==> HasEligible(s, n)
    ensures r.Some? ==> r.value < n && s[r.value].name != Bandit
    ensures r.Some? ==> forall j :: 0 <= j < n && s[j].name != Bandit ==> s[j].power <= s[r.value].power
    ensures r.Some? ==> forall j :: 0 <= j < r.value && s[j].name != Bandit ==> s[j].power < s[r.value].power
  {
    if n == 0 then None
    else
      var best := StrongestBefore(s, n - 1);
      if s[n - 1].name != Bandit && (best.None? || s[n - 1].power > s[best.value].power) then Some(n - 1)
      else best
  }

  function DragonRow(s: seq<PlacedCard>): seq<PlacedCard> {
    match StrongestBefore(s, |s|)
    case None => s
    case Some(k) => s[..k] + s[k + 1..]
  }

  function DragonEffect(b: Board, played: Zone): Board {
    var target := FrontOf(played.Enemy());
    b.Set(target, DragonRow(b.Get(target)))
  }

  /**
   * In the enemy front row, when some card is not the bandit, exactly one
   * card is removed, the first non-bandit card of maximal power, and the rest
   * keep their order; with no eligible card nothing changes.
   */
  lemma DragonEffectSpec(b: Board, played: Zone)
    ensures var r, target := DragonEffect(b, played), FrontOf(played.Enemy());
            var s := b.Get(target);
            && (forall z :: z != target ==> r.Get(z) == b.Get(z))
            && (!HasEligible(s, |s|) ==> r.Get(target) == s)
            && (HasEligible(s, |s|) ==>
                  exists k :: 0 <= k < |s| && s[k].name != Bandit &&
                    (forall j :: 0 <= j < |s| && s[j].name != Bandit ==> s[j].power <= s[k].power) &&
                    (forall j :: 0 <= j < k && s[j].name != Bandit ==> s[j].power < s[k].power) &&
                    r.Get(target) == s[..k] + s[k + 1..] &&
                    |r.Get(target)| == |s| - 1)
  {
  }

  /** Removing a card from a row of non-negative powers leaves non-negative powers. */
  lemma DragonRowNonNegative(s: seq<PlacedCard>)
    requires RowNonNegative(s)
    ensures RowNonNegative(DragonRow(s))
  {
    match StrongestBefore(s, |s|)
    case None =>
    case Some(k) => RemovalNonNegative(s, k);
  }

  lemma RemovalNonNegative(s: seq<PlacedCard>, k: nat)
    requires RowNonNegative(s) && k < |s|
    ensures RowNonNegative(s[..k] + s[k + 1..])
  {
    var t := s[..k] + s[k + 1..];
    forall i | 0 <= i < |t| ensures t[i].power >= 0 {
      if i < k {
        assert t[i] == s[i];
      } else {
        assert t[i] == s[i + 1];
      }
    }
  }

  /** The dragon never leaves a negative power on the battlefield. */
  lemma DragonKeepsNonNegative(b: Board, played: Zone)
    requires NonNegative(b)
    ensures NonNegative(DragonEffect(b, played))
  {
    var r, target := DragonEffect(b, played), FrontOf(played.Enemy());
    forall z: Zone ensures RowNonNegative(r.Get(z)) {
      assert RowNonNegative(b.Get(z));
      if z == target {
        DragonRowNonNegative(b.Get(z));
      }
    }
  }

  method DragonAbility(lineCards: Board, played: Zone) returns (r: Board)
    ensures r == DragonEffect(lineCards, played)
  {
    var enemyFront := FrontOf(played.Enemy());
    var row := lineCards.Get(enemyFront);
    if row != [] {
      var strongest := StrongestIndex(row);
      if strongest.Some? {
        var k := strongest.value;
        row := row[..k] + row[k + 1..];
      }
    }
    r := lineCards.Set(enemyFront, row);
  }

  /** The dragon's scan: the first non-bandit card of maximal power, if any. */
  method StrongestIndex(row: seq<PlacedCard>) returns (strongest: Option<nat>)
    ensures strongest == StrongestBefore(row, |row|)
  {
    strongest := None;
    var i := 0;
    while i < |row|
      invariant 0 <= i <= |row|
      invariant strongest == StrongestBefore(row, i)
    {
      if row[i].name != Bandit && (strongest.None? || row[i].power > row[strongest.value].power) {
        strongest := Some(i);
      }
      i := i + 1;
    }
  }

  // ---------------------------------------------------------------------
  // Mage synergy: the one-shot +2 for the fire mage / ice mage pair
  // ---------------------------------------------------------------------

  /** The last index below n of a card with this name. */
  function LastNamedBefore(s: seq<PlacedCard>, name: string, n: nat): (r: Option<nat>)
    requires n <= |s|
    ensures r.Some? ==> r.value < n && s[r.value].name == name
    ensures r.Some? ==> forall j :: r.value < j < n ==> s[j].name != name
    ensures r.None? <==> forall j :: 0 <= j < n ==> s[j].name != name
  {
    if n == 0 then None
    else if s[n - 1].name == name then Some(n - 1)
    else LastNamedBefore(s, name, n - 1)
  }

  /** The last-named search depends only on the names. */
  lemma {:induction false} LastNamedDependsOnNames(s: seq<PlacedCard>, t: seq<PlacedCard>, name: string, n: nat)
    requires n <= |s| == |t|
    requires forall j :: 0 <= j < |s| ==> s[j].name == t[j].name
    ensures LastNamedBefore(s, name, n) == LastNamedBefore(t, name, n)
  {
    if n > 0 {
      LastNamedDependsOnNames(s, t, name, n - 1);
    }
  }

  /** Replaces the k-th card of the flattened battlefield, leaving every row's length alone. */
  function UpdateFlat(b: Board, k: nat, c: PlacedCard): (r: Board)
    requires k < |Flatten(b)|
    ensures Flatten(r) == Flatten(b)[k := c]
    ensures forall z :: |r.Get(z)| == |b.Get(z)|
    ensures forall z, j :: 0 <= j < |b.Get(z)| ==> r.Get(z)[j] == b.Get(z)[j] || r.Get(z)[j] == c
  {
    var n1 := |b.p1Back|;
    var n2 := n1 + |b.p1Front|;
    var n3 := n2 + |b.p2Front|;
    if k < n1 then b.(p1Back := b.p1Back[k := c])
    else if k < n2 then b.(p1Front := b.p1Front[k - n1 := c])
    else if k < n3 then b.(p2Front := b.p2Front[k - n2 := c])
    else b.(p2Back := b.p2Back[k - n3 := c])
  }

  function Synergized(c: PlacedCard): PlacedCard {
    c.(power := c.power + 2, mageBuffed := true)
  }

  datatype SynergyResult = SynergyResult(board: Board, applied: bool)

  /** The synergy scan over the whole battlefield, with whether it buffed the pair. */
  function MageSynergyEffect(b: Board): SynergyResult {
    var all := Flatten(b);
    var fire := LastNamedBefore(all, FireMage, |all|);
    var ice := LastNamedBefore(all, IceMage, |all|);
    if fire.None? || ice.None? then SynergyResult(b, false)
    else if all[fire.value].mageBuffed || all[ice.value].mageBuffed then SynergyResult(b, false)
    else
      var b1 := UpdateFlat(b, fire.value, Synergized(all[fire.value]));
      SynergyResult(UpdateFlat(b1, ice.value, Synergized(all[ice.value])), true)
  }

  /**
   * The last fire mage and the last ice mage of the battlefield are found;
   * when both exist and neither is flagged, each gains exactly 2 and both
   * become flagged, every other card unchanged; otherwise nothing changes.
   */
  lemma MageSynergySpec(b: Board)
    ensures var r, all := MageSynergyEffect(b), Flatten(b);
            var fire := LastNamedBefore(all, FireMage, |all|);
            var ice := LastNamedBefore(all, IceMage, |all|);
            && (r.applied <==> fire.Some? && ice.Some? && !all[fire.value].mageBuffed && !all[ice.value].mageBuffed)
            && (!r.applied ==> r.board == b)
            && (r.applied ==>
                  && fire.value != ice.value
                  && |Flatten(r.board)| == |all|
                  && Flatten(r.board)[fire.value] == all[fire.value].(power := all[fire.value].power + 2, mageBuffed := true)
                  && Flatten(r.board)[ice.value] == all[ice.value].(power := all[ice.value].power + 2, mageBuffed := true)
                  && forall j :: 0 <= j < |all| && j != fire.value && j != ice.value ==> Flatten(r.board)[j] == all[j])
  {
    var all := Flatten(b);
    var fire := LastNamedBefore(all, FireMage, |all|);
    var ice := LastNamedBefore(all, IceMage, |all|);
    if fire.Some? && ice.Some? && !all[fire.value].mageBuffed && !all[ice.value].mageBuffed {
      assert fire.value != ice.value by { assert FireMage != IceMage; }
      var b1 := UpdateFlat(b, fire.value, Synergized(all[fire.value]));
      assert Flatten(b1)[ice.value] == all[ice.value];
    }
  }

  /** The synergy keeps every row's length and every card's name and owner. */
  lemma MageSynergyKeepsSlots(b: Board)
    ensures forall z :: SameSlots(b.Get(z), MageSynergyEffect(b).board.Get(z))
  {
    var all := Flatten(b);
    var fire := LastNamedBefore(all, FireMage, |all|);
    var ice := LastNamedBefore(all, IceMage, |all|);
    if fire.Some? && ice.Some? && !all[fire.value].mageBuffed && !all[ice.value].mageBuffed {
      var f, i := fire.value, ice.value;
      var cf, ci := Synergized(all[f]), Synergized(all[i]);
      var b1 := UpdateFlat(b, f, cf);
      var b2 := UpdateFlat(b1, i, ci);
      assert b2 == MageSynergyEffect(b).board;
      UpdateFlatKeepsSlots(b, f, cf);
      UpdateFlatKeepsSlots(b1, i, ci);
    }
  }

  /** The synergy only adds power, so it keeps powers non-negative. */
  lemma MageSynergyKeepsNonNegative(b: Board)
    requires NonNegative(b)
    ensures NonNegative(MageSynergyEffect(b).board)
  {
    var all := Flatten(b);
    var fire := LastNamedBefore(all, FireMage, |all|);
    var ice := LastNamedBefore(all, IceMage, |all|);
    if fire.Some? && ice.Some? && !all[fire.value].mageBuffed && !all[ice.value].mageBuffed {
      var f, i := fire.value, ice.value;
      var cf, ci := Synergized(all[f]), Synergized(all[i]);
      var b1 := UpdateFlat(b, f, cf);
      FlattenNonNegative(b);
      UpdateFlatKeepsNonNegative(b, f, cf);
      FlattenNonNegative(b1);
      UpdateFlatKeepsNonNegative(b1, i, ci);
    }
  }

  lemma UpdateFlatKeepsSlots(b: Board, k: nat, c: PlacedCard)
    requires k < |Flatten(b)|
    requires c.name == Flatten(b)[k].name && c.owner == Flatten(b)[k].owner
    ensures forall z :: SameSlots(b.Get(z), UpdateFlat(b, k, c).Get(z))
  {
  }

  lemma UpdateFlatKeepsNonNegative(b: Board, k: nat, c: PlacedCard)
    requires k < |Flatten(b)|
    requires NonNegative(b) && c.power >= 0
    ensures NonNegative(UpdateFlat(b, k, c))
  {
    var r := UpdateFlat(b, k, c);
    forall z: Zone ensures RowNonNegative(r.Get(z)) {
      assert RowNonNegative(b.Get(z));
    }
  }

  lemma FlattenNonNegative(b: Board)
    requires NonNegative(b)
    ensures forall k :: 0 <= k < |Flatten(b)| ==> Flatten(b)[k].power >= 0
  {
    assert RowNonNegative(b.Get(P1Back)) && RowNonNegative(b.Get(P1Front));
    assert RowNonNegative(b.Get(P2Front)) && RowNonNegative(b.Get(P2Back));
  }

  /** A second scan right after the first never buffs again: the pair is buffed at most once. */
  lemma MageSynergyAtMostOnce(b: Board)
    ensures !MageSynergyEffect(MageSynergyEffect(b).board).applied
  {
    var first := MageSynergyEffect(b);
    MageSynergySpec(b);
    if first.applied {
      var all, all' := Flatten(b), Flatten(first.board);
      var f := LastNamedBefore(all, FireMage, |all|).value;
      var i := LastNamedBefore(all, IceMage, |all|).value;
      forall j | 0 <= j < |all| ensures all'[j].name == all[j].name { }
      LastNamedDependsOnNames(all, all', FireMage, |all|);
      LastNamedDependsOnNames(all, all', IceMage, |all|);
      assert all'[f].mageBuffed;
    }
  }

  method MageSynergyAbility(lineCards: Board) returns (r: Board, applied: bool)
    ensures SynergyResult(r, applied) == MageSynergyEffect(lineCards)
  {
    var allCards := Flatten(lineCards);
    var fire: Option<nat> := None;
    var ice: Option<nat> := None;
    var i := 0;
    while i < |allCards|
      invariant 0 <= i <= |allCards|
      invariant fire == LastNamedBefore(allCards, FireMage, i)
      invariant ice == LastNamedBefore(allCards, IceMage, i)
    {
      if allCards[i].name == FireMage {
        fire := Some(i);
      } else if allCards[i].name == IceMage {
        ice := Some(i);
      }
      i := i + 1;
    }
    if fire.None? || ice.None? {
      return lineCards, false;
    }
    if allCards[fire.value].mageBuffed || allCards[ice.value].mageBuffed {
      return lineCards, false;
    }
    r := UpdateFlat(lineCards, fire.value, Synergized(allCards[fire.value]));
    r := UpdateFlat(r, ice.value, Synergized(allCards[ice.value]));
    applied := true;
  }

  // ---------------------------------------------------------------------
  // Dispatch
  // ---------------------------------------------------------------------

  /** The effect of a placed card's own ability; `self` is the played card's index in its row. */
  function AbilityEffect(a: Ability, b: Board, played: Zone, self: nat): Board {
    match a
    case OakBardLights => OakBardLightsEffect(b, played)
    case Frost => FrostEffect(b, played)
    case Fog => FogEffect(b, played)
    case Engineer => EngineerEffect(b, played, self)
    case MageSynergy => MageSynergyEffect(b).board
    case Dragon => DragonEffect(b, played)
  }

  method RunAbility(a: Ability, lineCards: Board, played: Zone, self: nat) returns (r: Board)
    ensures r == AbilityEffect(a, lineCards, played, self)
  {
    match a
    case OakBardLights => r := OakBardLightsAbility(lineCards, played);
    case Frost => r := FrostAbility(lineCards, played);
    case Fog => r := FogAbility(lineCards, played);
    case Engineer => r := EngineerAbility(lineCards, played, self);
    case MageSynergy => var applied; r, applied := MageSynergyAbility(lineCards);
    case Dragon => r := DragonAbility(lineCards, played);
  }

  /** No ability drives a card's power below zero. */
  lemma AbilityKeepsNonNegative(a: Ability, b: Board, played: Zone, self: nat)
    requires NonNegative(b)
    ensures NonNegative(AbilityEffect(a, b, played, self))
  {
    match a
    case Engineer => EngineerEffectSpec(b, played, self);
    case MageSynergy => MageSynergyKeepsNonNegative(b);
    case Dragon => DragonKeepsNonNegative(b, played);
    case _ =>
  }

  /**
   * Only the dragon takes cards away: every other ability keeps each row's
   * cards in place with their names and owners, and the dragon does so for
   * every row but the enemy front row.
   */
  lemma AbilityKeepsSlots(a: Ability, b: Board, played: Zone, self: nat, z: Zone)
    requires a == Dragon ==> z != FrontOf(played.Enemy())
    ensures SameSlots(b.Get(z), AbilityEffect(a, b, played, self).Get(z))
  {
    match a
    case MageSynergy => MageSynergyKeepsSlots(b);
    case _ =>
  }
}
