/** The card catalogue: a fixed, ordered table of (name, cost) records, and the
    cost values offered by the filter buttons. */
module Catalog {

  datatype Card = Card(name: string, cost: int)

  /** `ALL_CARDS`, in source order. The table is written as rows of sixteen
      cards so that facts about it can be established row by row. */
  const AllCards: seq<Card> := Row0 + Row1 + Row2 + Row3

  const Row0: seq<Card> := [
    Card("Knight", 3),
    Card("Archers", 3),
    Card("Goblins", 2),
    Card("Spear Goblins", 2),
    Card("Valkyrie", 4),
    Card("Musketeer", 4),
    Card("Wizard", 5),
    Card("Mini P.E.K.K.A", 4),
    Card("P.E.K.K.A", 7),
    Card("Giant", 5),
    Card("Royal Giant", 6),
    Card("Golem", 8),
    Card("Hog Rider", 4),
    Card("Goblin Barrel", 3),
    Card("Skeletons", 1),
    Card("Skeleton Army", 3)
  ]

  const Row1: seq<Card> := [
    Card("Minions", 3),
    Card("Minion Horde", 5),
    Card("Bats", 2),
    Card("Ice Spirit", 1),
    Card("Fire Spirits", 2),
    Card("Battle Ram", 4),
    Card("Ram Rider", 5),
    Card("Bandit", 3),
    Card("Night Witch", 4),
    Card("Electro Wizard", 4),
    Card("Lumberjack", 4),
    Card("Mega Minion", 3),
    Card("Baby Dragon", 4),
    Card("Inferno Dragon", 4),
    Card("Balloon", 5),
    Card("Zappies", 4)
  ]

  const Row2: seq<Card> := [
    Card("Royal Hogs", 5),
    Card("Elite Barbarians", 6),
    Card("Barbarians", 5),
    Card("Firecracker", 3),
    Card("Magic Archer", 4),
    Card("Fisherman", 3),
    Card("Electro Spirit", 1),
    Card("Skeleton Barrel", 3),
    Card("Royal Recruits", 7),
    Card("Bomb Tower", 4),
    Card("Cannon", 3),
    Card("Tesla", 4),
    Card("Mortar", 4),
    Card("Goblin Cage", 4),
    Card("Inferno Tower", 5),
    Card("Fireball", 4)
  ]

  const Row3: seq<Card> := [
    Card("Arrows", 3),
    Card("Zap", 2),
    Card("The Log", 2),
    Card("Poison", 4),
    Card("Rocket", 6),
    Card("Lightning", 6),
    Card("Rage", 2),
    Card("Freeze", 4),
    Card("Earthquake", 3),
    Card("Tornado", 3),
    Card("Clone", 3),
    Card("Mirror", 1),
    Card("Graveyard", 5)
  ]

  /** The filter buttons `[1,2,3,4,5,6,7,8]`. */
  const CostButtons: seq<int> := [1, 2, 3, 4, 5, 6, 7, 8]

  /** Every card of `cs` costs between 1 and 8. */
  predicate CostsInRange(cs: seq<Card>) {
    forall i :: 0 <= i < |cs| ==> 1 <= cs[i].cost <= 8
  }

  lemma ConcatCostsInRange(a: seq<Card>, b: seq<Card>)
    requires CostsInRange(a) && CostsInRange(b)
    ensures CostsInRange(a + b)
  {
  }

  // One small lemma per row keeps each proof about the literal table cheap.

  lemma Row0CostsInRange()
    ensures CostsInRange(Row0)
  {
  }

  lemma Row1CostsInRange()
    ensures CostsInRange(Row1)
  {
  }

  lemma Row2CostsInRange()
    ensures CostsInRange(Row2)
  {
  }

  lemma Row3CostsInRange()
    ensures CostsInRange(Row3)
  {
  }

  /** Costs in 1..8 are exactly the values the filter buttons offer. */
  lemma CostsInRangeOnButtons(cs: seq<Card>)
    requires CostsInRange(cs)
    ensures forall c :: c in cs ==> 1 <= c.cost <= 8
    ensures forall c :: c in cs ==> c.cost in CostButtons
  {
    forall c | c in cs
      ensures 1 <= c.cost <= 8 && c.cost in CostButtons
    {
      var i :| 0 <= i < |cs| && cs[i] == c;
      assert c.cost == CostButtons[c.cost - 1];
    }
  }

  /** Every catalogue cost lies in 1..8. */
  lemma CatalogCostsInRange()
    ensures CostsInRange(AllCards)
  {
    Row0CostsInRange();
    Row1CostsInRange();
    Row2CostsInRange();
    Row3CostsInRange();
    ConcatCostsInRange(Row0, Row1);
    ConcatCostsInRange(Row0 + Row1, Row2);
    ConcatCostsInRange(Row0 + Row1 + Row2, Row3);
  }

  /** The catalogue holds sixty-one cards and every card's cost lies in 1..8,
      which is one that a filter button offers. */
  lemma CatalogCostsOnButtons()
    ensures |AllCards| == 61
    ensures forall c :: c in AllCards ==> 1 <= c.cost <= 8
    ensures forall c :: c in AllCards ==> c.cost in CostButtons
  {
    CatalogCostsInRange();
    CostsInRangeOnButtons(AllCards);
  }
}
