/** The card grid's filter: an order-preserving selection of catalogue cards by
    cost equality and case-insensitive substring search. */
module CardFilter {
  import opened Ascii
  import opened Catalog

  /** `filterElixir`: `null` (every cost) or one selected cost. */
  datatype CostFilter = AnyCost | OnlyCost(cost: int)

  /** `sub` occurs in `s` starting at offset `i`. */
  predicate OccursAt(s: string, sub: string, i: int) {
    0 <= i && i + |sub| <= |s| && s[i..i + |sub|] == sub
  }

  /** `p` is a prefix of `s`. */
  predicate IsPrefix(p: string, s: string) {
    |p| <= |s| && s[..|p|] == p
  }

  /** `s.includes(sub)`, as a scan: `sub` starts at the current offset or
      somewhere further on. It holds exactly when `sub` occurs at some offset. */
  function Contains(s: string, sub: string): (r: bool)
    ensures r <==> exists i | 0 <= i <= |s| - |sub| :: OccursAt(s, sub, i)
    decreases |s|
  {
    if IsPrefix(sub, s) then
      assert OccursAt(s, sub, 0);
      true
    else if s == [] then
      false
    else
      ContainsShift(s, sub);
      Contains(s[1..], sub)
  }

  /** Away from offset 0, an occurrence in `s` is an occurrence in `s[1..]`, one
      place earlier. */
  lemma ContainsShift(s: string, sub: string)
    requires s != [] && !IsPrefix(sub, s)
    ensures (exists i | 0 <= i <= |s| - |sub| :: OccursAt(s, sub, i))
        <==> (exists j | 0 <= j <= |s[1..]| - |sub| :: OccursAt(s[1..], sub, j))
  {
    if exists i | 0 <= i <= |s| - |sub| :: OccursAt(s, sub, i) {
      var i :| 0 <= i <= |s| - |sub| && OccursAt(s, sub, i);
      assert i != 0;
      assert s[1..][i - 1..i - 1 + |sub|] == s[i..i + |sub|];
      assert OccursAt(s[1..], sub, i - 1);
    }
    if exists j | 0 <= j <= |s[1..]| - |sub| :: OccursAt(s[1..], sub, j) {
      var j :| 0 <= j <= |s[1..]| - |sub| && OccursAt(s[1..], sub, j);
      assert s[1..][j..j + |sub|] == s[j + 1..j + 1 + |sub|];
      assert OccursAt(s, sub, j + 1);
    }
  }

  /** The empty string occurs in every string, so `"".includes` is always true. */
  lemma ContainsEmpty(s: string)
    ensures Contains(s, [])
  {
    assert OccursAt(s, [], 0);
  }

  /** The filter callback as written: reject on a cost mismatch, then reject when
      a non-empty (truthy) search does not occur in the lower-cased name. */
  predicate Keep(c: Card, costFilter: CostFilter, search: string)
    ensures Keep(c, costFilter, search) ==> costFilter.AnyCost? || c.cost == costFilter.cost
    ensures Keep(c, costFilter, search) ==> Contains(Lower(c.name), Lower(search))
    ensures search == [] ==> (Keep(c, costFilter, search) <==> costFilter.AnyCost? || c.cost == costFilter.cost)
  {
    ContainsEmpty(Lower(c.name));
    assert search == [] ==> Lower(search) == [];
    if costFilter.OnlyCost? && c.cost != costFilter.cost then false
    else if search != [] && !Contains(Lower(c.name), Lower(search)) then false
    else true
  }

  /** The selection the filter is meant to make, stated declaratively. */
  predicate Selected(c: Card, costFilter: CostFilter, search: string) {
    && (costFilter.AnyCost? || c.cost == costFilter.cost)
    && Contains(Lower(c.name), Lower(search))
  }

  /** The truthiness test on `search` only skips a test that the empty search
      would pass anyway: the callback keeps exactly the selected cards. */
  lemma KeepIsSelected(c: Card, costFilter: CostFilter, search: string)
    ensures Keep(c, costFilter, search) <==> Selected(c, costFilter, search)
  {
    if search == [] {
      ContainsEmpty(Lower(c.name));
      assert Lower(search) == [];
    }
  }

  /** `a` is `b` with some elements left out, the rest in the same order. */
  predicate IsSubsequence<T(==)>(a: seq<T>, b: seq<T>)
    decreases |b|
  {
    if a == [] then true
    else if b == [] then false
    else (a[0] == b[0] && IsSubsequence(a[1..], b[1..])) || IsSubsequence(a, b[1..])
  }

  /** `ALL_CARDS.filter(...)` applied to any list of cards. */
  function Filter(cards: seq<Card>, costFilter: CostFilter, search: string): (r: seq<Card>)
    ensures |r| <= |cards|
    ensures IsSubsequence(r, cards)
    ensures forall c :: c in r <==> c in cards && Selected(c, costFilter, search)
    ensures forall c :: multiset(r)[c] == if Selected(c, costFilter, search) then multiset(cards)[c] else 0
    ensures costFilter.AnyCost? && search == [] ==> r == cards
  {
    if cards == [] then []
    else
      var rest := Filter(cards[1..], costFilter, search);
      KeepIsSelected(cards[0], costFilter, search);
      assert cards == [cards[0]] + cards[1..];
      if Keep(cards[0], costFilter, search) then [cards[0]] + rest else rest
  }

  /** The search is case-insensitive: lower-casing it first changes nothing. */
  lemma {:induction false} FilterIgnoresSearchCase(cards: seq<Card>, costFilter: CostFilter, search: string)
    ensures Filter(cards, costFilter, Lower(search)) == Filter(cards, costFilter, search)
    decreases |cards|
  {
    if cards != [] {
      LowerIdempotent(search);
      assert Lower(search) == [] <==> search == [];
      FilterIgnoresSearchCase(cards[1..], costFilter, search);
    }
  }

  /** In a list whose costs all lie in 1..8, every card is shown when the button
      for its cost is selected and the search is empty. */
  lemma EveryCardHasAButton(cards: seq<Card>, c: Card)
    requires CostsInRange(cards)
    requires c in cards
    ensures c.cost in CostButtons
    ensures c in Filter(cards, OnlyCost(c.cost), "")
  {
    CostsInRangeOnButtons(cards);
    ContainsEmpty(Lower(c.name));
  }

  /** Every catalogue card can be brought up through a cost button. */
  lemma CatalogCardsHaveButtons()
    ensures forall c :: c in AllCards ==> c.cost in CostButtons && c in Filter(AllCards, OnlyCost(c.cost), "")
  {
    CatalogCostsInRange();
    forall c | c in AllCards
      ensures c.cost in CostButtons && c in Filter(AllCards, OnlyCost(c.cost), "")
    {
      EveryCardHasAButton(AllCards, c);
    }
  }
}
