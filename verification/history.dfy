/** The play history: a bounded, newest-first log of tapped cards. */
module History {
  import opened Catalog

  /** The history keeps at most this many plays (`.slice(0, 30)`). */
  const Capacity: nat := 30

  function Min(a: int, b: int): int {
    if a <= b then a else b
  }

  /** JavaScript's `s.slice(0, n)`: the first `n` elements, or all of `s` when it
      is shorter. */
  function Take<T>(s: seq<T>, n: nat): (r: seq<T>)
    ensures |r| == Min(|s|, n)
    ensures r == s[..|r|]
  {
    if |s| <= n then s else s[..n]
  }

  /** Taking `n` of a prefix already cut at `n` is the same as taking `n` of the
      whole. */
  lemma TakeOfAppendTake<T>(a: seq<T>, b: seq<T>, n: nat)
    ensures Take(a + Take(b, n), n) == Take(a + b, n)
  {
    var lhs := Take(a + Take(b, n), n);
    var rhs := Take(a + b, n);
    assert |lhs| == |rhs|;
    forall i | 0 <= i < |lhs|
      ensures lhs[i] == rhs[i]
    {
      if i >= |a| {
        assert lhs[i] == Take(b, n)[i - |a|];
      }
    }
  }

  /** The tap update `h => [card, ...h].slice(0, 30)`. */
  function Record(h: seq<Card>, card: Card): (r: seq<Card>)
    ensures |r| == Min(|h| + 1, Capacity)
    ensures |r| <= Capacity
    ensures r[0] == card
    ensures r[1..] == h[..Min(|h|, Capacity - 1)]
    ensures |h| < Capacity ==> r == [card] + h
    ensures |h| == Capacity ==> r == [card] + h[..Capacity - 1]
  {
    Take([card] + h, Capacity)
  }

  /** A full log evicts exactly its oldest entry; a log with room evicts nothing. */
  lemma RecordEvictsOnlyWhenFull(h: seq<Card>, card: Card)
    requires |h| <= Capacity
    ensures forall i :: 0 <= i < |h| && i < Capacity - 1 ==> Record(h, card)[i + 1] == h[i]
    ensures |h| < Capacity ==> forall x :: x in h ==> x in Record(h, card)
    ensures |Record(h, card)| == |h| || |Record(h, card)| == |h| + 1
    ensures |Record(h, card)| == |h| <==> |h| == Capacity
  {
    assert |h| < Capacity ==> Record(h, card)[1..] == h;
  }

  function Reverse<T>(s: seq<T>): (r: seq<T>)
    ensures |r| == |s|
    ensures forall i :: 0 <= i < |s| ==> r[i] == s[|s| - 1 - i]
  {
    if s == [] then [] else Reverse(s[1..]) + [s[0]]
  }

  /** Recording `cards` one after another, first to last. */
  function RecordAll(h: seq<Card>, cards: seq<Card>): seq<Card>
    decreases |cards|
  {
    if cards == [] then h else RecordAll(Record(h, cards[0]), cards[1..])
  }

  /** After any run of taps the log is the newest thirty plays, newest first:
      the taps in reverse order followed by the older log, cut at thirty. */
  lemma {:induction false} RecordAllNewestFirst(h: seq<Card>, cards: seq<Card>)
    requires |h| <= Capacity
    ensures RecordAll(h, cards) == Take(Reverse(cards) + h, Capacity)
    decreases |cards|
  {
    if cards == [] {
      assert Reverse(cards) + h == h;
    } else {
      var c := cards[0];
      var rest := cards[1..];
      RecordAllNewestFirst(Record(h, c), rest);
      TakeOfAppendTake(Reverse(rest), [c] + h, Capacity);
      assert Reverse(cards) == Reverse(rest) + [c];
      assert Reverse(rest) + ([c] + h) == Reverse(cards) + h;
    }
  }

  /** Thirty-one distinct taps on an empty log leave thirty entries, the last tap
      first, and the first tap evicted. */
  lemma ThirtyOneTapsEvictFirst(cards: seq<Card>)
    requires |cards| == Capacity + 1
    requires forall i, j :: 0 <= i < j < |cards| ==> cards[i] != cards[j]
    ensures |RecordAll([], cards)| == Capacity
    ensures RecordAll([], cards)[0] == cards[Capacity]
    ensures forall i :: 0 <= i < Capacity ==> RecordAll([], cards)[i] == cards[Capacity - i]
    ensures cards[0] !in RecordAll([], cards)
  {
    RecordAllNewestFirst([], cards);
    var r := RecordAll([], cards);
    assert Reverse(cards) + [] == Reverse(cards);
  }
}
