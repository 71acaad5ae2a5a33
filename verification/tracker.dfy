/** The tracker's state machine: the elixir estimate with its fixed maximum and
    the play history, driven by the regeneration tick, card taps and Reset. */
module Tracker {
  import opened Elixir
  import opened Catalog
  import opened History

  /** `useState(5.0)`. */
  const InitialElixir: real := 5.0

  /** `useState(10)`; `setMaxElixir` is never called, so it never changes. */
  const InitialMaxElixir: int := 10

  /** The Reset button assigns this value directly, without a clamp. */
  const ResetElixir: real := 5.0

  datatype State = State(elixir: real, maxElixir: int, history: seq<Card>)

  /** What can happen to the state: one interval tick, a tap on a card, or Reset.
      Search and cost-filter input do not touch this state. */
  datatype Action = Regen | Play(card: Card) | Reset

  function Initial(): State {
    State(InitialElixir, InitialMaxElixir, [])
  }

  /** One transition. A tap updates the elixir and the history from the same
      handler, so both happen. */
  function Step(s: State, a: Action): (s': State)
    ensures s'.maxElixir == s.maxElixir
    ensures !a.Play? ==> s'.history == s.history
    ensures a.Play? ==> |s'.history| == Min(|s.history| + 1, Capacity) && s'.history[0] == a.card
    ensures a.Reset? ==> s'.elixir == ResetElixir
    ensures a.Regen? && 0.0 <= s.elixir <= s.maxElixir as real ==> s.elixir <= s'.elixir
    ensures a.Play? && 0 <= a.card.cost && 0.0 <= s.elixir <= s.maxElixir as real ==> s'.elixir <= s.elixir
  {
    match a
    case Regen => s.(elixir := Tick(s.elixir, s.maxElixir))
    case Play(card) => State(Consume(s.elixir, card.cost, s.maxElixir), s.maxElixir, Record(s.history, card))
    case Reset => s.(elixir := ResetElixir)
  }

  /** The state invariant: elixir within `[0, maxElixir]`, a maximum that leaves
      room for the unclamped Reset value, and a history within its bound. */
  predicate Inv(s: State) {
    && 0.0 <= s.elixir <= s.maxElixir as real
    && ResetElixir <= s.maxElixir as real
    && |s.history| <= Capacity
  }

  lemma InitialInv()
    ensures Inv(Initial())
  {
  }

  /** Every transition keeps the invariant, whatever card is tapped. */
  lemma StepPreservesInv(s: State, a: Action)
    requires Inv(s)
    ensures Inv(Step(s, a))
  {
  }

  /** Applying the actions first to last. */
  function Run(s: State, actions: seq<Action>): State
    decreases |actions|
  {
    if actions == [] then s else Run(Step(s, actions[0]), actions[1..])
  }

  /** Any sequence of transitions keeps the invariant. */
  lemma {:induction false} RunPreservesInv(s: State, actions: seq<Action>)
    requires Inv(s)
    ensures Inv(Run(s, actions))
    decreases |actions|
  {
    if actions != [] {
      StepPreservesInv(s, actions[0]);
      RunPreservesInv(Step(s, actions[0]), actions[1..]);
    }
  }

  /** From the initial state, every reachable elixir lies in `[0, 10]`, the
      maximum stays at 10 and the history holds at most thirty plays. */
  lemma ReachableStatesBounded(actions: seq<Action>)
    ensures 0.0 <= Run(Initial(), actions).elixir <= 10.0
    ensures Run(Initial(), actions).maxElixir == 10
    ensures |Run(Initial(), actions).history| <= 30
  {
    InitialInv();
    RunPreservesInv(Initial(), actions);
    RunKeepsMax(Initial(), actions);
  }

  lemma {:induction false} RunKeepsMax(s: State, actions: seq<Action>)
    ensures Run(s, actions).maxElixir == s.maxElixir
    decreases |actions|
  {
    if actions != [] {
      RunKeepsMax(Step(s, actions[0]), actions[1..]);
    }
  }

  /** The cards tapped in a sequence of actions, in order. */
  function Plays(actions: seq<Action>): seq<Card>
    decreases |actions|
  {
    if actions == [] then []
    else (if actions[0].Play? then [actions[0].card] else []) + Plays(actions[1..])
  }

  /** Ticks and Resets leave the history alone: after any run it is the newest
      thirty taps, newest first, followed by what was there before. */
  lemma {:induction false} RunHistory(s: State, actions: seq<Action>)
    requires |s.history| <= Capacity
    ensures Run(s, actions).history == Take(Reverse(Plays(actions)) + s.history, Capacity)
    decreases |actions|
  {
    RunHistoryIsRecordAll(s, actions);
    RecordAllNewestFirst(s.history, Plays(actions));
  }

  lemma {:induction false} RunHistoryIsRecordAll(s: State, actions: seq<Action>)
    ensures Run(s, actions).history == RecordAll(s.history, Plays(actions))
    decreases |actions|
  {
    if actions != [] {
      var a := actions[0];
      RunHistoryIsRecordAll(Step(s, a), actions[1..]);
      if a.Play? {
        assert Plays(actions) == [a.card] + Plays(actions[1..]);
        assert ([a.card] + Plays(actions[1..]))[1..] == Plays(actions[1..]);
      } else {
        assert Plays(actions) == Plays(actions[1..]);
      }
    }
  }
}
