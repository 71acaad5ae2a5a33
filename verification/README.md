# Clash Analyzer elixir tracker, modelled in Dafny

Clash Analyzer is a single React component. A player taps a card each time the
opponent plays it, and the component estimates the opponent's elixir. This
project models the component's logic as pure Dafny functions and proves
properties about them:

- **Clamp** (`Elixir.Clamp`). Every tick and every tap goes through
  `clamp(n, min, max) = Math.max(min, Math.min(max, n))`.
- **Regeneration tick** (`Elixir.Tick`). Each interval tick adds `1.0 / 2.8`
  elixir and clamps the result to `[0, maxElixir]`.
- **Tap** (`Elixir.Consume`, `History.Record`). A tap subtracts the card's cost
  and clamps to `[0, maxElixir]`. It also prepends the card to the play history
  and cuts the history at 30 entries.
- **Reset** (`Tracker.Step` with `Reset`). Reset assigns 5 to elixir directly.
- **State machine** (`Tracker`). The three actions act on a state made of the
  elixir, the fixed maximum (10) and the history. Every reachable state keeps
  `0 <= elixir <= maxElixir` and a history of at most 30 entries.
- **Card catalogue** (`Catalog.AllCards`). The 61 `(name, cost)` records, in
  source order, plus the eight cost-filter buttons.
- **Card filter** (`CardFilter.Filter`). Keeps cards in order. A card is kept
  when its cost matches the selected cost and its lower-cased name contains the
  lower-cased search text.
- **Image slug** (`Slug.Slugify`). Lower-cases the name and replaces every
  maximal run of characters outside `[a-z0-9]` with one `-`.

Elixir is a Dafny `real`, which is an exact rational. So the per-tick increment
`1.0 / 2.8` is exactly 5/14. Lower-casing applies to the ASCII letters only.

Two details of the code shape the invariant:

- Reset does **not** clamp: `setEnemyElixir(5)`. So the invariant needs the
  maximum to be at least 5. It is, because the maximum is always 10.
- There is no capacity-change operation, because `setMaxElixir` is never called.
  `Tracker.RunKeepsMax` proves that the maximum never changes.

## Model

| member | source | states |
|---|---|---|
| `Elixir.Clamp` | src/ClashAnalyzer.jsx:21 | The result is at least `lo`. It is at most `hi` when `lo <= hi`. It equals `n` when `n` is in range. It is the nearer bound when `n` is out of range. Inverted bounds give `lo`. |
| `Elixir.ClampIdempotent` | src/ClashAnalyzer.jsx:21 | Clamping a clamped value again changes nothing. |
| `Elixir.ClampIsNearestPoint` | src/ClashAnalyzer.jsx:21 | For `lo <= hi`, the clamp is the point of `[lo, hi]` nearest to `n`. |
| `Elixir.ClampMonotone` | src/ClashAnalyzer.jsx:21 | Clamping preserves `<=`. |
| `Elixir.RegenPerTickIsFiveFourteenths` | src/ClashAnalyzer.jsx:103-108 | The per-tick increment `1.0 / 2.8` equals 5/14 exactly, and lies strictly between 0 and 1. |
| `Elixir.Tick` | src/ClashAnalyzer.jsx:107-108 | The new elixir is in `[0, maxElixir]`. It never drops below an in-range `prev`. It is exactly `prev + 5/14` when that fits, and exactly `maxElixir` when it overflows. |
| `Elixir.Consume` | src/ClashAnalyzer.jsx:114 | The new elixir is in `[0, maxElixir]`. It is exactly `e - cost` when `0 <= cost <= e <= maxElixir`. It is 0 (never negative) when `cost > e`. It never rises for a non-negative cost. |
| `Elixir.GainIsMultiple` | src/ClashAnalyzer.jsx:103-108 | `n` uncapped ticks add exactly `n * 5/14`. |
| `Elixir.TicksClosedForm` | src/ClashAnalyzer.jsx:107-109 | From an in-range value, `n` ticks give exactly `min(e + gain(n), maxElixir)`, where `gain(n)` is the uncapped gain and is non-negative. |
| `Elixir.FullAfterEnoughTicks` | src/ClashAnalyzer.jsx:107-109 | Once `n * 5/14` covers the gap to the maximum, `n` ticks leave elixir exactly at the maximum. In exact arithmetic, a maximum of 10 is reached from empty after 28 ticks. |
| `Catalog.CatalogCostsInRange` | src/ClashAnalyzer.jsx:28-90 | Every card of `ALL_CARDS` costs between 1 and 8. |
| `Catalog.CostsInRangeOnButtons` | src/ClashAnalyzer.jsx:146 | A cost between 1 and 8 is one of the filter buttons `[1..8]`. |
| `Catalog.CatalogCostsOnButtons` | src/ClashAnalyzer.jsx:146 | The catalogue has 61 cards, and every card's cost lies in 1..8 and is one of the filter buttons. |
| `History.Record` | src/ClashAnalyzer.jsx:115 | The new head is the tapped card. The tail is the first `min(|h|, 29)` old entries, in order. The new length is `min(|h| + 1, 30)`. Nothing is dropped below 30 entries, and at exactly 30 only the oldest entry is dropped. |
| `History.RecordEvictsOnlyWhenFull` | src/ClashAnalyzer.jsx:115 | Each of the first 29 old entries moves one place back. The length stays the same exactly when the log was full, and otherwise grows by one. |
| `History.RecordAllNewestFirst` | src/ClashAnalyzer.jsx:115 | After any run of taps, the log is the taps in reverse order followed by the old log, cut at 30. |
| `History.ThirtyOneTapsEvictFirst` | src/ClashAnalyzer.jsx:115 | Thirty-one distinct taps on an empty log leave 30 entries, newest first, and evict the first tap. |
| `History.Take` | src/ClashAnalyzer.jsx:115 | `.slice(0, n)`: the result is a prefix of the input, of length `min(|s|, n)`. |
| `CardFilter.Contains` | src/ClashAnalyzer.jsx:120 | `includes`, as a scan from each offset: true exactly when the search text occurs in the name at some offset. |
| `CardFilter.Keep` | src/ClashAnalyzer.jsx:119-121 | A kept card matches the cost filter when one is set, and its lower-cased name contains the lower-cased search. With an empty search, only the cost test decides. |
| `CardFilter.ContainsEmpty` | src/ClashAnalyzer.jsx:120 | The empty string occurs in every name. |
| `CardFilter.KeepIsSelected` | src/ClashAnalyzer.jsx:119-121 | The callback keeps a card exactly when its cost matches a set filter and its lower-cased name contains the lower-cased search. The truthiness test on `search` changes nothing. |
| `CardFilter.Filter` | src/ClashAnalyzer.jsx:118-122 | The result is an order-preserving subsequence of the input. A card is in it iff it is in the input and selected. Selected cards keep their multiplicity and the rest are dropped. With no cost filter and an empty search, the result is the whole input. |
| `CardFilter.FilterIgnoresSearchCase` | src/ClashAnalyzer.jsx:120 | Lower-casing the search text first leaves the filter's result unchanged. |
| `CardFilter.EveryCardHasAButton` | src/ClashAnalyzer.jsx:146-150 | In a card list whose costs lie in 1..8, every card is shown when the button for its cost is selected and the search is empty. |
| `CardFilter.CatalogCardsHaveButtons` | src/ClashAnalyzer.jsx:146-150 | Every catalogue card's cost is a button, and selecting that button with an empty search shows the card. |
| `Ascii.Lower` | src/ClashAnalyzer.jsx:23 | ASCII `toLowerCase`: same length, no upper-case letter left, each `A`..`Z` becomes its letter 32 code points on, and every other character stays in place. |
| `Ascii.LowerIdempotent` | src/ClashAnalyzer.jsx:120 | Lower-casing twice is lower-casing once. |
| `Ascii.LowerFixesSlugAlphabet` | src/ClashAnalyzer.jsx:23 | A string over `[a-z0-9-]` is its own lower-case form. |
| `Slug.SkipRun` | src/ClashAnalyzer.jsx:23 | One greedy `[^a-z0-9]+` match drops exactly the maximal leading run of non-`[a-z0-9]` characters. The remainder is a suffix that is empty or starts with `[a-z0-9]`. |
| `Slug.ReplaceRuns` | src/ClashAnalyzer.jsx:23 | The output is over `[a-z0-9-]`, has no two adjacent `-`, and is no longer than the input. It is empty iff the input is. It starts with `-` iff the input starts outside `[a-z0-9]`. |
| `Slug.Slugify` | src/ClashAnalyzer.jsx:23 | The slug is over `[a-z0-9-]`, has no two adjacent `-`, is no longer than the name, and is empty iff the name is. |
| `Slug.SlugCharsSkipRun` | src/ClashAnalyzer.jsx:23 | Skipping a run loses no `[a-z0-9]` character. |
| `Slug.ReplaceRunsKeepsSlugChars` | src/ClashAnalyzer.jsx:23 | The `[a-z0-9]` characters of the output are those of the input, in the same order. |
| `Slug.SlugifyKeepsLowerAlnum` | src/ClashAnalyzer.jsx:23 | The lower-cased letters and the digits of the name appear in the slug in the same order, and no others do. |
| `Slug.ReplaceRunsFixesSlugShape` | src/ClashAnalyzer.jsx:23 | A string over `[a-z0-9-]` with no adjacent `-` is left unchanged by the replacement. |
| `Slug.SlugifyIdempotent` | src/ClashAnalyzer.jsx:23 | `slugify(slugify(s)) == slugify(s)`. |
| `Slug.SqueezeDashRun` | src/ClashAnalyzer.jsx:23 | A dash followed by a masked run squeezes to the single dash the replacement emits for that run. |
| `Slug.ReplaceRunsIsSqueezedMask` | src/ClashAnalyzer.jsx:23 | The one-pass replacement equals the two-pass reference: mask each non-`[a-z0-9]` character to `-`, then squeeze runs of `-` to one. |
| `Slug.SlugifyMatchesReference` | src/ClashAnalyzer.jsx:23 | The slug is the lower-cased name, masked and squeezed. |
| `Tracker.Step` | src/ClashAnalyzer.jsx:107-135 | The maximum never changes. Only a tap touches the history, prepending the tapped card and growing to at most 30. Reset sets elixir to 5. A tick never lowers an in-range elixir. A tap with a non-negative cost never raises it. |
| `Tracker.InitialInv` | src/ClashAnalyzer.jsx:96-100 | The initial state (5.0, maximum 10, empty history) satisfies the invariant. |
| `Tracker.StepPreservesInv` | src/ClashAnalyzer.jsx:107-135 | A tick, a tap on any card, or Reset keeps `0 <= elixir <= maxElixir`, `5 <= maxElixir` and a history of at most 30 entries. |
| `Tracker.RunPreservesInv` | src/ClashAnalyzer.jsx:107-135 | Every sequence of ticks, taps and Resets keeps the invariant. |
| `Tracker.RunKeepsMax` | src/ClashAnalyzer.jsx:97 | No sequence of actions changes the maximum. |
| `Tracker.ReachableStatesBounded` | src/ClashAnalyzer.jsx:96-135 | Every state reachable from the initial one has elixir in `[0, 10]`, a maximum of 10, and at most 30 history entries. |
| `Tracker.RunHistoryIsRecordAll` | src/ClashAnalyzer.jsx:113-116 | After a run of actions, the history equals the history obtained by recording only the tapped cards, in order. |
| `Tracker.RunHistory` | src/ClashAnalyzer.jsx:113-116 | After any run of actions, the history is the tapped cards, newest first, followed by the old history, cut at 30. |

## Left out

- Rendering, JSX, Tailwind classes, the search input and the cost-button toggles (`f === n ? null : n`, "All"). These only produce the filter's parameters. The filter takes `CostFilter` and the search text as inputs.
- The `useEffect`/`setInterval`/`clearInterval` lifecycle and the one-second cadence. A tick is an abstract transition with no wall-clock time attached.
- `formatElixir`. It depends on IEEE-754 rounding and `toFixed` string formatting.
- Double-precision arithmetic. Elixir is an exact `real`, so accumulated rounding in `1.0 / 2.8` sums is not modelled. In doubles, twenty-eight increments from 0 sum to 9.999999999999998, so the program reaches the cap of 10 on the 29th tick, not the 28th.
- Unicode lower-casing. `Ascii.ToLower` maps only `A`..`Z`. JavaScript's `toLowerCase` also maps non-ASCII letters, and a few of them map into ASCII. Every catalogue name is ASCII.
- Image URLs on the card CDN and the `onError` opacity fallback. These are external resources and DOM side effects.
- Capacity change, clamped reset and undo. None of them exists in the code.
- Uniqueness of catalogue names is not proved. Comparing all pairs of the 61 literal names costs too much proof effort for a fact no operation relies on.
